/** The RESP array parser (`parse_resp_frame`, `read_resp_line_int`, `read_resp_bulk`) and
    the encoder it inverts. Positions are absolute; the source slices `&buf[pos..]`. */
module RespParser {
  import opened Bytes
  import opened Domain
  import opened InlineParser

  const STAR: byte := 42
  const DOLLAR: byte := 36
  const MINUS: byte := 45

  /** The outcome of a partial read: a value and the position after it, a request for
      more bytes, or a syntax error. */
  datatype Read<+T> = Got(value: T, next: nat) | More | Bad

  // ---- reference reader -----------------------------------------------------

  /** The number in an integer line, in wrapping 64-bit arithmetic. */
  function LineNumber(num: Bytes): (r: Option<int>) {
    var neg := num != [] && num[0] == MINUS;
    var d := if neg then num[1..] else num;
    if d == [] || !AllDigits(d) then None
    else Some(WrapI64(if neg then -DecVal(d) else DecVal(d)))
  }

  function ReadLineInt(buf: Bytes, pos: nat, prefix: byte): (r: Read<int>)
    requires pos <= |buf|
    requires prefix != LF && prefix != CR
    ensures r.Got? ==> pos < r.next <= |buf|
  {
    if pos == |buf| then More
    else if buf[pos] != prefix then Bad
    else
      var nl := Find(buf, pos, LF);
      if nl == |buf| then More
      else
        var end := if buf[nl - 1] == CR then nl - 1 else nl;
        match LineNumber(buf[pos + 1..end])
        case None => Bad
        case Some(n) => Got(n, nl + 1)
  }

  function ReadBulk(buf: Bytes, pos: nat): (r: Read<Bytes>)
    requires pos <= |buf|
    ensures r.Got? ==> pos < r.next <= |buf|
  {
    match ReadLineInt(buf, pos, DOLLAR)
    case More => More
    case Bad => Bad
    case Got(len, p) =>
      if len < 0 then Got([], p)
      else if p + len + 2 > |buf| then More
      else Got(buf[p..p + len], p + len + 2)
  }

  /** `k` bulk strings one after the other. */
  function ReadBulks(buf: Bytes, pos: nat, k: nat): (r: Read<seq<Bytes>>)
    requires pos <= |buf|
    ensures r.Got? ==> pos <= r.next <= |buf| && |r.value| == k
    decreases k
  {
    if k == 0 then Got([], pos) else
    match ReadBulk(buf, pos)
    case More => More
    case Bad => Bad
    case Got(d, p) =>
      match ReadBulks(buf, p, k - 1)
      case More => More
      case Bad => Bad
      case Got(ds, q) => Got([d] + ds, q)
  }

  function KeyFrame(buf: Bytes, pos: nat, argc: nat, mk: Key -> Command): (f: Frame)
    requires pos <= |buf|
    ensures f.Complete? ==> pos <= f.consumed <= |buf|
    ensures !f.Skip?
  {
    if argc != 1 then Failed(SyntaxError) else
    match ReadBulk(buf, pos)
    case More => Incomplete
    case Bad => Failed(SyntaxError)
    case Got(k, p) => Complete(p, mk(k))
  }

  function SetFrame(buf: Bytes, pos: nat, argc: nat): (f: Frame)
    requires pos <= |buf|
    ensures f.Complete? ==> pos <= f.consumed <= |buf|
    ensures !f.Skip?
  {
    if argc < 2 then Failed(SyntaxError) else
    match ReadBulks(buf, pos, 2)
    case More => Incomplete
    case Bad => Failed(SyntaxError)
    case Got(kv, p) =>
      if argc < 4 then SkipArgs(buf, p, argc - 2, Set(kv[0], kv[1], None)) else
      match ReadBulks(buf, p, 2)
      case More => Incomplete
      case Bad => Failed(SyntaxError)
      case Got(opt, q) =>
        match TtlOption(opt[0], opt[1])
        case None => Failed(SyntaxError)
        case Some(ttl) => SkipArgs(buf, q, argc - 4, Set(kv[0], kv[1], Some(ttl)))
  }

  function SkipArgs(buf: Bytes, pos: nat, k: nat, command: Command): (f: Frame)
    requires pos <= |buf|
    ensures f.Complete? ==> pos <= f.consumed <= |buf|
    ensures !f.Skip?
  {
    match ReadBulks(buf, pos, k)
    case More => Incomplete
    case Bad => Failed(SyntaxError)
    case Got(_, p) => Complete(p, command)
  }

  function ExpireFrame(buf: Bytes, pos: nat, argc: nat): (f: Frame)
    requires pos <= |buf|
    ensures f.Complete? ==> pos <= f.consumed <= |buf|
    ensures !f.Skip?
  {
    if argc != 2 then Failed(SyntaxError) else
    match ReadBulks(buf, pos, 2)
    case More => Incomplete
    case Bad => Failed(SyntaxError)
    case Got(a, p) =>
      match ParseU64(a[1])
      case None => Failed(SyntaxError)
      case Some(n) => Complete(p, Expire(a[0], n))
  }

  function ManyFrame(buf: Bytes, pos: nat, argc: nat, paired: bool): (f: Frame)
    requires pos <= |buf|
    ensures f.Complete? ==> pos <= f.consumed <= |buf|
    ensures !f.Skip?
  {
    if argc < (if paired then 2 else 1) || (paired && argc % 2 != 0) then Failed(SyntaxError) else
    match ReadBulks(buf, pos, argc)
    case More => Incomplete
    case Bad => Failed(SyntaxError)
    case Got(items, p) => Complete(p, if paired then Mset(PairUp(items)) else Mget(items))
  }

  function ArgsFrame(buf: Bytes, pos: nat, verb: Bytes, argc: nat): (f: Frame)
    requires pos <= |buf|
    ensures f.Complete? ==> pos <= f.consumed <= |buf|
    ensures !f.Skip?
  {
    match VerbOf(verb)
    case VPing => Complete(pos, Ping)
    case VInfo => Complete(pos, Info)
    case VDbSize => Complete(pos, DbSize)
    case VFlushDb => Complete(pos, FlushDb)
    case VKeys => Complete(pos, Keys)
    case VGet => KeyFrame(buf, pos, argc, k => Get(k))
    case VDel => KeyFrame(buf, pos, argc, k => Del(k))
    case VIncr => KeyFrame(buf, pos, argc, k => Incr(k))
    case VExists => KeyFrame(buf, pos, argc, k => Exists(k))
    case VTtl => KeyFrame(buf, pos, argc, k => Ttl(k))
    case VSet => SetFrame(buf, pos, argc)
    case VExpire => ExpireFrame(buf, pos, argc)
    case VMget => ManyFrame(buf, pos, argc, false)
    case VMset => ManyFrame(buf, pos, argc, true)
    case VUnknown => Failed(UnknownCommand(verb))
  }

  function RespFrameOf(buf: Bytes): (f: Frame)
    ensures f.Complete? ==> 1 <= f.consumed <= |buf|
    ensures !f.Skip?
    ensures f.Failed? ==> buf != []
  {
    match ReadLineInt(buf, 0, STAR)
    case More => Incomplete
    case Bad => Failed(SyntaxError)
    case Got(count, p) =>
      if count < 0 || count > 1024 then Failed(SyntaxError)
      else if count == 0 then Failed(EmptyCommand)
      else
        match ReadBulk(buf, p)
        case More => Incomplete
        case Bad => Failed(SyntaxError)
        case Got(verb, q) => ArgsFrame(buf, q, verb, count - 1)
  }

  /** `try_parse_frame`: the first byte selects the protocol. */
  function ParseFrame(buf: Bytes): (f: Frame)
    ensures f.Complete? || f.Skip? ==> 1 <= f.consumed <= |buf|
    ensures f.Failed? ==> buf != []
  {
    if buf == [] then Incomplete
    else if buf[0] == STAR then RespFrameOf(buf)
    else ParseInline(buf)
  }

  // ---- the parser's loops ---------------------------------------------------

  /** `read_resp_line_int`. */
  method ReadRespLineInt(buf: Bytes, pos: nat, prefix: byte) returns (r: Read<int>)
    requires pos <= |buf| && prefix != LF && prefix != CR
    ensures r == ReadLineInt(buf, pos, prefix)
  {
    hide Find, DecVal, WrapI64;
    if pos == |buf| {
      return More;
    }
    if buf[pos] != prefix {
      return Bad;
    }
    var nl := Find(buf, pos, LF);
    if nl == |buf| {
      return More;
    }
    var end := if buf[nl - 1] == CR then nl - 1 else nl;
    var num := buf[pos + 1..end];
    if num == [] {
      return Bad;
    }
    var negative := num[0] == MINUS;
    var start := if negative then 1 else 0;
    if negative && |num| == 1 {
      return Bad;
    }
    var d: Bytes := num[start..];
    var n := DigitLoop(d);
    if n.None? {
      return Bad;
    }
    if negative {
      NegWraps(DecVal(d));
      return Got(WrapI64(-n.value), nl + 1);
    }
    return Got(n.value, nl + 1);
  }

  /** The digit loop of `read_resp_line_int`: the accumulator wraps at every step. */
  method DigitLoop(d: Bytes) returns (r: Option<int>)
    ensures r == if AllDigits(d) then Some(WrapI64(DecVal(d))) else None
  {
    var n := 0;
    for i := 0 to |d|
      invariant AllDigits(d[..i])
      invariant n == WrapI64(DecVal(d[..i]))
    {
      if !IsDigit(d[i]) {
        return None;
      }
      assert d[..i + 1][..i] == d[..i];
      DigitWraps(DecVal(d[..i]), d[i] - 48);
      n := WrapI64(n * 10 + (d[i] - 48));
    }
    assert d[..|d|] == d;
    return Some(n);
  }

  lemma NegWraps(v: int)
    ensures WrapI64(-WrapI64(v)) == WrapI64(-v)
  {
    var j := (v + TWO63) / TWO64;
    assert v == WrapI64(v) + j * TWO64;
    WrapShift(-WrapI64(v), -j);
    assert -v == -WrapI64(v) + (-j) * TWO64;
  }

  /** `read_resp_bulk`. */
  method ReadRespBulk(buf: Bytes, pos: nat) returns (r: Read<Bytes>)
    requires pos <= |buf|
    ensures r == ReadBulk(buf, pos)
  {
    var h := ReadRespLineInt(buf, pos, DOLLAR);
    match h {
      case More => return More;
      case Bad => return Bad;
      case Got(len, p) =>
        if len < 0 {
          return Got([], p);
        }
        if p + len + 2 > |buf| {
          return More;
        }
        return Got(buf[p..p + len], p + len + 2);
    }
  }

  function Prepend(acc: seq<Bytes>, r: Read<seq<Bytes>>): Read<seq<Bytes>> {
    match r
    case Got(ds, q) => Got(acc + ds, q)
    case More => More
    case Bad => Bad
  }

  /** The argument loops of `parse_resp_frame`: read `k` bulk strings, advancing `pos`. */
  method ReadRespBulks(buf: Bytes, start: nat, k: nat) returns (r: Read<seq<Bytes>>)
    requires start <= |buf|
    ensures r == ReadBulks(buf, start, k)
  {
    hide ReadBulk;
    var pos: nat := start;
    var items: seq<Bytes> := [];
    PrependNil(ReadBulks(buf, start, k));
    for i := 0 to k
      invariant pos <= |buf|
      invariant ReadBulks(buf, start, k) == Prepend(items, ReadBulks(buf, pos, k - i))
    {
      var b := ReadRespBulk(buf, pos);
      match b {
        case More => return More;
        case Bad => return Bad;
        case Got(d, p) =>
          PrependStep(items, d, ReadBulks(buf, p, k - i - 1));
          pos := p;
          items := items + [d];
      }
    }
    assert items + [] == items;
    return Got(items, pos);
  }

  lemma PrependNil(r: Read<seq<Bytes>>)
    ensures Prepend([], r) == r
  {
    if r.Got? {
      assert [] + r.value == r.value;
    }
  }

  lemma PrependStep(acc: seq<Bytes>, d: Bytes, r: Read<seq<Bytes>>)
    ensures r.Got? ==> acc + ([d] + r.value) == (acc + [d]) + r.value
  {
  }

  /** `parse_resp_frame`. */
  method ParseRespFrame(buf: Bytes) returns (f: Frame)
    ensures f == RespFrameOf(buf)
  {
    var header := ReadRespLineInt(buf, 0, STAR);
    if header.More? {
      return Incomplete;
    }
    if header.Bad? {
      return Failed(SyntaxError);
    }
    var count := header.value;
    if count < 0 || count > 1024 {
      return Failed(SyntaxError);
    }
    if count == 0 {
      return Failed(EmptyCommand);
    }
    var verb := ReadRespBulk(buf, header.next);
    if verb.More? {
      return Incomplete;
    }
    if verb.Bad? {
      return Failed(SyntaxError);
    }
    f := ParseRespArgs(buf, verb.next, verb.value, count - 1);
  }

  method ParseRespArgs(buf: Bytes, pos: nat, verb: Bytes, argc: nat) returns (f: Frame)
    requires pos <= |buf|
    ensures f == ArgsFrame(buf, pos, verb, argc)
  {
    match VerbOf(verb) {
      case VPing => return Complete(pos, Ping);
      case VInfo => return Complete(pos, Info);
      case VDbSize => return Complete(pos, DbSize);
      case VFlushDb => return Complete(pos, FlushDb);
      case VKeys => return Complete(pos, Keys);
      case VGet => f := ParseRespKey(buf, pos, argc, k => Get(k));
      case VDel => f := ParseRespKey(buf, pos, argc, k => Del(k));
      case VIncr => f := ParseRespKey(buf, pos, argc, k => Incr(k));
      case VExists => f := ParseRespKey(buf, pos, argc, k => Exists(k));
      case VTtl => f := ParseRespKey(buf, pos, argc, k => Ttl(k));
      case VSet => f := ParseRespSet(buf, pos, argc);
      case VExpire =>
        if argc != 2 {
          return Failed(SyntaxError);
        }
        var a := ReadRespBulks(buf, pos, 2);
        if !a.Got? {
          return if a.More? then Incomplete else Failed(SyntaxError);
        }
        var n := ParseU64(a.value[1]);
        if n.None? {
          return Failed(SyntaxError);
        }
        return Complete(a.next, Expire(a.value[0], n.value));
      case VMget =>
        if argc < 1 {
          return Failed(SyntaxError);
        }
        var a := ReadRespBulks(buf, pos, argc);
        f := if a.Got? then Complete(a.next, Mget(a.value)) else if a.More? then Incomplete else Failed(SyntaxError);
      case VMset =>
        if argc < 2 || argc % 2 != 0 {
          return Failed(SyntaxError);
        }
        var a := ReadRespBulks(buf, pos, argc);
        f := if a.Got? then Complete(a.next, Mset(PairUp(a.value))) else if a.More? then Incomplete else Failed(SyntaxError);
      case VUnknown => return Failed(UnknownCommand(verb));
    }
  }

  method ParseRespKey(buf: Bytes, pos: nat, argc: nat, mk: Key -> Command) returns (f: Frame)
    requires pos <= |buf|
    ensures f == KeyFrame(buf, pos, argc, mk)
  {
    if argc != 1 {
      return Failed(SyntaxError);
    }
    var k := ReadRespBulk(buf, pos);
    f := if k.Got? then Complete(k.next, mk(k.value)) else if k.More? then Incomplete else Failed(SyntaxError);
  }

  method ParseRespSet(buf: Bytes, pos: nat, argc: nat) returns (f: Frame)
    requires pos <= |buf|
    ensures f == SetFrame(buf, pos, argc)
  {
    if argc < 2 {
      return Failed(SyntaxError);
    }
    var kv := ReadRespBulks(buf, pos, 2);
    if !kv.Got? {
      return if kv.More? then Incomplete else Failed(SyntaxError);
    }
    var at := kv.next;
    var skip := argc - 2;
    var ttl: Option<Duration> := None;
    if argc - 2 >= 2 {
      var opt := ReadRespBulks(buf, at, 2);
      if !opt.Got? {
        return if opt.More? then Incomplete else Failed(SyntaxError);
      }
      ttl := TtlOption(opt.value[0], opt.value[1]);
      if ttl.None? {
        return Failed(SyntaxError);
      }
      at, skip := opt.next, argc - 4;
    }
    var rest := ReadRespBulks(buf, at, skip);
    if !rest.Got? {
      return if rest.More? then Incomplete else Failed(SyntaxError);
    }
    return Complete(rest.next, Set(kv.value[0], kv.value[1], ttl));
  }

  /** `try_parse_frame`. */
  method TryParseFrame(buf: Bytes) returns (f: Frame)
    ensures f == ParseFrame(buf)
  {
    if buf == [] {
      return Incomplete;
    }
    if buf[0] == STAR {
      f := ParseRespFrame(buf);
    } else {
      f := TryParseFrameInline(buf);
    }
  }

  // ---- verdicts are stable --------------------------------------------------

  lemma LineIntStable(buf: Bytes, ext: Bytes, pos: nat, prefix: byte)
    requires pos <= |buf| && buf <= ext && prefix != LF && prefix != CR
    requires !ReadLineInt(buf, pos, prefix).More?
    ensures ReadLineInt(ext, pos, prefix) == ReadLineInt(buf, pos, prefix)
  {
    hide Find, LineNumber;
    if buf[pos] == prefix {
      FindStable(buf, ext, pos, LF);
      var nl := Find(buf, pos, LF);
      var end := if buf[nl - 1] == CR then nl - 1 else nl;
      assert ext[pos + 1..end] == buf[pos + 1..end];
    }
  }

  lemma BulkStable(buf: Bytes, ext: Bytes, pos: nat)
    requires pos <= |buf| && buf <= ext && !ReadBulk(buf, pos).More?
    ensures ReadBulk(ext, pos) == ReadBulk(buf, pos)
  {
    hide ReadLineInt;
    LineIntStable(buf, ext, pos, DOLLAR);
    var h := ReadLineInt(buf, pos, DOLLAR);
    if h.Got? && h.value >= 0 {
      assert ext[h.next..h.next + h.value] == buf[h.next..h.next + h.value];
    }
  }

  lemma {:induction false} BulksStable(buf: Bytes, ext: Bytes, pos: nat, k: nat)
    requires pos <= |buf| && buf <= ext && !ReadBulks(buf, pos, k).More?
    ensures ReadBulks(ext, pos, k) == ReadBulks(buf, pos, k)
    decreases k
  {
    hide ReadBulk;
    if k > 0 {
      BulkStable(buf, ext, pos);
      var b := ReadBulk(buf, pos);
      if b.Got? {
        BulksStable(buf, ext, b.next, k - 1);
      }
    }
  }

  lemma SkipStable(buf: Bytes, ext: Bytes, pos: nat, k: nat, command: Command)
    requires pos <= |buf| && buf <= ext && SkipArgs(buf, pos, k, command) != Incomplete
    ensures SkipArgs(ext, pos, k, command) == SkipArgs(buf, pos, k, command)
  {
    hide ReadBulks;
    BulksStable(buf, ext, pos, k);
  }

  lemma SetStable(buf: Bytes, ext: Bytes, pos: nat, argc: nat)
    requires pos <= |buf| && buf <= ext && SetFrame(buf, pos, argc) != Incomplete
    ensures SetFrame(ext, pos, argc) == SetFrame(buf, pos, argc)
  {
    hide ReadBulks, ReadBulk, TtlOption, SkipArgs;
    if argc >= 2 {
      BulksStable(buf, ext, pos, 2);
      var kv := ReadBulks(buf, pos, 2);
      if kv.Got? {
        if argc < 4 {
          SkipStable(buf, ext, kv.next, argc - 2, Set(kv.value[0], kv.value[1], None));
        } else {
          OptionStable(buf, ext, kv.next, argc, kv.value);
        }
      }
    }
  }

  /** The branch of SET that reads an option. */
  lemma OptionStable(buf: Bytes, ext: Bytes, pos: nat, argc: nat, kv: seq<Bytes>)
    requires pos <= |buf| && buf <= ext && argc >= 4 && |kv| == 2
    ensures
      var o, o' := ReadBulks(buf, pos, 2), ReadBulks(ext, pos, 2);
      && (!o.More? ==> o' == o)
      && (o.Got? ==>
            var ttl := TtlOption(o.value[0], o.value[1]);
            ttl.Some? ==>
              var c := Set(kv[0], kv[1], ttl);
              SkipArgs(buf, o.next, argc - 4, c) != Incomplete ==>
                SkipArgs(ext, o.next, argc - 4, c) == SkipArgs(buf, o.next, argc - 4, c))
  {
    hide ReadBulks, ReadBulk, TtlOption, SkipArgs;
    var o := ReadBulks(buf, pos, 2);
    if !o.More? {
      BulksStable(buf, ext, pos, 2);
    }
    if o.Got? {
      var ttl := TtlOption(o.value[0], o.value[1]);
      if ttl.Some? {
        var c := Set(kv[0], kv[1], ttl);
        if SkipArgs(buf, o.next, argc - 4, c) != Incomplete {
          SkipStable(buf, ext, o.next, argc - 4, c);
        }
      }
    }
  }

  lemma ArgsStable(buf: Bytes, ext: Bytes, pos: nat, verb: Bytes, argc: nat)
    requires pos <= |buf| && buf <= ext && ArgsFrame(buf, pos, verb, argc) != Incomplete
    ensures ArgsFrame(ext, pos, verb, argc) == ArgsFrame(buf, pos, verb, argc)
  {
    match VerbOf(verb) {
      case VGet | VDel | VIncr | VExists | VTtl =>
        if argc == 1 {
          BulkStable(buf, ext, pos);
        }
      case VSet => SetStable(buf, ext, pos, argc);
      case VExpire =>
        if argc == 2 {
          BulksStable(buf, ext, pos, 2);
        }
      case VMget =>
        if argc >= 1 {
          BulksStable(buf, ext, pos, argc);
        }
      case VMset =>
        if argc >= 2 && argc % 2 == 0 {
          BulksStable(buf, ext, pos, argc);
        }
      case _ =>
    }
  }

  /** A complete or failed verdict is the same on every extension of the buffer. */
  lemma FrameStable(buf: Bytes, ext: Bytes)
    requires buf <= ext && ParseFrame(buf) != Incomplete
    ensures ParseFrame(ext) == ParseFrame(buf)
  {
    assert ext[0] == buf[0];
    if buf[0] == STAR {
      LineIntStable(buf, ext, 0, STAR);
      var h := ReadLineInt(buf, 0, STAR);
      if h.Got? && 0 < h.value <= 1024 {
        BulkStable(buf, ext, h.next);
        var v := ReadBulk(buf, h.next);
        if v.Got? {
          ArgsStable(buf, ext, v.next, v.value, h.value - 1);
        }
      }
    } else {
      FindStable(buf, ext, 0, LF);
      var nl := Find(buf, 0, LF);
      assert ext[..nl] == buf[..nl];
    }
  }

  // ---- the encoder and the meaning of an argument vector ----------------------

  function Header(prefix: byte, n: nat): Bytes {
    [prefix] + Itoa(n) + CRLF
  }

  function Bulk(d: Bytes): Bytes {
    Header(DOLLAR, |d|) + d + CRLF
  }

  function BulkAll(ds: seq<Bytes>): Bytes {
    if ds == [] then [] else Bulk(ds[0]) + BulkAll(ds[1..])
  }

  /** `resp_frame`: an array of bulk strings. */
  function RespFrame(args: seq<Bytes>): Bytes {
    Header(STAR, |args|) + BulkAll(args)
  }

  /** The command an argument vector stands for, if it is a well-formed one. */
  function CommandOf(args: seq<Bytes>): (r: Option<Command>)
    ensures r.Some? ==> 1 <= |args| <= 1024
  {
    if args == [] || |args| > 1024 then None else
    var n := |args| - 1;
    match VerbOf(args[0])
    case VPing => if n == 0 then Some(Ping) else None
    case VInfo => if n == 0 then Some(Info) else None
    case VDbSize => if n == 0 then Some(DbSize) else None
    case VFlushDb => if n == 0 then Some(FlushDb) else None
    case VKeys => if n == 0 then Some(Keys) else None
    case VGet => if n == 1 then Some(Get(args[1])) else None
    case VDel => if n == 1 then Some(Del(args[1])) else None
    case VIncr => if n == 1 then Some(Incr(args[1])) else None
    case VExists => if n == 1 then Some(Exists(args[1])) else None
    case VTtl => if n == 1 then Some(Ttl(args[1])) else None
    case VSet =>
      if n < 2 then None
      else if n < 4 then Some(Set(args[1], args[2], None))
      else if TtlOption(args[3], args[4]).Some? then Some(Set(args[1], args[2], TtlOption(args[3], args[4])))
      else None
    case VExpire =>
      if n == 2 && ParseU64(args[2]).Some? then Some(Expire(args[1], ParseU64(args[2]).value)) else None
    case VMget => if n >= 1 then Some(Mget(args[1..])) else None
    case VMset => if n >= 2 && n % 2 == 0 then Some(Mset(PairUp(args[1..]))) else None
    case VUnknown => None
  }

  /** Lengths that the decimal length field carries without wrapping. */
  predicate Sized(ds: seq<Bytes>) {
    forall i :: 0 <= i < |ds| ==> |ds[i]| < TWO63
  }

  lemma LineIntEncoded(a: Bytes, prefix: byte, n: nat, z: Bytes)
    requires n < TWO63 && prefix != LF && prefix != CR
    ensures ReadLineInt(a + Header(prefix, n) + z, |a|, prefix) == Got(n, |a| + |Header(prefix, n)|)
  {
    hide Find, Itoa, DecVal, WrapI64;
    var h := Header(prefix, n);
    var buf := a + h + z;
    var d := Itoa(n);
    var nl := |a| + |d| + 2;
    assert buf[nl] == h[|d| + 2] == LF;
    assert buf[nl - 1] == h[|d| + 1] == CR;
    forall i | |a| <= i < nl
      ensures buf[i] != LF
    {
      assert buf[i] == h[i - |a|];
      if |a| < i < nl - 1 {
        assert h[i - |a|] == d[i - |a| - 1];
        assert IsDigit(d[i - |a| - 1]);
      }
    }
    assert Find(buf, |a|, LF) == nl;
    assert buf[|a| + 1..nl - 1] == d;
    assert IsDigit(d[0]);
  }

  lemma BulkEncoded(a: Bytes, d: Bytes, z: Bytes)
    requires |d| < TWO63
    ensures ReadBulk(a + Bulk(d) + z, |a|) == Got(d, |a| + |Bulk(d)|)
  {
    hide ReadLineInt, Itoa;
    var h := Header(DOLLAR, |d|);
    LineIntEncoded(a, DOLLAR, |d|, d + CRLF + z);
    var buf := a + Bulk(d) + z;
    assert buf == a + h + (d + CRLF + z);
    var p := |a| + |h|;
    assert buf[p..p + |d|] == d;
  }

  lemma {:induction false} BulksEncoded(a: Bytes, ds: seq<Bytes>, z: Bytes)
    requires Sized(ds)
    ensures ReadBulks(a + BulkAll(ds) + z, |a|, |ds|) == Got(ds, |a| + |BulkAll(ds)|)
    decreases |ds|
  {
    hide ReadBulk, Bulk, ReadBulks;
    var buf := a + BulkAll(ds) + z;
    BulksStep(buf, |a|, |ds|);
    if ds != [] {
      var b := Bulk(ds[0]);
      BulkEncoded(a, ds[0], BulkAll(ds[1..]) + z);
      assert buf == a + b + (BulkAll(ds[1..]) + z);
      BulksEncoded(a + b, ds[1..], z);
      assert buf == (a + b) + BulkAll(ds[1..]) + z;
      assert ds == [ds[0]] + ds[1..];
    }
  }

  lemma BulksStep(buf: Bytes, pos: nat, k: nat)
    requires pos <= |buf|
    ensures k == 0 ==> ReadBulks(buf, pos, k) == Got([], pos)
    ensures
      var b := ReadBulk(buf, pos);
      k > 0 && b.Got? && ReadBulks(buf, b.next, k - 1).Got? ==>
        var rest := ReadBulks(buf, b.next, k - 1);
        ReadBulks(buf, pos, k) == Got([b.value] + rest.value, rest.next)
  {
    hide ReadBulk;
  }

  lemma {:induction false} BulkAllAppend(a: seq<Bytes>, b: seq<Bytes>)
    ensures BulkAll(a + b) == BulkAll(a) + BulkAll(b)
  {
    if a == [] {
      assert a + b == b;
    } else {
      assert (a + b)[1..] == a[1..] + b;
      BulkAllAppend(a[1..], b);
    }
  }

  lemma BulkAllNone()
    ensures BulkAll([]) == []
  {
  }

  lemma BulkAllOne(d: Bytes)
    ensures BulkAll([d]) == Bulk(d)
  {
    assert BulkAll([d][1..]) == [];
  }

  lemma ArgsEncoded(a: Bytes, args: seq<Bytes>, z: Bytes)
    requires Sized(args) && CommandOf(args).Some?
    ensures
      var rest := args[1..];
      ArgsFrame(a + BulkAll(rest) + z, |a|, args[0], |rest|)
        == Complete(|a| + |BulkAll(rest)|, CommandOf(args).value)
  {
    hide ReadBulks, ReadBulk, Bulk, BulkAll, VerbOf, TtlOption, ParseU64;
    var rest := args[1..];
    BulksEncoded(a, rest, z);
    match VerbOf(args[0]) {
      case VGet | VDel | VIncr | VExists | VTtl =>
        BulkAllOne(args[1]);
        assert rest == [args[1]];
        BulkEncoded(a, args[1], z);
      case VSet => SetEncoded(a, rest, z);
      case VPing | VInfo | VDbSize | VFlushDb | VKeys =>
        assert rest == [];
        BulkAllNone();
      case _ =>
    }
  }

  lemma SetEncoded(a: Bytes, rest: seq<Bytes>, z: Bytes)
    requires Sized(rest) && |rest| >= 2
    requires |rest| >= 4 ==> TtlOption(rest[2], rest[3]).Some?
    ensures SetFrame(a + BulkAll(rest) + z, |a|, |rest|)
         == Complete(|a| + |BulkAll(rest)|,
                     Set(rest[0], rest[1], if |rest| < 4 then None else TtlOption(rest[2], rest[3])))
  {
    hide ReadBulks, BulkAll, TtlOption;
    var buf := a + BulkAll(rest) + z;
    var kv, tail := rest[..2], rest[2..];
    assert rest == kv + tail;
    BulkAllAppend(kv, tail);
    Regroup(a, BulkAll(kv), BulkAll(tail), z);
    BulksEncoded(a, kv, BulkAll(tail) + z);
    var a1 := a + BulkAll(kv);
    if |rest| < 4 {
      BulksEncoded(a1, tail, z);
    } else {
      var opt, extra := tail[..2], tail[2..];
      assert tail == opt + extra;
      BulkAllAppend(opt, extra);
      Regroup(a1, BulkAll(opt), BulkAll(extra), z);
      BulksEncoded(a1, opt, BulkAll(extra) + z);
      BulksEncoded(a1 + BulkAll(opt), extra, z);
    }
  }

  lemma Regroup(a: Bytes, b: Bytes, c: Bytes, z: Bytes)
    ensures a + (b + c) + z == a + b + (c + z)
    ensures a + (b + c) + z == (a + b) + c + z
  {
  }

  /** Parsing inverts the encoder, whatever follows the frame in the buffer. */
  lemma FrameRoundTrip(args: seq<Bytes>, z: Bytes)
    requires Sized(args) && CommandOf(args).Some?
    ensures ParseFrame(RespFrame(args) + z) == Complete(|RespFrame(args)|, CommandOf(args).value)
  {
    hide ReadLineInt, ReadBulk, ArgsFrame, CommandOf, Itoa;
    var h := Header(STAR, |args|);
    var buf := RespFrame(args) + z;
    LineIntEncoded([], STAR, |args|, BulkAll(args) + z);
    assert buf == [] + h + (BulkAll(args) + z);
    var b := Bulk(args[0]);
    BulkEncoded(h, args[0], BulkAll(args[1..]) + z);
    assert buf == h + b + (BulkAll(args[1..]) + z);
    ArgsEncoded(h + b, args, z);
    assert buf == (h + b) + BulkAll(args[1..]) + z;
  }

  /** Every proper prefix of a well-formed frame asks for more bytes. */
  lemma ProperPrefixIncomplete(args: seq<Bytes>, prefix: Bytes)
    requires Sized(args) && CommandOf(args).Some?
    requires prefix < RespFrame(args)
    ensures ParseFrame(prefix) == Incomplete
  {
    FrameRoundTrip(args, []);
    assert RespFrame(args) + [] == RespFrame(args);
    if ParseFrame(prefix) != Incomplete {
      FrameStable(prefix, RespFrame(args));
    }
  }

  // ---- every command has a frame ---------------------------------------------

  /** An argument vector for a command; TTLs are sent in milliseconds. */
  function ArgsOf(c: Command): (r: seq<Bytes>) {
    match c
    case Ping => [PING]
    case Get(k) => [GET, k]
    case Set(k, v, None) => [SET, k, v]
    case Set(k, v, Some(d)) => [SET, k, v, PX, Itoa(d / MILLI)]
    case Del(k) => [DEL, k]
    case Incr(k) => [INCR, k]
    case Info => [INFO]
    case DbSize => [DBSIZE]
    case Exists(k) => [EXISTS, k]
    case Ttl(k) => [TTL, k]
    case Expire(k, n) => [EXPIRE, k, Itoa(n)]
    case FlushDb => [FLUSHDB]
    case Keys => [KEYS]
    case Mget(ks) => [MGET] + ks
    case Mset(ps) => [MSET] + Flatten(ps)
  }

  /** The commands the protocol can carry. */
  predicate Sendable(c: Command) {
    match c
    case Set(_, _, Some(d)) => d % MILLI == 0 && d / MILLI < TWO64
    case Expire(_, n) => n < TWO64
    case Mget(ks) => 1 <= |ks| <= 1023
    case Mset(ps) => 1 <= |ps| <= 511
    case _ => true
  }

  function VerbFor(c: Command): (v: Verb)
    ensures !v.VUnknown?
  {
    match c
    case Ping => VPing
    case Get(_) => VGet
    case Set(_, _, _) => VSet
    case Del(_) => VDel
    case Incr(_) => VIncr
    case Info => VInfo
    case DbSize => VDbSize
    case Exists(_) => VExists
    case Ttl(_) => VTtl
    case Expire(_, _) => VExpire
    case FlushDb => VFlushDb
    case Keys => VKeys
    case Mget(_) => VMget
    case Mset(_) => VMset
  }

  lemma MillisOption(n: nat)
    requires n < TWO64
    ensures TtlOption(PX, Itoa(n)) == Some(n * MILLI)
  {
    ParseU64Itoa(n);
    assert ToLower(PX[0]) != ToLower(EX[0]);
  }

  /** The argument vector of a command means that command. */
  lemma CommandOfArgs(c: Command)
    requires Sendable(c)
    ensures CommandOf(ArgsOf(c)) == Some(c)
  {
    hide VerbOf, Itoa, ParseU64, TtlOption;
    VerbOfName(VerbFor(c));
    var args := ArgsOf(c);
    assert args[0] == NameOf(VerbFor(c));
    match c {
      case Set(k, v, Some(d)) =>
        MillisOption(d / MILLI);
        assert d / MILLI * MILLI == d;
      case Expire(k, n) => ParseU64Itoa(n);
      case Mget(ks) => assert args[1..] == ks;
      case Mset(ps) =>
        assert args[1..] == Flatten(ps);
        assert PairUp(Flatten(ps)) == ps;
      case _ =>
    }
  }
}
