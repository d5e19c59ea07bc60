/** The exact language of the RESP parser: which bytes it takes for a command, which command, and
    what it makes of every whole argument vector. Lengths are written as any text that the
    parser reads as a number, with CR LF or a bare LF behind it; a negative length is a null
    string; the two bytes behind a string are not looked at. */
module FrameGrammar {
  import opened Bytes
  import opened Domain
  import opened RespParser

  // ---- how a frame is written ---------------------------------------------------------

  datatype Item = Item(line: Bytes, bare: bool, data: Bytes, tail: Bytes)

  /** A frame, or the part of one that the parser takes. */
  datatype Wire = Wire(line: Bytes, bare: bool, items: seq<Item>)

  function LineBytes(prefix: byte, line: Bytes, bare: bool): Bytes {
    [prefix] + line + (if bare then [LF] else CRLF)
  }

  function ItemBytes(x: Item): Bytes {
    LineBytes(DOLLAR, x.line, x.bare) + (x.data + x.tail)
  }

  predicate IsItem(x: Item) {
    match LineNumber(x.line)
    case None => false
    case Some(n) => if n < 0 then x.data == [] && x.tail == [] else |x.data| == n && |x.tail| == 2
  }

  predicate AllItems(xs: seq<Item>) {
    forall i :: 0 <= i < |xs| ==> IsItem(xs[i])
  }

  function ItemsBytes(xs: seq<Item>): Bytes {
    if xs == [] then [] else ItemBytes(xs[0]) + ItemsBytes(xs[1..])
  }

  function Texts(xs: seq<Item>): (ds: seq<Bytes>)
    ensures |ds| == |xs| && forall i :: 0 <= i < |xs| ==> ds[i] == xs[i].data
  {
    seq(|xs|, i requires 0 <= i < |xs| => xs[i].data)
  }

  function WireBytes(w: Wire): Bytes {
    LineBytes(STAR, w.line, w.bare) + ItemsBytes(w.items)
  }

  // ---- what it means ------------------------------------------------------------------

  /** The commands that are complete with their verb, whatever the array announces. */
  function VerbAlone(v: Verb): Option<Command> {
    match v
    case VPing => Some(Ping)
    case VInfo => Some(Info)
    case VDbSize => Some(DbSize)
    case VFlushDb => Some(FlushDb)
    case VKeys => Some(Keys)
    case _ => None
  }

  /** The meaning of the strings that were taken from an array of `count`. */
  function Meaning(count: int, args: seq<Bytes>): Option<Command> {
    if args == [] then None
    else if VerbAlone(VerbOf(args[0])).Some? then (if |args| == 1 then VerbAlone(VerbOf(args[0])) else None)
    else if |args| == count then CommandOf(args)
    else None
  }

  predicate Means(w: Wire, c: Command) {
    AllItems(w.items) &&
    match LineNumber(w.line)
    case None => false
    case Some(count) => 1 <= count <= 1024 && Meaning(count, Texts(w.items)) == Some(c)
  }

  // ---- lines ----------------------------------------------------------------------------

  /** The text of a number has no line end in it. */
  lemma NumberText(num: Bytes)
    requires LineNumber(num).Some?
    ensures num != [] && LF !in num && CR !in num
  {
    hide DecVal, WrapI64;
    var d := if num[0] == MINUS then num[1..] else num;
    forall i | 0 <= i < |num|
      ensures num[i] != LF && num[i] != CR
    {
      if num[0] != MINUS {
        assert IsDigit(d[i]);
      } else if i > 0 {
        assert IsDigit(d[i - 1]);
      }
    }
  }

  /** The bytes of a line, one by one. */
  lemma LineShape(prefix: byte, line: Bytes, bare: bool)
    requires prefix != LF && prefix != CR && LF !in line && CR !in line
    ensures
      var b := LineBytes(prefix, line, bare);
      var n := |b| - 1;
      && n >= 1 && b[0] == prefix && b[n] == LF && (forall i :: 0 <= i < n ==> b[i] != LF)
      && b[1..if b[n - 1] == CR then n - 1 else n] == line
  {
    var b := LineBytes(prefix, line, bare);
    assert b[1..1 + |line|] == line;
    if bare {
      assert b[|b| - 2] == ([prefix] + line)[|line|];
    }
  }

  lemma Embedded(a: Bytes, b: Bytes, z: Bytes, i: nat, j: nat)
    requires i <= j <= |b|
    ensures (a + b + z)[|a| + i..|a| + j] == b[i..j]
    ensures i < |b| ==> (a + b + z)[|a| + i] == b[i]
  {
  }

  lemma EndFound(a: Bytes, b: Bytes, z: Bytes)
    requires b != [] && b[|b| - 1] == LF && forall i :: 0 <= i < |b| - 1 ==> b[i] != LF
    ensures Find(a + b + z, |a|, LF) == |a| + |b| - 1
  {
    hide Find;
    var buf, nl := a + b + z, |a| + |b| - 1;
    assert buf[nl] == LF;
    forall i | |a| <= i < nl
      ensures buf[i] != LF
    {
      assert buf[i] == b[i - |a|];
    }
    assert Find(buf, |a|, LF) == nl;
  }

  /** A line gives its number, or an error if it is none. */
  lemma LineRead(a: Bytes, prefix: byte, line: Bytes, bare: bool, z: Bytes)
    requires prefix != LF && prefix != CR && LF !in line && CR !in line
    ensures
      ReadLineInt(a + LineBytes(prefix, line, bare) + z, |a|, prefix) ==
        match LineNumber(line)
        case None => Bad
        case Some(n) => Got(n, |a| + |LineBytes(prefix, line, bare)|)
  {
    hide LineNumber, Find;
    var b := LineBytes(prefix, line, bare);
    LineShape(prefix, line, bare);
    hide LineBytes;
    EndFound(a, b, z);
    var n := |b| - 1;
    Embedded(a, b, z, 0, n);
    Embedded(a, b, z, n - 1, n);
    Embedded(a, b, z, 1, if b[n - 1] == CR then n - 1 else n);
  }

  /** Whatever is read as a number was written as one. */
  lemma LineWritten(buf: Bytes, pos: nat, prefix: byte) returns (line: Bytes, bare: bool)
    requires pos <= |buf| && prefix != LF && prefix != CR && ReadLineInt(buf, pos, prefix).Got?
    ensures
      var r := ReadLineInt(buf, pos, prefix);
      LineNumber(line) == Some(r.value) && buf[pos..r.next] == LineBytes(prefix, line, bare)
  {
    hide LineNumber;
    var nl := Find(buf, pos, LF);
    bare := buf[nl - 1] != CR;
    line := buf[pos + 1..if bare then nl else nl - 1];
    assert buf[pos..nl + 1] == LineBytes(prefix, line, bare);
  }

  // ---- strings --------------------------------------------------------------------------

  lemma ItemRead(a: Bytes, x: Item, z: Bytes)
    requires IsItem(x)
    ensures ReadBulk(a + ItemBytes(x) + z, |a|) == Got(x.data, |a| + |ItemBytes(x)|)
  {
    hide LineNumber, ReadLineInt;
    var h, body := LineBytes(DOLLAR, x.line, x.bare), x.data + x.tail;
    NumberText(x.line);
    LineRead(a, DOLLAR, x.line, x.bare, body + z);
    var buf := a + ItemBytes(x) + z;
    assert buf == a + h + (body + z);
    hide LineBytes;
    var p := |a| + |h|;
    assert buf[p..p + |x.data|] == x.data;
  }

  lemma ItemWritten(buf: Bytes, pos: nat) returns (x: Item)
    requires pos <= |buf| && ReadBulk(buf, pos).Got?
    ensures
      var r := ReadBulk(buf, pos);
      IsItem(x) && x.data == r.value && buf[pos..r.next] == ItemBytes(x)
  {
    hide LineNumber, ReadLineInt, LineBytes;
    var line, bare := LineWritten(buf, pos, DOLLAR);
    var h := ReadLineInt(buf, pos, DOLLAR);
    var r := ReadBulk(buf, pos);
    x := Item(line, bare, r.value, if h.value < 0 then [] else buf[r.next - 2..r.next]);
    assert buf[pos..r.next] == buf[pos..h.next] + buf[h.next..r.next];
    assert buf[h.next..r.next] == x.data + x.tail;
  }

  /** Reading `i + j` strings is reading `i` and then `j`. */
  lemma {:induction false} BulksSplit(buf: Bytes, pos: nat, i: nat, j: nat)
    requires pos <= |buf|
    ensures
      ReadBulks(buf, pos, i + j) ==
        match ReadBulks(buf, pos, i)
        case More => More
        case Bad => Bad
        case Got(ds, p) => Prepend(ds, ReadBulks(buf, p, j))
    decreases i
  {
    hide ReadBulk;
    if i == 0 {
      PrependNil(ReadBulks(buf, pos, j));
    } else {
      var b := ReadBulk(buf, pos);
      if b.Got? {
        BulksSplit(buf, b.next, i - 1, j);
        var r := ReadBulks(buf, b.next, i - 1);
        if r.Got? {
          var s := ReadBulks(buf, r.next, j);
          if s.Got? {
            assert [b.value] + (r.value + s.value) == ([b.value] + r.value) + s.value;
          }
        }
      }
    }
  }

  lemma {:induction false} ItemsRead(a: Bytes, xs: seq<Item>, z: Bytes)
    requires AllItems(xs)
    ensures ReadBulks(a + ItemsBytes(xs) + z, |a|, |xs|) == Got(Texts(xs), |a| + |ItemsBytes(xs)|)
    decreases |xs|
  {
    hide ReadBulk, ItemBytes, IsItem, ReadBulks;
    var buf := a + ItemsBytes(xs) + z;
    BulksStep(buf, |a|, |xs|);
    if xs == [] {
      assert Texts(xs) == [];
    } else {
      var b, rest := ItemBytes(xs[0]), ItemsBytes(xs[1..]);
      assert IsItem(xs[0]);
      ItemRead(a, xs[0], rest + z);
      assert buf == a + b + (rest + z);
      ItemsRead(a + b, xs[1..], z);
      assert buf == (a + b) + rest + z;
      assert Texts(xs) == [xs[0].data] + Texts(xs[1..]);
    }
  }

  lemma {:induction false} ItemsWritten(buf: Bytes, pos: nat, k: nat) returns (xs: seq<Item>)
    requires pos <= |buf| && ReadBulks(buf, pos, k).Got?
    ensures
      var r := ReadBulks(buf, pos, k);
      AllItems(xs) && Texts(xs) == r.value && buf[pos..r.next] == ItemsBytes(xs)
    decreases k
  {
    hide ReadBulk, ItemBytes, IsItem;
    if k == 0 {
      xs := [];
      assert Texts(xs) == [];
    } else {
      var x := ItemWritten(buf, pos);
      var b := ReadBulk(buf, pos);
      var rest := ItemsWritten(buf, b.next, k - 1);
      xs := [x] + rest;
      var r := ReadBulks(buf, pos, k);
      assert Texts(xs) == [x.data] + Texts(rest);
      assert xs[1..] == rest;
      assert buf[pos..r.next] == buf[pos..b.next] + buf[b.next..r.next];
    }
  }

  // ---- arguments ------------------------------------------------------------------------

  /** The verdict on a vector that was read to its end. */
  function Verdict(args: seq<Bytes>, end: nat): Frame {
    match CommandOf(args)
    case Some(c) => Complete(end, c)
    case None => Failed(SyntaxError)
  }

  predicate ArgsAgree(f: Frame, verb: Bytes, r: Read<seq<Bytes>>) {
    match r
    case Got(ds, q) => f == Verdict([verb] + ds, q)
    case Bad => f == Failed(SyntaxError)
    case More => f == Incomplete || f == Failed(SyntaxError)
  }

  lemma BulksOne(buf: Bytes, pos: nat)
    requires pos <= |buf|
    ensures
      ReadBulks(buf, pos, 1) ==
        match ReadBulk(buf, pos)
        case More => More
        case Bad => Bad
        case Got(d, p) => Got([d], p)
  {
    hide ReadBulk;
    var b := ReadBulk(buf, pos);
    if b.Got? {
      assert ReadBulks(buf, b.next, 0) == Got([], b.next);
      assert [b.value] + [] == [b.value];
    }
  }

  lemma KeyAgrees(buf: Bytes, pos: nat, verb: Bytes, argc: nat)
    requires pos <= |buf| && argc <= 1023
    requires
      var v := VerbOf(verb);
      v.VGet? || v.VDel? || v.VIncr? || v.VExists? || v.VTtl?
    ensures ArgsAgree(ArgsFrame(buf, pos, verb, argc), verb, ReadBulks(buf, pos, argc))
  {
    hide ReadBulk, VerbOf, ReadBulks;
    BulksOne(buf, pos);
    var r := ReadBulks(buf, pos, argc);
    if r.Got? {
      assert |[verb] + r.value| == argc + 1;
    }
  }

  lemma ManyAgrees(buf: Bytes, pos: nat, verb: Bytes, argc: nat)
    requires pos <= |buf| && argc <= 1023
    requires
      var v := VerbOf(verb);
      v.VExpire? || v.VMget? || v.VMset?
    ensures ArgsAgree(ArgsFrame(buf, pos, verb, argc), verb, ReadBulks(buf, pos, argc))
  {
    hide VerbOf, ReadBulks, ParseU64;
    var r := ReadBulks(buf, pos, argc);
    if r.Got? {
      var args := [verb] + r.value;
      assert args[1..] == r.value;
    }
  }

  lemma SkipAgrees(buf: Bytes, pos: nat, k: nat, c: Command, front: seq<Bytes>)
    requires pos <= |buf|
    ensures
      var r := Prepend(front, ReadBulks(buf, pos, k));
      SkipArgs(buf, pos, k, c) ==
        match r
        case Got(_, q) => Complete(q, c)
        case Bad => Failed(SyntaxError)
        case More => Incomplete
  {
    hide ReadBulks;
  }

  lemma SetAgrees(buf: Bytes, pos: nat, verb: Bytes, argc: nat)
    requires pos <= |buf| && argc <= 1023 && VerbOf(verb).VSet?
    ensures ArgsAgree(SetFrame(buf, pos, argc), verb, ReadBulks(buf, pos, argc))
  {
    hide VerbOf, ReadBulks, TtlOption, SkipArgs;
    var r := ReadBulks(buf, pos, argc);
    if argc >= 2 {
      BulksSplit(buf, pos, 2, argc - 2);
      var kv := ReadBulks(buf, pos, 2);
      if kv.Got? {
        SetRest(buf, kv.next, verb, argc, kv.value);
      }
    }
  }

  lemma SetRest(buf: Bytes, pos: nat, verb: Bytes, argc: nat, kv: seq<Bytes>)
    requires pos <= |buf| && 2 <= argc <= 1023 && VerbOf(verb).VSet? && |kv| == 2
    ensures
      var r := Prepend(kv, ReadBulks(buf, pos, argc - 2));
      && (argc < 4 ==> ArgsAgree(SkipArgs(buf, pos, argc - 2, Set(kv[0], kv[1], None)), verb, r))
      && (argc >= 4 ==>
            match ReadBulks(buf, pos, 2)
            case More => r == More
            case Bad => r == Bad
            case Got(opt, q) =>
              match TtlOption(opt[0], opt[1])
              case None => ArgsAgree(Failed(SyntaxError), verb, r)
              case Some(ttl) => ArgsAgree(SkipArgs(buf, q, argc - 4, Set(kv[0], kv[1], Some(ttl))), verb, r))
  {
    hide VerbOf, ReadBulks, TtlOption, SkipArgs;
    var r := Prepend(kv, ReadBulks(buf, pos, argc - 2));
    if argc < 4 {
      SkipAgrees(buf, pos, argc - 2, Set(kv[0], kv[1], None), kv);
    } else {
      BulksSplit(buf, pos, 2, argc - 4);
      var opt := ReadBulks(buf, pos, 2);
      if opt.Got? {
        var rest := ReadBulks(buf, opt.next, argc - 4);
        var ttl := TtlOption(opt.value[0], opt.value[1]);
        if ttl.Some? {
          SkipAgrees(buf, opt.next, argc - 4, Set(kv[0], kv[1], ttl), kv + opt.value);
        }
        if rest.Got? {
          var args := [verb] + r.value;
          assert r.value == kv + (opt.value + rest.value);
          assert args[1] == kv[0] && args[2] == kv[1] && args[3] == opt.value[0] && args[4] == opt.value[1];
        }
      }
    }
  }

  /** A verb with arguments: the verdict follows from reading all of them, and while they are
      not all there it is never a command. */
  lemma ArgsExactly(buf: Bytes, pos: nat, verb: Bytes, argc: nat)
    requires pos <= |buf| && argc <= 1023 && VerbAlone(VerbOf(verb)).None? && !VerbOf(verb).VUnknown?
    ensures ArgsAgree(ArgsFrame(buf, pos, verb, argc), verb, ReadBulks(buf, pos, argc))
  {
    hide ReadBulks, VerbOf, ArgsAgree, SetFrame;
    match VerbOf(verb)
    case VGet | VDel | VIncr | VExists | VTtl => KeyAgrees(buf, pos, verb, argc);
    case VSet => SetAgrees(buf, pos, verb, argc);
    case _ => ManyAgrees(buf, pos, verb, argc);
  }

  // ---- whole frames -----------------------------------------------------------------------

  /** The parser's verdict on an array whose header and verb are there. */
  lemma Framed(buf: Bytes)
    requires buf != [] && buf[0] == STAR
    requires
      var h := ReadLineInt(buf, 0, STAR);
      h.Got? && 1 <= h.value <= 1024 && ReadBulk(buf, h.next).Got?
    ensures
      var h := ReadLineInt(buf, 0, STAR);
      var v := ReadBulk(buf, h.next);
      var alone := VerbAlone(VerbOf(v.value));
      && ParseFrame(buf) == ArgsFrame(buf, v.next, v.value, h.value - 1)
      && (alone.Some? ==> ParseFrame(buf) == Complete(v.next, alone.value))
      && (VerbOf(v.value).VUnknown? ==> ParseFrame(buf) == Failed(UnknownCommand(v.value)))
  {
    hide ReadLineInt, ReadBulk, VerbOf;
  }

  /** Header and strings of a written frame, as the parser reads them. */
  lemma WireRead(w: Wire, z: Bytes)
    requires AllItems(w.items) && w.items != [] && LineNumber(w.line).Some?
    ensures
      var buf := WireBytes(w) + z;
      var h := LineBytes(STAR, w.line, w.bare);
      var v := ItemBytes(w.items[0]);
      && buf != [] && buf[0] == STAR && |h| + |v| <= |buf|
      && ReadLineInt(buf, 0, STAR) == Got(LineNumber(w.line).value, |h|)
      && ReadBulk(buf, |h|) == Got(w.items[0].data, |h| + |v|)
      && ReadBulks(buf, |h| + |v|, |w.items| - 1) == Got(Texts(w.items)[1..], |WireBytes(w)|)
  {
    hide ReadLineInt, ReadBulk, ReadBulks, LineNumber, ItemBytes, IsItem;
    var h := LineBytes(STAR, w.line, w.bare);
    var v, rest := ItemBytes(w.items[0]), ItemsBytes(w.items[1..]);
    var buf := WireBytes(w) + z;
    NumberText(w.line);
    assert h[0] == STAR;
    hide LineBytes;
    LineRead([], STAR, w.line, w.bare, ItemsBytes(w.items) + z);
    assert buf == [] + h + (ItemsBytes(w.items) + z);
    assert IsItem(w.items[0]);
    ItemRead(h, w.items[0], rest + z);
    assert buf == h + v + (rest + z);
    ItemsRead(h + v, w.items[1..], z);
    assert buf == (h + v) + rest + z;
    assert Texts(w.items[1..]) == Texts(w.items)[1..];
  }

  /** What the parser makes of every whole vector of up to 1024 strings, well-formed or not and
      however its lengths are written: the command it stands for; for the commands without
      arguments the verb alone, the rest staying in the buffer; otherwise an error. */
  lemma VectorVerdict(w: Wire, z: Bytes)
    requires AllItems(w.items) && 1 <= |w.items| <= 1024 && LineNumber(w.line) == Some(|w.items|)
    ensures
      var args := Texts(w.items);
      ParseFrame(WireBytes(w) + z) ==
        if VerbAlone(VerbOf(args[0])).Some? then
          Complete(|LineBytes(STAR, w.line, w.bare)| + |ItemBytes(w.items[0])|, VerbAlone(VerbOf(args[0])).value)
        else if VerbOf(args[0]).VUnknown? then Failed(UnknownCommand(args[0]))
        else if CommandOf(args).Some? then Complete(|WireBytes(w)|, CommandOf(args).value)
        else Failed(SyntaxError)
  {
    hide ReadLineInt, ReadBulk, ReadBulks, LineNumber, ItemBytes, LineBytes, IsItem, VerbOf, CommandOf, ArgsFrame, ParseFrame, WireBytes, VerbAlone;
    var buf := WireBytes(w) + z;
    var args := Texts(w.items);
    WireRead(w, z);
    Framed(buf);
    if VerbAlone(VerbOf(args[0])).None? && !VerbOf(args[0]).VUnknown? {
      ArgsExactly(buf, ReadBulk(buf, ReadLineInt(buf, 0, STAR).next).next, args[0], |args| - 1);
      assert [args[0]] + args[1..] == args;
    }
  }

  /** The bytes of a written frame that means a command are taken for that command. */
  lemma WireParses(w: Wire, c: Command, z: Bytes)
    requires Means(w, c)
    ensures ParseFrame(WireBytes(w) + z) == Complete(|WireBytes(w)|, c)
  {
    hide ReadLineInt, ReadBulk, ReadBulks, LineNumber, ItemBytes, LineBytes, IsItem, VerbOf, CommandOf, ArgsFrame, ParseFrame, VerbAlone;
    var buf := WireBytes(w) + z;
    var args := Texts(w.items);
    WireRead(w, z);
    Framed(buf);
    if |args| == 1 {
      assert ItemsBytes(w.items[1..]) == [];
    }
    if VerbAlone(VerbOf(args[0])).None? {
      KnownVerb(args, c);
      ArgsExactly(buf, ReadBulk(buf, ReadLineInt(buf, 0, STAR).next).next, args[0], |args| - 1);
      assert [args[0]] + args[1..] == args;
    }
  }

  lemma KnownVerb(args: seq<Bytes>, c: Command)
    requires CommandOf(args) == Some(c)
    ensures !VerbOf(args[0]).VUnknown?
  {
    hide VerbOf;
  }

  lemma Assembled(buf: Bytes, i: nat, j: nat, n: nat, w: Wire)
    requires i <= j <= n <= |buf| && w.items != []
    requires buf[0..i] == LineBytes(STAR, w.line, w.bare)
    requires buf[i..j] == ItemBytes(w.items[0]) && buf[j..n] == ItemsBytes(w.items[1..])
    ensures |WireBytes(w)| == n && WireBytes(w) <= buf
  {
    hide LineBytes, ItemBytes;
    assert buf[..n] == buf[0..i] + (buf[i..j] + buf[j..n]);
  }

  /** A command needs a header and a verb. */
  lemma HasVerb(buf: Bytes)
    requires buf != [] && buf[0] == STAR && ParseFrame(buf).Complete?
    ensures
      var h := ReadLineInt(buf, 0, STAR);
      h.Got? && 1 <= h.value <= 1024 && ReadBulk(buf, h.next).Got?
  {
    hide ReadLineInt, ReadBulk, ArgsFrame;
  }

  /** The arguments behind the verb of a command. */
  lemma RestWritten(buf: Bytes, pos: nat, verb: Bytes, argc: nat, n: nat, c: Command) returns (rest: seq<Item>)
    requires pos <= |buf| && argc <= 1023
    requires ArgsFrame(buf, pos, verb, argc) == Complete(n, c)
    ensures pos <= n <= |buf| && AllItems(rest) && buf[pos..n] == ItemsBytes(rest)
    ensures Meaning(argc + 1, [verb] + Texts(rest)) == Some(c)
  {
    hide ReadBulks, VerbOf, CommandOf, IsItem, ItemBytes;
    if VerbAlone(VerbOf(verb)).Some? {
      rest := [];
      assert [verb] + Texts(rest) == [verb];
    } else {
      assert !VerbOf(verb).VUnknown?;
      ArgsExactly(buf, pos, verb, argc);
      hide ArgsFrame, VerbAlone;
      rest := ItemsWritten(buf, pos, argc);
    }
  }

  lemma ItemsCons(x: Item, rest: seq<Item>)
    requires IsItem(x) && AllItems(rest)
    ensures
      var xs := [x] + rest;
      AllItems(xs) && Texts(xs) == [x.data] + Texts(rest) && xs[0] == x && xs[1..] == rest
  {
    hide IsItem;
  }

  /** Whatever is taken for a command was written as a frame that means it. */
  lemma WireWritten(buf: Bytes, n: nat, c: Command) returns (w: Wire)
    requires buf != [] && buf[0] == STAR && ParseFrame(buf) == Complete(n, c)
    ensures Means(w, c) && |WireBytes(w)| == n && WireBytes(w) <= buf
  {
    hide ReadLineInt, ReadBulk, LineNumber, ItemBytes, LineBytes, IsItem, VerbOf, ArgsFrame, VerbAlone, ParseFrame, Meaning, WireBytes, ItemsBytes, AllItems, Texts;
    HasVerb(buf);
    Framed(buf);
    var h := ReadLineInt(buf, 0, STAR);
    var v := ReadBulk(buf, h.next);
    var line, bare := LineWritten(buf, 0, STAR);
    var x := ItemWritten(buf, h.next);
    var rest := RestWritten(buf, v.next, v.value, h.value - 1, n, c);
    ItemsCons(x, rest);
    w := Wire(line, bare, [x] + rest);
    Assembled(buf, h.next, v.next, n, w);
  }

  /** The parser takes `n` bytes for the command `c` if and only if the buffer starts with a frame
      of `n` bytes that means `c`. */
  lemma FrameExactly(buf: Bytes, n: nat, c: Command)
    requires buf != [] && buf[0] == STAR
    ensures ParseFrame(buf) == Complete(n, c) <==>
      exists w: Wire :: Means(w, c) && |WireBytes(w)| == n && WireBytes(w) <= buf
  {
    hide ParseFrame, Means, WireBytes;
    if ParseFrame(buf) == Complete(n, c) {
      var w := WireWritten(buf, n, c);
    }
    if w: Wire :| Means(w, c) && |WireBytes(w)| == n && WireBytes(w) <= buf {
      WireParses(w, c, buf[n..]);
      assert WireBytes(w) + buf[n..] == buf;
    }
  }

  /** Anything less asks for more bytes. */
  lemma WireWaits(w: Wire, c: Command, part: Bytes)
    requires Means(w, c) && part < WireBytes(w)
    ensures ParseFrame(part) == Incomplete
  {
    hide ParseFrame, Means, WireBytes;
    WireParses(w, c, []);
    assert WireBytes(w) + [] == WireBytes(w);
    if ParseFrame(part) != Incomplete {
      FrameStable(part, WireBytes(w));
    }
  }

  // ---- broken frames ------------------------------------------------------------------------

  /** A header line that is no number, a negative one or one above 1024, is a syntax error. */
  lemma BadHeader(line: Bytes, bare: bool, z: Bytes)
    requires LF !in line && CR !in line
    requires LineNumber(line).None? || LineNumber(line).value < 0 || LineNumber(line).value > 1024
    ensures ParseFrame(LineBytes(STAR, line, bare) + z) == Failed(SyntaxError)
  {
    hide LineNumber, ReadLineInt;
    LineRead([], STAR, line, bare, z);
    var buf := LineBytes(STAR, line, bare) + z;
    assert [] + LineBytes(STAR, line, bare) + z == buf;
    assert buf[0] == STAR;
  }

  /** Bytes at which no string can begin: another mark, or a whole line that is no number. */
  ghost predicate NoString(z: Bytes) {
    z != [] && (z[0] != DOLLAR || exists line, bare, z' :: LF !in line && CR !in line && LineNumber(line).None? && z == LineBytes(DOLLAR, line, bare) + z')
  }

  lemma NoStringBad(a: Bytes, z: Bytes)
    requires NoString(z)
    ensures ReadBulk(a + z, |a|) == Bad
  {
    hide LineNumber, LineBytes, Find;
    assert (a + z)[|a|] == z[0];
    if z[0] == DOLLAR {
      hide ReadLineInt;
      var line, bare, z' :| LF !in line && CR !in line && LineNumber(line).None? && z == LineBytes(DOLLAR, line, bare) + z';
      LineRead(a, DOLLAR, line, bare, z');
      assert a + LineBytes(DOLLAR, line, bare) + z' == a + z;
    }
  }

  lemma {:induction false} BrokenBulks(a: Bytes, xs: seq<Item>, z: Bytes, k: nat)
    requires AllItems(xs) && |xs| < k && NoString(z)
    ensures ReadBulks(a + ItemsBytes(xs) + z, |a|, k) == Bad
  {
    hide ReadBulk, ItemBytes, IsItem, NoString;
    var buf := a + ItemsBytes(xs) + z;
    ItemsRead(a, xs, z);
    var p := |a| + |ItemsBytes(xs)|;
    NoStringBad(a + ItemsBytes(xs), z);
    assert ReadBulks(buf, p, k - |xs|) == Bad;
    BulksSplit(buf, |a|, |xs|, k - |xs|);
  }

  /** A frame that breaks off at something that is no string is a syntax error, unless its verb
      alone has already decided. */
  lemma BrokenFrame(w: Wire, z: Bytes)
    requires AllItems(w.items) && NoString(z)
    requires LineNumber(w.line).Some? && |w.items| < LineNumber(w.line).value <= 1024
    requires w.items != [] ==> VerbAlone(VerbOf(w.items[0].data)).None? && !VerbOf(w.items[0].data).VUnknown?
    ensures ParseFrame(WireBytes(w) + z) == Failed(SyntaxError)
  {
    hide ReadLineInt, ReadBulk, ReadBulks, LineNumber, ItemBytes, LineBytes, IsItem, VerbOf, ArgsFrame, VerbAlone, NoString;
    var buf := WireBytes(w) + z;
    var count := LineNumber(w.line).value;
    if w.items == [] {
      BrokenVerb(w, z);
    } else {
      WireRead(w, z);
      Framed(buf);
      var h, v := LineBytes(STAR, w.line, w.bare), ItemBytes(w.items[0]);
      ArgsExactly(buf, |h| + |v|, w.items[0].data, count - 1);
      BrokenBulks(h + v, w.items[1..], z, count - 1);
      assert buf == (h + v) + ItemsBytes(w.items[1..]) + z;
    }
  }

  lemma BrokenVerb(w: Wire, z: Bytes)
    requires w.items == [] && NoString(z) && LineNumber(w.line).Some? && 0 < LineNumber(w.line).value <= 1024
    ensures ParseFrame(WireBytes(w) + z) == Failed(SyntaxError)
  {
    hide ReadLineInt, ReadBulk, LineNumber, NoString;
    var h := LineBytes(STAR, w.line, w.bare);
    var buf := WireBytes(w) + z;
    NumberText(w.line);
    LineRead([], STAR, w.line, w.bare, z);
    assert WireBytes(w) == h;
    assert [] + h + z == buf && h + z == buf;
    NoStringBad(h, z);
    assert buf[0] == STAR;
  }
}
