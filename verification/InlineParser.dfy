/** The two parsers of the inline protocol, `parse_bytes` and `parse_inline_borrowed`.
    Each is a method that trims and splits slices as the source does and is proved
    against a reference that only looks at the words of the line. */
module InlineParser {
  import opened Bytes
  import opened Domain

  // ---- words ----------------------------------------------------------------

  predicate IsSpace(b: byte) {
    b == 32 || b == 9 || b == 13 || b == 10
  }

  function TrimStart(s: Bytes): (r: Bytes)
    ensures |r| <= |s|
    ensures r != [] ==> !IsSpace(r[0])
  {
    if s != [] && IsSpace(s[0]) then TrimStart(s[1..]) else s
  }

  function TrimEnd(s: Bytes): (r: Bytes)
    ensures |r| <= |s|
    ensures r <= s
    ensures r != [] ==> !IsSpace(r[|r| - 1])
  {
    if s != [] && IsSpace(s[|s| - 1]) then TrimEnd(s[..|s| - 1]) else s
  }

  function Trimmed(s: Bytes): Bytes {
    TrimEnd(TrimStart(s))
  }

  /** The length of the first word of `s`. */
  function WordEnd(s: Bytes): (i: nat)
    ensures i <= |s|
    ensures forall j :: 0 <= j < i ==> !IsSpace(s[j])
    ensures i < |s| ==> IsSpace(s[i])
  {
    if s == [] || IsSpace(s[0]) then 0 else 1 + WordEnd(s[1..])
  }

  function SplitFirstWord(s: Bytes): (r: (Bytes, Bytes))
    ensures r.0 + r.1 == s
  {
    (s[..WordEnd(s)], s[WordEnd(s)..])
  }

  /** The maximal runs of non-blank bytes, in order. */
  function Words(s: Bytes): (ws: seq<Bytes>)
    decreases |s|
  {
    var t := TrimStart(s);
    if t == [] then [] else [t[..WordEnd(t)]] + Words(t[WordEnd(t)..])
  }

  lemma TrimStartIdempotent(s: Bytes)
    ensures TrimStart(TrimStart(s)) == TrimStart(s)
  {
  }

  lemma {:induction false} WordEndSnoc(t: Bytes, c: byte)
    requires IsSpace(c)
    ensures WordEnd(t + [c]) == WordEnd(t)
  {
    if t != [] && !IsSpace(t[0]) {
      assert (t + [c])[1..] == t[1..] + [c];
      WordEndSnoc(t[1..], c);
    }
  }

  lemma {:induction false} TrimStartSnoc(s: Bytes, c: byte)
    requires IsSpace(c)
    ensures TrimStart(s) == [] ==> TrimStart(s + [c]) == []
    ensures TrimStart(s) != [] ==> TrimStart(s + [c]) == TrimStart(s) + [c]
  {
    if s == [] {
      assert s + [c] == [c];
      assert TrimStart([c][1..]) == [];
    } else if IsSpace(s[0]) {
      assert (s + [c])[1..] == s[1..] + [c];
      TrimStartSnoc(s[1..], c);
    }
  }

  /** A trailing blank adds no word. */
  lemma {:induction false} WordsSnocSpace(s: Bytes, c: byte)
    requires IsSpace(c)
    ensures Words(s + [c]) == Words(s)
    decreases |s|
  {
    TrimStartSnoc(s, c);
    var t := TrimStart(s);
    if t != [] {
      WordEndSnoc(t, c);
      var i := WordEnd(t);
      assert (t + [c])[..i] == t[..i];
      assert (t + [c])[i..] == t[i..] + [c];
      WordsSnocSpace(t[i..], c);
    }
  }

  lemma {:induction false} WordsTrimEnd(s: Bytes)
    ensures Words(TrimEnd(s)) == Words(s)
  {
    if s != [] && IsSpace(s[|s| - 1]) {
      WordsTrimEnd(s[..|s| - 1]);
      WordsSnocSpace(s[..|s| - 1], s[|s| - 1]);
      assert s == s[..|s| - 1] + [s[|s| - 1]];
    }
  }

  /** Trimming keeps the words, and only a line without words trims to nothing. */
  lemma TrimmedWords(s: Bytes)
    ensures Words(Trimmed(s)) == Words(s)
    ensures Trimmed(s) == [] <==> Words(s) == []
    ensures Trimmed(s) != [] ==> !IsSpace(Trimmed(s)[0])
    ensures |Trimmed(s)| <= |s|
  {
    var t := TrimStart(s);
    TrimStartIdempotent(s);
    assert Words(t) == Words(s);
    WordsTrimEnd(t);
    if Words(s) == [] {
      assert t == [];
    }
  }

  lemma SplitWords(t: Bytes)
    requires t != [] && !IsSpace(t[0])
    ensures SplitFirstWord(t).0 != []
    ensures Words(t) == [SplitFirstWord(t).0] + Words(SplitFirstWord(t).1)
    ensures |SplitFirstWord(t).1| < |t|
  {
  }

  /** A trimmed line with one word is that word; with more it still holds a blank. */
  lemma TrimmedSingle(s: Bytes)
    requires Words(s) != []
    ensures |Words(s)| == 1 ==> Trimmed(s) == Words(s)[0]
    ensures |Words(s)| > 1 ==> exists i :: 0 <= i < |Trimmed(s)| && IsSpace(Trimmed(s)[i])
  {
    TrimmedWords(s);
    var t := Trimmed(s);
    SplitWords(t);
    var i := WordEnd(t);
    if i < |t| {
      var rest := t[i..];
      BlankTail(rest);
      assert rest[|rest| - 1] == t[|t| - 1];
      assert IsSpace(t[i]);
    } else {
      assert t[i..] == [];
    }
  }

  lemma BlankTail(s: Bytes)
    ensures Words(s) == [] && s != [] ==> IsSpace(s[|s| - 1])
  {
    if Words(s) == [] {
      AllBlank(s);
    }
  }

  lemma {:induction false} WordEndFull(w: Bytes)
    requires forall i :: 0 <= i < |w| ==> !IsSpace(w[i])
    ensures WordEnd(w) == |w|
  {
    if w != [] {
      WordEndFull(w[1..]);
    }
  }

  lemma WordsOfWord(w: Bytes)
    requires w != [] && forall i :: 0 <= i < |w| ==> !IsSpace(w[i])
    ensures Words(w) == [w]
  {
    WordEndFull(w);
    assert w[..|w|] == w && w[|w|..] == [];
  }

  lemma {:induction false} AllBlank(s: Bytes)
    requires TrimStart(s) == []
    ensures forall i :: 0 <= i < |s| ==> IsSpace(s[i])
  {
    if s != [] {
      AllBlank(s[1..]);
      forall i | 0 <= i < |s|
        ensures IsSpace(s[i])
      {
        if i > 0 {
          assert s[i] == s[1..][i - 1];
        }
      }
    }
  }

  // ---- reference meanings ---------------------------------------------------

  datatype Parsed = Ok(command: Command) | Err(error: ParseError)

  function OneKey(args: seq<Bytes>, mk: Key -> Command): Parsed {
    if |args| == 1 then Ok(mk(args[0])) else Err(SyntaxError)
  }

  /** The meaning of a line for `parse_bytes`, read off its words. */
  function LineCommand(ws: seq<Bytes>): Parsed {
    if ws == [] then Err(EmptyCommand) else
    var args := ws[1..];
    match VerbOf(ws[0])
    case VGet => OneKey(args, k => Get(k))
    case VDel => OneKey(args, k => Del(k))
    case VIncr => OneKey(args, k => Incr(k))
    case VExists => OneKey(args, k => Exists(k))
    case VTtl => OneKey(args, k => Ttl(k))
    case VSet => SetLine(args)
    case VPing => Ok(Ping)
    case VInfo => Ok(Info)
    case VDbSize => Ok(DbSize)
    case VExpire => ExpireLine(args)
    case VFlushDb => if args == [] then Ok(FlushDb) else Err(SyntaxError)
    case VKeys => if args == [] then Ok(Keys) else Err(SyntaxError)
    case VMget => KeyLine(args)
    case VMset => PairLine(args)
    case VUnknown => Err(UnknownCommand(ws[0]))
  }

  function SetLine(args: seq<Bytes>): Parsed {
    if |args| == 2 then Ok(Set(args[0], args[1], None))
    else if |args| == 4 && TtlOption(args[2], args[3]).Some? then
      Ok(Set(args[0], args[1], TtlOption(args[2], args[3])))
    else Err(SyntaxError)
  }

  function ExpireLine(args: seq<Bytes>): Parsed {
    if |args| == 2 && ParseU64(args[1]).Some? then Ok(Expire(args[0], ParseU64(args[1]).value))
    else Err(SyntaxError)
  }

  /** `parse_u64_ascii` accepts digits only and wraps past 64 bits. */
  function AsciiU64(s: Bytes): (r: Option<nat>) {
    if s == [] || !AllDigits(s) then None else Some(WrapU64(DecVal(s)))
  }

  /** The meaning of a line for `parse_inline_borrowed`. */
  function BorrowedCommand(ws: seq<Bytes>): Parsed {
    if ws == [] then Err(EmptyCommand) else
    match VerbOf(ws[0])
    case VSet => BorrowedSet(ws[1..])
    case VExpire => BorrowedExpire(ws[1..])
    case _ => LineCommand(ws)
  }

  function BorrowedSet(args: seq<Bytes>): Parsed {
    if |args| == 2 then Ok(Set(args[0], args[1], None))
    else if |args| == 3 then
      Ok(Set(args[0], args[1],
             match AsciiU64(args[2]) { case Some(n) => Some(n * SECOND) case None => None }))
    else Err(SyntaxError)
  }

  function BorrowedExpire(args: seq<Bytes>): Parsed {
    if |args| == 2 && AsciiU64(args[1]).Some? then Ok(Expire(args[0], AsciiU64(args[1]).value))
    else Err(SyntaxError)
  }

  /** A line without words is no command to either parser. */
  lemma NoWords()
    ensures Words([]) == [] && LineCommand([]) == Err(EmptyCommand) && BorrowedCommand([]) == Err(EmptyCommand)
  {
  }

  function ToFrame(p: Parsed, consumed: nat): Frame {
    match p
    case Ok(c) => Complete(consumed, c)
    case Err(EmptyCommand) => Skip(consumed)
    case Err(e) => Failed(e)
  }

  function ParseInline(buf: Bytes): (f: Frame)
    ensures f.Complete? ==> 1 <= f.consumed <= |buf|
    ensures f.Skip? ==> 1 <= f.consumed <= |buf|
    ensures f != Failed(EmptyCommand)
    ensures f.Failed? ==> LF in buf
  {
    var nl := Find(buf, 0, LF);
    if nl == |buf| then Incomplete else ToFrame(LineCommand(Words(buf[..nl])), nl + 1)
  }

  /** `memchr2`: the first CR or LF, or the length. */
  function LineBreak(buf: Bytes): (p: nat)
    ensures p <= |buf|
    ensures forall i :: 0 <= i < p ==> buf[i] != CR && buf[i] != LF
    ensures p < |buf| ==> buf[p] == CR || buf[p] == LF
  {
    var a, b := Find(buf, 0, CR), Find(buf, 0, LF);
    if a < b then a else b
  }

  function BorrowedFrame(buf: Bytes): (f: Frame) {
    var p := LineBreak(buf);
    if p + 1 < |buf| && buf[p] == CR && buf[p + 1] == LF then
      ToFrame(BorrowedCommand(Words(buf[..p])), p + 2)
    else if p < |buf| && buf[p] == LF then
      // a bare LF loses the byte before it, and at the front claims a byte too many
      var q := if p == 0 then 0 else p - 1;
      ToFrame(BorrowedCommand(Words(buf[..q])), q + 2)
    else Incomplete
  }

  // ---- the slice-level parsers ----------------------------------------------

  lemma {:induction false} TrimStartIs(s: Bytes, i: nat)
    requires i <= |s| && forall k :: 0 <= k < i ==> IsSpace(s[k])
    requires i == |s| || !IsSpace(s[i])
    ensures TrimStart(s) == s[i..]
  {
    if i > 0 {
      assert s[1..][i - 1..] == s[i..];
      TrimStartIs(s[1..], i - 1);
    }
  }

  lemma {:induction false} TrimEndIs(s: Bytes, j: nat)
    requires j <= |s| && forall k :: j <= k < |s| ==> IsSpace(s[k])
    requires j == 0 || !IsSpace(s[j - 1])
    ensures TrimEnd(s) == s[..j]
  {
    if j < |s| {
      assert s[..|s| - 1][..j] == s[..j];
      TrimEndIs(s[..|s| - 1], j);
    }
  }

  /** `trim`. */
  method Trim(buf: Bytes) returns (r: Bytes)
    ensures r == Trimmed(buf)
  {
    hide TrimStart, TrimEnd;
    var start: nat, end: nat := 0, |buf|;
    while start < end && IsSpace(buf[start])
      invariant start <= end == |buf|
      invariant forall k :: 0 <= k < start ==> IsSpace(buf[k])
    {
      start := start + 1;
    }
    TrimStartIs(buf, start);
    while end > start && IsSpace(buf[end - 1])
      invariant start <= end <= |buf|
      invariant forall k :: end <= k < |buf| ==> IsSpace(buf[k])
    {
      end := end - 1;
    }
    ghost var t := buf[start..];
    assert forall k :: end - start <= k < |t| ==> t[k] == buf[start + k];
    TrimEndIs(t, end - start);
    assert t[..end - start] == buf[start..end];
    r := buf[start..end];
  }

  /** `trim` followed by `split_first_word`: the next word and what follows it. */
  method NextWord(s: Bytes) returns (w: Option<(Bytes, Bytes)>)
    ensures w.None? <==> Words(s) == []
    ensures w.Some? ==> Words(s) == [w.value.0] + Words(w.value.1) && |w.value.1| < |s|
  {
    TrimmedWords(s);
    var t := Trim(s);
    if t == [] {
      return None;
    }
    SplitWords(t);
    w := Some(SplitFirstWord(t));
  }

  /** `trim(..).is_empty()`. */
  method IsBlank(s: Bytes) returns (b: bool)
    ensures b <==> Words(s) == []
  {
    TrimmedWords(s);
    var t := Trim(s);
    b := t == [];
  }

  /** The shape shared by GET, DEL, INCR, EXISTS and TTL in both parsers. */
  method ParseSingleKey(rest: Bytes, mk: Key -> Command) returns (r: Parsed)
    ensures r == OneKey(Words(rest), mk)
  {
    var w := NextWord(rest);
    if w.None? {
      return Err(SyntaxError);
    }
    var blank := IsBlank(w.value.1);
    if !blank {
      return Err(SyntaxError);
    }
    return Ok(mk(w.value.0));
  }

  /** `parse_ttl_option`. */
  method ParseTtlOption(input: Bytes) returns (r: Option<Duration>)
    requires Words(input) != []
    ensures r == if |Words(input)| == 2 then TtlOption(Words(input)[0], Words(input)[1]) else None
  {
    var opt := NextWord(input);
    var num := NextWord(opt.value.1);
    if num.None? {
      // no number: the source parses the empty string and fails
      return None;
    }
    var blank := IsBlank(num.value.1);
    if !blank {
      return None;
    }
    return TtlOption(opt.value.0, num.value.0);
  }

  /** `parse_set_bytes`. */
  method ParseSetBytes(rest: Bytes) returns (r: Parsed)
    ensures r == SetLine(Words(rest))
  {
    var key := NextWord(rest);
    if key.None? {
      return Err(SyntaxError);
    }
    var value := NextWord(key.value.1);
    if value.None? {
      return Err(SyntaxError);
    }
    var blank := IsBlank(value.value.1);
    if blank {
      return Ok(Set(key.value.0, value.value.0, None));
    }
    var ttl := ParseTtlOption(value.value.1);
    if ttl.None? {
      return Err(SyntaxError);
    }
    return Ok(Set(key.value.0, value.value.0, ttl));
  }

  /** `parse_expire_bytes`. */
  method ParseExpireBytes(rest: Bytes) returns (r: Parsed)
    ensures r == ExpireLine(Words(rest))
  {
    var key := NextWord(rest);
    if key.None? {
      return Err(SyntaxError);
    }
    var secs := NextWord(key.value.1);
    if secs.None? {
      return Err(SyntaxError);
    }
    var blank := IsBlank(secs.value.1);
    if !blank {
      return Err(SyntaxError);
    }
    var seconds := ParseU64(secs.value.0);
    if seconds.None? {
      return Err(SyntaxError);
    }
    return Ok(Expire(key.value.0, seconds.value));
  }

  function KeyLine(args: seq<Bytes>): Parsed {
    if |args| >= 1 then Ok(Mget(args)) else Err(SyntaxError)
  }

  function PairLine(args: seq<Bytes>): Parsed {
    if |args| >= 2 && |args| % 2 == 0 then Ok(Mset(PairUp(args))) else Err(SyntaxError)
  }

  /** The key loop of `parse_mget_bytes`, which trims at the head of each round. */
  method ParseMgetBytes(rest: Bytes) returns (r: Parsed)
    ensures r == KeyLine(Words(rest))
  {
    var keys: seq<Bytes> := [];
    var remaining := rest;
    while remaining != []
      invariant keys + Words(remaining) == Words(rest)
      decreases |remaining|
    {
      var w := NextWord(remaining);
      if w.None? {
        break;
      }
      keys := keys + [w.value.0];
      remaining := w.value.1;
    }
    assert Words(remaining) == [] && keys + [] == keys;
    if keys == [] {
      return Err(SyntaxError);
    }
    return Ok(Mget(keys));
  }

  /** The key loop of `parse_mget_borrowed`, which trims at the tail of each round. */
  method ParseMgetBorrowed(rest: Bytes) returns (r: Parsed)
    ensures r == KeyLine(Words(rest))
  {
    TrimmedWords(rest);
    var remaining := Trim(rest);
    var keys: seq<Bytes> := [];
    while remaining != []
      invariant remaining != [] ==> !IsSpace(remaining[0])
      invariant keys + Words(remaining) == Words(rest)
      decreases |remaining|
    {
      SplitWords(remaining);
      var (key, trailing) := SplitFirstWord(remaining);
      keys := keys + [key];
      TrimmedWords(trailing);
      remaining := Trim(trailing);
    }
    assert keys + [] == keys;
    if keys == [] {
      return Err(SyntaxError);
    }
    return Ok(Mget(keys));
  }

  lemma PairsCollected(pairs: seq<(Bytes, Bytes)>, ws: seq<Bytes>)
    requires Flatten(pairs) == ws
    ensures |ws| % 2 == 0 && PairUp(ws) == pairs
  {
  }

  lemma FlattenSnoc(pairs: seq<(Bytes, Bytes)>, k: Bytes, v: Bytes)
    ensures Flatten(pairs + [(k, v)]) == Flatten(pairs) + [k, v]
  {
  }

  lemma SeqAssoc(a: seq<Bytes>, k: Bytes, v: Bytes, b: seq<Bytes>)
    ensures a + ([k] + ([v] + b)) == (a + [k, v]) + b
  {
  }

  /** The pair loop of both MSET parsers; they differ only in where a round trims. */
  method ParseMsetBytes(rest: Bytes) returns (r: Parsed)
    ensures r == PairLine(Words(rest))
  {
    var pairs: seq<(Bytes, Bytes)> := [];
    var remaining := rest;
    while true
      invariant Flatten(pairs) + Words(remaining) == Words(rest)
      decreases |remaining|
    {
      var key := NextWord(remaining);
      if key.None? {
        break;
      }
      var value := NextWord(key.value.1);
      if value.None? {
        assert |Words(rest)| == 2 * |pairs| + 1;
        return Err(SyntaxError);
      }
      FlattenSnoc(pairs, key.value.0, value.value.0);
      SeqAssoc(Flatten(pairs), key.value.0, value.value.0, Words(value.value.1));
      pairs := pairs + [(key.value.0, value.value.0)];
      remaining := value.value.1;
    }
    assert Flatten(pairs) + [] == Flatten(pairs);
    PairsCollected(pairs, Words(rest));
    if pairs == [] {
      return Err(SyntaxError);
    }
    return Ok(Mset(pairs));
  }

  /** `parse_bytes`. */
  method ParseBytes(input: Bytes) returns (r: Parsed)
    ensures r == LineCommand(Words(input))
  {
    var w := NextWord(input);
    if w.None? {
      return Err(EmptyCommand);
    }
    var (verb, rest) := w.value;
    assert Words(input)[1..] == Words(rest);
    match VerbOf(verb) {
      case VSet => r := ParseSetBytes(rest);
      case VExpire => r := ParseExpireBytes(rest);
      case VMget => r := ParseMgetBytes(rest);
      case VMset => r := ParseMsetBytes(rest);
      case _ => r := ParseSimple(verb, rest);
    }
  }

  /** The commands that both parsers treat alike: one key, or no argument. */
  method ParseSimple(verb: Bytes, rest: Bytes) returns (r: Parsed)
    requires VerbOf(verb) !in {VSet, VExpire, VMget, VMset}
    ensures r == LineCommand([verb] + Words(rest))
  {
    assert ([verb] + Words(rest))[1..] == Words(rest);
    match VerbOf(verb) {
      case VGet => r := ParseSingleKey(rest, k => Get(k));
      case VDel => r := ParseSingleKey(rest, k => Del(k));
      case VIncr => r := ParseSingleKey(rest, k => Incr(k));
      case VExists => r := ParseSingleKey(rest, k => Exists(k));
      case VTtl => r := ParseSingleKey(rest, k => Ttl(k));
      case VPing => r := Ok(Ping);
      case VInfo => r := Ok(Info);
      case VDbSize => r := Ok(DbSize);
      case VFlushDb =>
        var blank := IsBlank(rest);
        r := if blank then Ok(FlushDb) else Err(SyntaxError);
      case VKeys =>
        var blank := IsBlank(rest);
        r := if blank then Ok(Keys) else Err(SyntaxError);
      case VUnknown => r := Err(UnknownCommand(verb));
    }
  }

  /** `try_parse_frame_inline`. */
  method TryParseFrameInline(buf: Bytes) returns (f: Frame)
    ensures f == ParseInline(buf)
  {
    var pos := Find(buf, 0, LF);
    if pos == |buf| {
      return Incomplete;
    }
    var p := ParseBytes(buf[..pos]);
    f := ToFrame(p, pos + 1);
  }

  /** `parse_u64_ascii`: the accumulator wraps at every digit. */
  method ParseU64Ascii(buf: Bytes) returns (r: Option<nat>)
    ensures r == AsciiU64(buf)
  {
    if buf == [] {
      return None;
    }
    var n: int := 0;
    for i := 0 to |buf|
      invariant AllDigits(buf[..i])
      invariant n == WrapU64(DecVal(buf[..i]))
    {
      if !IsDigit(buf[i]) {
        return None;
      }
      assert buf[..i + 1][..i] == buf[..i];
      DigitWraps(DecVal(buf[..i]), buf[i] - 48);
      n := WrapU64(n * 10 + (buf[i] - 48));
    }
    assert buf[..|buf|] == buf;
    return Some(n);
  }

  /** Wrapping after each digit or once at the end gives the same number. */
  lemma DigitWraps(v: int, d: int)
    requires v >= 0
    ensures WrapU64(WrapU64(v) * 10 + d) == WrapU64(v * 10 + d)
    ensures WrapI64(WrapI64(v) * 10 + d) == WrapI64(v * 10 + d)
  {
    var k := v / TWO64;
    assert v == WrapU64(v) + k * TWO64;
    WrapShift(WrapU64(v) * 10 + d, 10 * k);
    assert v * 10 + d == WrapU64(v) * 10 + d + (10 * k) * TWO64;
    var j := (v + TWO63) / TWO64;
    assert v == WrapI64(v) + j * TWO64;
    WrapShift(WrapI64(v) * 10 + d, 10 * j);
    assert v * 10 + d == WrapI64(v) * 10 + d + (10 * j) * TWO64;
  }

  /** `parse_set_borrowed`. */
  method ParseSetBorrowed(rest: Bytes) returns (r: Parsed)
    ensures r == BorrowedSet(Words(rest))
  {
    var key := NextWord(rest);
    if key.None? {
      return Err(SyntaxError);
    }
    var value := NextWord(key.value.1);
    if value.None? {
      return Err(SyntaxError);
    }
    var ttlWord := NextWord(value.value.1);
    if ttlWord.None? {
      return Ok(Set(key.value.0, value.value.0, None));
    }
    var blank := IsBlank(ttlWord.value.1);
    if !blank {
      return Err(SyntaxError);
    }
    var n := ParseU64Ascii(ttlWord.value.0);
    var ttl := match n { case Some(v) => Some(v * SECOND) case None => None };
    return Ok(Set(key.value.0, value.value.0, ttl));
  }

  /** `parse_expire_borrowed`: all that follows the key must be digits. */
  method ParseExpireBorrowed(rest: Bytes) returns (r: Parsed)
    ensures r == BorrowedExpire(Words(rest))
  {
    var key := NextWord(rest);
    if key.None? {
      return Err(SyntaxError);
    }
    TrimmedWords(key.value.1);
    var secondsPart := Trim(key.value.1);
    if secondsPart == [] {
      return Err(SyntaxError);
    }
    TrimmedSingle(key.value.1);
    var seconds := ParseU64Ascii(secondsPart);
    if seconds.None? {
      return Err(SyntaxError);
    }
    return Ok(Expire(key.value.0, seconds.value));
  }

  /** `parse_inline_borrowed`; its slices and `to_owned`'s copies are the same byte strings. */
  method ParseInlineBorrowed(buf: Bytes) returns (f: Frame)
    ensures f == BorrowedFrame(buf)
  {
    var p := LineBreak(buf);
    var pos := 0;
    if p + 1 < |buf| && buf[p] == CR && buf[p + 1] == LF {
      pos := p;
    } else if p < |buf| && buf[p] == LF {
      pos := if p == 0 then 0 else p - 1;
    } else {
      return Incomplete;
    }
    var r := ParseBorrowedLine(buf[..pos]);
    f := ToFrame(r, pos + 2);
  }

  method ParseBorrowedLine(line: Bytes) returns (r: Parsed)
    ensures r == BorrowedCommand(Words(line))
  {
    var w := NextWord(line);
    if w.None? {
      return Err(EmptyCommand);
    }
    var (verb, rest) := w.value;
    assert Words(line)[1..] == Words(rest);
    match VerbOf(verb) {
      case VSet => r := ParseSetBorrowed(rest);
      case VExpire => r := ParseExpireBorrowed(rest);
      case VMget => r := ParseMgetBorrowed(rest);
      case VMset => r := ParseMsetBytes(rest);
      case _ => r := ParseSimple(verb, rest);
    }
  }
}
