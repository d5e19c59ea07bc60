/** Replies and their wire form. The decoder is a reference reader of RESP2 replies: sections
    "Simple strings", "Errors", "Integers", "Bulk strings" and "Arrays" of the Redis
    serialization protocol specification. */
module Response {
  import opened Bytes

  datatype ResponseError =
    | UnknownCommand(cmd: Bytes)
    | SyntaxError(msg: Bytes)
    | TypeError(msg: Bytes)
    | NotFound(key: Bytes)
    | InternalError(msg: Bytes)
  {
    function Text(): Bytes {
      match this
      case UnknownCommand(t) => t
      case SyntaxError(t) => t
      case TypeError(t) => t
      case NotFound(t) => t
      case InternalError(t) => t
    }
  }

  datatype Response =
    | Pong
    | Ok
    | Value(data: Option<Bytes>)
    | Integer(n: int)
    | Error(error: ResponseError)
    | Array(items: seq<Option<Bytes>>)

  // "+PONG", "+OK", "$-1" and the five error prefixes, as bytes.
  const PONG_LINE: Bytes := [43, 80, 79, 78, 71]
  const OK_LINE: Bytes := [43, 79, 75]
  const NIL_LINE: Bytes := [36, 45, 49]
  const ERR_UNKNOWN: Bytes := [45, 69, 82, 82, 32, 117, 110, 107, 110, 111, 119, 110, 32, 99, 111, 109, 109, 97, 110, 100, 32, 39]
  const ERR_SYNTAX: Bytes := [45, 69, 82, 82, 32, 115, 121, 110, 116, 97, 120, 58, 32]
  const ERR_TYPE: Bytes := [45, 69, 82, 82, 32, 116, 121, 112, 101, 58, 32]
  const ERR_NOT_FOUND: Bytes := [45, 69, 82, 82, 32, 110, 111, 116, 32, 102, 111, 117, 110, 100, 58, 32]
  const ERR_INTERNAL: Bytes := [45, 69, 82, 82, 32, 105, 110, 116, 101, 114, 110, 97, 108, 58, 32]
  const QUOTE: byte := 39

  // ---- writing ------------------------------------------------------------------

  function ErrorLine(e: ResponseError): Bytes {
    match e
    case UnknownCommand(t) => ERR_UNKNOWN + t + [QUOTE]
    case SyntaxError(t) => ERR_SYNTAX + t
    case TypeError(t) => ERR_TYPE + t
    case NotFound(t) => ERR_NOT_FOUND + t
    case InternalError(t) => ERR_INTERNAL + t
  }

  function BulkBytes(item: Option<Bytes>): Bytes {
    match item
    case None => NIL_LINE + CRLF
    case Some(d) => ([36] + Itoa(|d|) + CRLF) + (d + CRLF)
  }

  function ItemBytes(items: seq<Option<Bytes>>): Bytes {
    if items == [] then [] else BulkBytes(items[0]) + ItemBytes(items[1..])
  }

  /** The reply on the wire. Only plain values depend on the mode. */
  function Encoded(r: Response, resp: bool): Bytes {
    match r
    case Pong => PONG_LINE + CRLF
    case Ok => OK_LINE + CRLF
    case Value(Some(d)) => if resp then BulkBytes(Some(d)) else [43] + d + CRLF
    case Value(None) => NIL_LINE + CRLF
    case Integer(n) => [58] + ItoaInt(n) + CRLF
    case Error(e) => ErrorLine(e) + CRLF
    case Array(items) => ([42] + Itoa(|items|) + CRLF) + ItemBytes(items)
  }

  lemma {:induction false} ItemBytesSnoc(items: seq<Option<Bytes>>, x: Option<Bytes>)
    ensures ItemBytes(items + [x]) == ItemBytes(items) + BulkBytes(x)
    decreases |items|
  {
    hide BulkBytes;
    if items == [] {
      assert [] + [x] == [x] && [x][1..] == [];
    } else {
      assert (items + [x])[1..] == items[1..] + [x];
      ItemBytesSnoc(items[1..], x);
    }
  }

  /** `write_to_impl`. */
  method WriteTo(r: Response, buf: Bytes, resp: bool) returns (out: Bytes)
    ensures out == buf + Encoded(r, resp)
  {
    hide Itoa, ItoaInt;
    match r {
      case Pong => out := buf + (PONG_LINE + CRLF);
      case Ok => out := buf + (OK_LINE + CRLF);
      case Value(Some(d)) => out := WriteValue(d, buf, resp);
      case Value(None) => out := buf + (NIL_LINE + CRLF);
      case Integer(n) => out := WriteNumber(n, buf, resp);
      case Error(e) => out := buf + (ErrorLine(e) + CRLF);
      case Array(items) => out := WriteArray(items, buf, resp);
    }
  }

  method WriteBulk(item: Option<Bytes>, buf: Bytes) returns (out: Bytes)
    ensures out == buf + BulkBytes(item)
  {
    match item {
      case None => out := buf + (NIL_LINE + CRLF);
      case Some(d) =>
        out := buf + [36];
        out := out + Itoa(|d|);
        out := out + CRLF;
        out := out + d;
        out := out + CRLF;
        assert out == buf + (([36] + Itoa(|d|) + CRLF) + (d + CRLF));
    }
  }

  method WriteNumber(n: int, buf: Bytes, ghost resp: bool) returns (out: Bytes)
    ensures out == buf + Encoded(Integer(n), resp)
  {
    hide ItoaInt;
    out := buf + [58];
    out := out + ItoaInt(n);
    out := out + CRLF;
    assert out == buf + ([58] + ItoaInt(n) + CRLF);
  }

  method WriteValue(d: Bytes, buf: Bytes, resp: bool) returns (out: Bytes)
    ensures out == buf + Encoded(Value(Some(d)), resp)
  {
    if resp {
      out := WriteBulk(Some(d), buf);
    } else {
      out := buf + [43];
      out := out + d;
      out := out + CRLF;
      assert out == buf + ([43] + d + CRLF);
    }
  }

  /** The item loop. */
  method WriteArray(items: seq<Option<Bytes>>, buf: Bytes, ghost resp: bool) returns (out: Bytes)
    ensures out == buf + Encoded(Array(items), resp)
  {
    hide BulkBytes, Itoa;
    var head := [42] + Itoa(|items|) + CRLF;
    out := buf + head;
    for i := 0 to |items|
      invariant out == (buf + head) + ItemBytes(items[..i])
    {
      assert items[..i + 1] == items[..i] + [items[i]];
      ItemBytesSnoc(items[..i], items[i]);
      out := WriteBulk(items[i], out);
    }
    assert items[..|items|] == items;
    assert (buf + head) + ItemBytes(items) == buf + (head + ItemBytes(items));
  }

  // ---- reading -------------------------------------------------------------------

  datatype Line = Line(text: Bytes, rest: Bytes) | NoLine

  /** Up to the first CR, which an LF must follow. */
  function ReadLine(s: Bytes): (l: Line)
    ensures l.Line? ==> |l.rest| < |s|
  {
    var i := Find(s, 0, CR);
    if i + 1 < |s| && s[i + 1] == LF then Line(s[..i], s[i + 2..]) else NoLine
  }

  datatype Bulk = Bulk(item: Option<Bytes>, rest: Bytes) | NoBulk

  function ReadBulk(s: Bytes): (b: Bulk)
    ensures b.Bulk? ==> |b.rest| < |s|
  {
    match ReadLine(s)
    case NoLine => NoBulk
    case Line(text, rest) =>
      if text == NIL_LINE then Bulk(None, rest)
      else if text == [] || text[0] != 36 then NoBulk
      else
        match ParseU64(text[1..])
        case None => NoBulk
        case Some(n) =>
          if n + 2 <= |rest| && rest[n] == CR && rest[n + 1] == LF then Bulk(Some(rest[..n]), rest[n + 2..]) else NoBulk
  }

  datatype Items = Items(items: seq<Option<Bytes>>, rest: Bytes) | NoItems

  function ReadItems(s: Bytes, n: nat): (r: Items)
    ensures r.Items? ==> |r.rest| <= |s|
    decreases n
  {
    if n == 0 then Items([], s)
    else
      match ReadBulk(s)
      case NoBulk => NoItems
      case Bulk(x, rest) =>
        match ReadItems(rest, n - 1)
        case NoItems => NoItems
        case Items(xs, rest') => Items([x] + xs, rest')
  }

  predicate StartsWith(s: Bytes, p: Bytes) {
    |p| <= |s| && s[..|p|] == p
  }

  function ReadError(text: Bytes): Option<ResponseError> {
    if StartsWith(text, ERR_UNKNOWN) && |text| > |ERR_UNKNOWN| && text[|text| - 1] == QUOTE
    then Some(UnknownCommand(text[|ERR_UNKNOWN|..|text| - 1]))
    else if StartsWith(text, ERR_SYNTAX) then Some(SyntaxError(text[|ERR_SYNTAX|..]))
    else if StartsWith(text, ERR_TYPE) then Some(TypeError(text[|ERR_TYPE|..]))
    else if StartsWith(text, ERR_NOT_FOUND) then Some(NotFound(text[|ERR_NOT_FOUND|..]))
    else if StartsWith(text, ERR_INTERNAL) then Some(InternalError(text[|ERR_INTERNAL|..]))
    else None
  }

  datatype Decoded = Decoded(reply: Response, rest: Bytes) | Garbled

  /** The first reply of `s`. */
  function Decode(s: Bytes): (d: Decoded)
    ensures d.Decoded? ==> |d.rest| < |s|
  {
    match ReadLine(s)
    case NoLine => Garbled
    case Line(text, rest) =>
      if text == [] then Garbled
      else if text == PONG_LINE then Decoded(Pong, rest)
      else if text == OK_LINE then Decoded(Ok, rest)
      else if text[0] == 58 then
        (match ParseI64(text[1..])
         case None => Garbled
         case Some(n) => Decoded(Integer(n), rest))
      else if text[0] == 45 then
        (match ReadError(text)
         case None => Garbled
         case Some(e) => Decoded(Error(e), rest))
      else if text[0] == 36 then
        (match ReadBulk(s)
         case NoBulk => Garbled
         case Bulk(x, rest') => Decoded(Value(x), rest'))
      else if text[0] == 42 then
        (match ParseU64(text[1..])
         case None => Garbled
         case Some(n) =>
           match ReadItems(rest, n)
           case NoItems => Garbled
           case Items(xs, rest') => Decoded(Array(xs), rest'))
      else Garbled
  }

  /** All replies of `s`, if it is a sequence of whole replies. */
  function DecodeAll(s: Bytes): Option<seq<Response>>
    decreases |s|
  {
    if s == [] then Some([])
    else
      match Decode(s)
      case Garbled => None
      case Decoded(r, rest) =>
        match DecodeAll(rest)
        case None => None
        case Some(rs) => Some([r] + rs)
  }

  // ---- reading what was written -----------------------------------------------------

  /** Lengths and integers that the source's types can hold. */
  predicate Representable(r: Response) {
    match r
    case Value(Some(d)) => |d| < TWO64
    case Integer(n) => -TWO63 <= n < TWO63
    case Array(items) => |items| < TWO64 && ItemsFit(items)
    case _ => true
  }

  predicate ItemsFit(items: seq<Option<Bytes>>) {
    forall i :: 0 <= i < |items| && items[i].Some? ==> |items[i].value| < TWO64
  }

  /** The text of an error reply has no CR. */
  predicate OneLine(r: Response) {
    r.Error? ==> CR !in r.error.Text()
  }

  lemma LineRead(text: Bytes, z: Bytes)
    requires CR !in text
    ensures ReadLine(text + CRLF + z) == Line(text, z)
  {
    var s := text + CRLF + z;
    assert s[|text|] == CR && s[|text| + 1] == LF;
    var i := Find(s, 0, CR);
    assert forall j :: 0 <= j < |text| ==> s[j] == text[j];
    assert i == |text|;
    assert s[..i] == text && s[i + 2..] == z;
  }

  lemma NumberLine(mark: byte, n: nat)
    requires mark != CR && n < TWO64
    ensures
      var text := [mark] + Itoa(n);
      CR !in text && text[0] == mark && text[1..] == Itoa(n) && ParseU64(text[1..]) == Some(n) && 48 <= text[1] <= 57
  {
    ParseU64Itoa(n);
    hide ParseU64;
    var text := [mark] + Itoa(n);
    assert IsDigit(Itoa(n)[0]);
    assert text[1..] == Itoa(n);
  }

  lemma BulkRead(item: Option<Bytes>, z: Bytes)
    requires item.Some? ==> |item.value| < TWO64
    ensures ReadBulk(BulkBytes(item) + z) == Bulk(item, z)
    ensures ReadLine(BulkBytes(item) + z).Line?
    ensures
      var text := ReadLine(BulkBytes(item) + z).text;
      text != [] && text[0] == 36
  {
    hide ReadLine, ParseU64, Itoa;
    match item {
      case None => LineRead(NIL_LINE, z);
      case Some(d) =>
        NumberLine(36, |d|);
        var text := [36] + Itoa(|d|);
        var rest := d + CRLF + z;
        assert BulkBytes(item) + z == text + CRLF + rest;
        LineRead(text, rest);
        assert rest[|d|] == CR && rest[|d| + 1] == LF && rest[..|d|] == d && rest[|d| + 2..] == z;
    }
  }

  lemma {:induction false} ItemsRead(items: seq<Option<Bytes>>, z: Bytes)
    requires ItemsFit(items)
    ensures ReadItems(ItemBytes(items) + z, |items|) == Items(items, z)
    decreases |items|
  {
    hide ReadBulk, BulkBytes, ReadLine;
    if items == [] {
      assert [] + z == z;
    } else {
      var rest := ItemBytes(items[1..]) + z;
      assert ItemBytes(items) + z == BulkBytes(items[0]) + rest;
      BulkRead(items[0], rest);
      ItemsRead(items[1..], z);
    }
  }

  /** The five prefixes differ in their sixth byte. */
  function Sixth(e: ResponseError): byte {
    match e
    case UnknownCommand(_) => 117
    case SyntaxError(_) => 115
    case TypeError(_) => 116
    case NotFound(_) => 110
    case InternalError(_) => 105
  }

  lemma ErrorSixth(e: ResponseError)
    ensures |ErrorLine(e)| > 5 && ErrorLine(e)[0] == 45 && ErrorLine(e)[5] == Sixth(e)
  {
  }

  lemma OtherPrefix(text: Bytes, p: Bytes)
    requires |text| > 5 && |p| > 5 && text[5] != p[5]
    ensures !StartsWith(text, p)
  {
    if |p| <= |text| {
      assert text[..|p|][5] == text[5];
    }
  }

  lemma AfterPrefix(p: Bytes, t: Bytes)
    ensures StartsWith(p + t, p) && (p + t)[|p|..] == t
  {
    assert (p + t)[..|p|] == p;
  }

  lemma ErrorRead(e: ResponseError)
    ensures ReadError(ErrorLine(e)) == Some(e)
  {
    hide StartsWith;
    var text := ErrorLine(e);
    ErrorSixth(e);
    if !e.UnknownCommand? { OtherPrefix(text, ERR_UNKNOWN); }
    if !e.SyntaxError? { OtherPrefix(text, ERR_SYNTAX); }
    if !e.TypeError? { OtherPrefix(text, ERR_TYPE); }
    if !e.NotFound? { OtherPrefix(text, ERR_NOT_FOUND); }
    hide ERR_UNKNOWN, ERR_SYNTAX, ERR_TYPE, ERR_NOT_FOUND, ERR_INTERNAL;
    match e {
      case UnknownCommand(t) =>
        AfterPrefix(ERR_UNKNOWN, t + [QUOTE]);
        assert text == ERR_UNKNOWN + (t + [QUOTE]) && text[|ERR_UNKNOWN|..|text| - 1] == t;
      case SyntaxError(t) => AfterPrefix(ERR_SYNTAX, t);
      case TypeError(t) => AfterPrefix(ERR_TYPE, t);
      case NotFound(t) => AfterPrefix(ERR_NOT_FOUND, t);
      case InternalError(t) => AfterPrefix(ERR_INTERNAL, t);
    }
  }

  lemma ErrorCr(e: ResponseError)
    ensures CR in ErrorLine(e) <==> CR in e.Text()
  {
    match e {
      case UnknownCommand(t) =>
        CrAfter(ERR_UNKNOWN, t);
        CrAfter([QUOTE], []);
        assert CR in (ERR_UNKNOWN + t) + [QUOTE] <==> CR in ERR_UNKNOWN + t || CR in [QUOTE];
      case SyntaxError(t) => CrAfter(ERR_SYNTAX, t);
      case TypeError(t) => CrAfter(ERR_TYPE, t);
      case NotFound(t) => CrAfter(ERR_NOT_FOUND, t);
      case InternalError(t) => CrAfter(ERR_INTERNAL, t);
    }
  }

  lemma CrAfter(p: Bytes, t: Bytes)
    requires CR !in p
    ensures CR in p + t <==> CR in t
  {
  }

  /** An error line is read as exactly one error. */
  lemma ErrorLineOf(text: Bytes)
    ensures ReadError(text).Some? ==> ErrorLine(ReadError(text).value) == text
  {
    hide ERR_UNKNOWN, ERR_SYNTAX, ERR_TYPE, ERR_NOT_FOUND, ERR_INTERNAL;
    Rejoin(text, ERR_SYNTAX);
    Rejoin(text, ERR_TYPE);
    Rejoin(text, ERR_NOT_FOUND);
    Rejoin(text, ERR_INTERNAL);
    if StartsWith(text, ERR_UNKNOWN) && |text| > |ERR_UNKNOWN| && text[|text| - 1] == QUOTE {
      assert text == ERR_UNKNOWN + text[|ERR_UNKNOWN|..|text| - 1] + [QUOTE];
    }
  }

  lemma Rejoin(text: Bytes, p: Bytes)
    ensures StartsWith(text, p) ==> p + text[|p|..] == text
  {
  }

  lemma SimpleDecodes(r: Response, z: Bytes)
    requires r.Pong? || r.Ok?
    ensures Decode(Encoded(r, true) + z) == Decoded(r, z)
  {
    hide ReadLine;
    LineRead(PONG_LINE, z);
    LineRead(OK_LINE, z);
  }

  lemma NoCrInInt(n: int)
    ensures CR !in ItoaInt(n)
  {
    hide Itoa, DecVal;
  }

  lemma IntegerDecodes(n: int, z: Bytes)
    requires -TWO63 <= n < TWO63
    ensures Decode(Encoded(Integer(n), true) + z) == Decoded(Integer(n), z)
  {
    hide ReadLine, ParseI64, ItoaInt;
    var text := [58] + ItoaInt(n);
    NoCrInInt(n);
    ParseI64ItoaInt(n);
    LineRead(text, z);
    assert text[1..] == ItoaInt(n) && text[0] == 58;
    assert Encoded(Integer(n), true) + z == text + CRLF + z;
  }

  lemma ValueDecodes(item: Option<Bytes>, z: Bytes)
    requires item.Some? ==> |item.value| < TWO64
    ensures Decode(Encoded(Value(item), true) + z) == Decoded(Value(item), z)
  {
    assert Encoded(Value(item), true) == BulkBytes(item);
    hide ReadLine, ReadBulk, BulkBytes, Encoded;
    BulkRead(item, z);
  }

  lemma ArrayDecodes(items: seq<Option<Bytes>>, z: Bytes)
    requires |items| < TWO64 && ItemsFit(items)
    ensures Decode(Encoded(Array(items), true) + z) == Decoded(Array(items), z)
  {
    hide ReadLine, ReadItems, ItemBytes, ParseU64, Itoa;
    var text := [42] + Itoa(|items|);
    NumberLine(42, |items|);
    var rest := ItemBytes(items) + z;
    LineRead(text, rest);
    assert Encoded(Array(items), true) + z == text + CRLF + rest;
    ItemsRead(items, z);
  }

  /** An error decodes to itself exactly when its text is one line. */
  lemma ErrorDecodes(e: ResponseError, z: Bytes)
    ensures Decode(Encoded(Error(e), true) + z) == Decoded(Error(e), z) <==> CR !in e.Text()
  {
    hide ReadLine, ReadError, ReadBulk, ReadItems, ErrorLine;
    var text := ErrorLine(e);
    ErrorSixth(e);
    ErrorRead(e);
    ErrorCr(e);
    if CR !in text {
      LineRead(text, z);
    } else {
      var s := text + CRLF + z;
      ShortLine(s);
      if ReadLine(s).Line? {
        ErrorLineOf(ReadLine(s).text);
      }
    }
  }

  lemma ShortLine(s: Bytes)
    ensures ReadLine(s).Line? ==> CR !in ReadLine(s).text
  {
  }

  /** A reply in RESP mode, whatever follows it, decodes to itself exactly when it is not an
      error whose text holds a CR. */
  lemma ReplyDecodes(r: Response, z: Bytes)
    requires Representable(r)
    ensures Decode(Encoded(r, true) + z) == Decoded(r, z) <==> OneLine(r)
  {
    hide Decode, Encoded;
    match r {
      case Pong => SimpleDecodes(r, z);
      case Ok => SimpleDecodes(r, z);
      case Value(item) => ValueDecodes(item, z);
      case Integer(n) => IntegerDecodes(n, z);
      case Error(e) => ErrorDecodes(e, z);
      case Array(items) => ArrayDecodes(items, z);
    }
  }

  function EncodedAll(rs: seq<Response>): Bytes {
    if rs == [] then [] else Encoded(rs[0], true) + EncodedAll(rs[1..])
  }

  /** Any list of replies with one-line errors decodes back to that list. */
  lemma {:induction false} RepliesDecode(rs: seq<Response>)
    requires forall i :: 0 <= i < |rs| ==> Representable(rs[i]) && OneLine(rs[i])
    ensures DecodeAll(EncodedAll(rs)) == Some(rs)
    decreases |rs|
  {
    hide Decode, Encoded, Representable, OneLine;
    if rs != [] {
      ReplyDecodes(rs[0], EncodedAll(rs[1..]));
      RepliesDecode(rs[1..]);
      DecodeAllStep(EncodedAll(rs));
      assert [rs[0]] + rs[1..] == rs;
    }
  }

  lemma DecodeAllStep(s: Bytes)
    requires Decode(s).Decoded? && DecodeAll(Decode(s).rest).Some?
    ensures s != [] && DecodeAll(s) == Some([Decode(s).reply] + DecodeAll(Decode(s).rest).value)
  {
    hide ReadLine;
  }
}
