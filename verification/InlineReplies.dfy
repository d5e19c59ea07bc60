/** A reference reader of inline replies, and exactly which replies it reads back. Values come as
    simple strings, and a failed SET or INCR as one of two fixed texts. */
module InlineReplies {
  import opened Bytes
  import opened Domain
  import opened Response
  import opened Dispatcher

  datatype InlineReply = Plain(response: Response) | ShortInternal | ShortType

  datatype InlineDecoded = Got(reply: InlineReply, rest: Bytes) | Unread

  /** The first reply of `s`: a simple string that is not PONG or OK is a value. */
  function DecodeInline(s: Bytes): (d: InlineDecoded)
    ensures d.Got? ==> |d.rest| < |s|
  {
    match ReadLine(s)
    case NoLine => Unread
    case Line(text, rest) =>
      if text == SHORT_INTERNAL then Got(ShortInternal, rest)
      else if text == SHORT_TYPE then Got(ShortType, rest)
      else if text != [] && text[0] == 43 && text != PONG_LINE && text != OK_LINE then Got(Plain(Value(Some(text[1..]))), rest)
      else
        match Decode(s)
        case Garbled => Unread
        case Decoded(r, rest') => Got(Plain(r), rest')
  }

  function DecodeAllInline(s: Bytes): Option<seq<InlineReply>>
    decreases |s|
  {
    if s == [] then Some([])
    else
      match DecodeInline(s)
      case Unread => None
      case Got(r, rest) =>
        match DecodeAllInline(rest)
        case None => None
        case Some(rs) => Some([r] + rs)
  }

  /** What the client of `dispatch_to_buffer` is told. */
  function Answer(c: Command, r: Response): InlineReply {
    if r.Error? && c.Set? then ShortInternal else if r.Error? && c.Incr? then ShortType else Plain(r)
  }

  /** The replies that the inline protocol carries unharmed. */
  predicate Clear(r: Response) {
    match r
    case Value(Some(d)) => CR !in d && d != PONG_LINE[1..] && d != OK_LINE[1..]
    case Error(e) => CR !in e.Text()
    case _ => true
  }

  lemma InlineValue(d: Bytes, z: Bytes)
    ensures
      var v := Value(Some(d));
      DecodeInline(Encoded(v, false) + z) == Got(Plain(v), z) <==> Clear(v)
  {
    hide ReadLine, Decode;
    var text := [43] + d;
    var s := Encoded(Value(Some(d)), false) + z;
    assert s == text + CRLF + z;
    assert text[1..] == d && text[0] == 43;
    if CR !in d {
      LineRead(text, z);
      NotSpecial(d);
      if d == PONG_LINE[1..] || d == OK_LINE[1..] {
        SimpleStrings(s, text, z);
      }
    } else {
      ShortLine(s);
      ValueLine(s, d);
    }
  }

  lemma NotSpecial(d: Bytes)
    ensures
      var text := [43] + d;
      && text != SHORT_INTERNAL && text != SHORT_TYPE
      && (text == PONG_LINE <==> d == PONG_LINE[1..]) && (text == OK_LINE <==> d == OK_LINE[1..])
  {
    var text := [43] + d;
    assert text[0] == 43 && text[1..] == d;
    assert PONG_LINE == [43] + PONG_LINE[1..] && OK_LINE == [43] + OK_LINE[1..];
  }

  lemma SimpleStrings(s: Bytes, text: Bytes, z: Bytes)
    requires ReadLine(s) == Line(text, z) && (text == PONG_LINE || text == OK_LINE)
    ensures Decode(s) == Decoded(if text == PONG_LINE then Pong else Ok, z)
  {
    hide ReadLine;
  }

  /** A line that is read as a value holds no CR. */
  lemma ValueLine(s: Bytes, d: Bytes)
    requires CR in d && |s| > 0 && s[0] == 43 && (ReadLine(s).Line? ==> CR !in ReadLine(s).text)
    ensures !(exists z: Bytes :: DecodeInline(s) == Got(Plain(Value(Some(d))), z))
  {
    LineStart(s);
    hide ReadLine, ReadBulk, ReadItems, ReadError;
  }

  lemma LineStart(s: Bytes)
    requires |s| > 0 && s[0] != CR
    ensures ReadLine(s).Line? ==> ReadLine(s).text != [] && ReadLine(s).text[0] == s[0]
  {
  }

  /** Replies whose bytes do not depend on the mode. */
  lemma SameInBothModes(r: Response)
    requires !(r.Value? && r.data.Some?)
    ensures Encoded(r, false) == Encoded(r, true)
  {
  }

  lemma OtherStart(r: Response, z: Bytes)
    requires !(r.Value? && r.data.Some?) && !r.Pong? && !r.Ok?
    ensures
      var s := Encoded(r, true) + z;
      s != [] && s[0] != 43 && s[0] != CR && (!r.Error? ==> s[0] != 45)
  {
    hide Itoa, ItoaInt, ItemBytes;
    if r.Error? {
      ErrorSixth(r.error);
    }
  }

  lemma ShortTexts()
    ensures SHORT_INTERNAL[0] == 45 && SHORT_TYPE[0] == 45 && |SHORT_INTERNAL| == 13 && |SHORT_TYPE| == 9
    ensures CR !in SHORT_INTERNAL && CR !in SHORT_TYPE && SHORT_INTERNAL != SHORT_TYPE
  {
  }

  /** An error that is spelled out is no fixed text: a colon or a blank stands where that ends. */
  lemma ErrorIsNotShort(e: ResponseError, z: Bytes)
    ensures
      var l := ReadLine(ErrorLine(e) + CRLF + z);
      l.Line? ==> l.text != SHORT_INTERNAL && l.text != SHORT_TYPE
  {
    var s := ErrorLine(e) + CRLF + z;
    var l := ReadLine(s);
    if l.Line? {
      var i := |l.text|;
      assert s[i] == CR && l.text == s[..i];
      ErrorHead(e, z);
      assert i == 13 ==> forall j :: 0 <= j < 13 ==> l.text[j] == s[j];
      assert i == 9 ==> forall j :: 0 <= j < 9 ==> l.text[j] == s[j];
    }
  }

  lemma ErrorHead(e: ResponseError, z: Bytes)
    ensures
      var s := ErrorLine(e) + CRLF + z;
      && |s| > 12 && s[5] == Sixth(e)
      && (e.InternalError? ==> |s| > 13 && s[13] != CR) && (e.TypeError? ==> s[9] != CR)
  {
  }

  lemma InlineOther(r: Response, z: Bytes)
    requires Representable(r) && !(r.Value? && r.data.Some?)
    ensures DecodeInline(Encoded(r, false) + z) == Got(Plain(r), z) <==> Clear(r)
  {
    var s := Encoded(r, true) + z;
    SameInBothModes(r);
    ReplyDecodes(r, z);
    if r.Pong? || r.Ok? {
      LineRead(PONG_LINE, z);
      LineRead(OK_LINE, z);
      hide ReadLine, Decode;
    } else {
      OtherStart(r, z);
      LineStart(s);
      ShortTexts();
      if r.Error? {
        ErrorIsNotShort(r.error, z);
      }
      hide ReadLine, Decode, Encoded, SHORT_INTERNAL, SHORT_TYPE, PONG_LINE, OK_LINE;
    }
  }

  /** The exact condition for every reply of the inline loop. */
  lemma InlineReplyDecodes(c: Command, r: Response, z: Bytes)
    requires Representable(r)
    ensures DecodeInline(BufferBytes(c, r, false) + z) == Got(Answer(c, r), z) <==> Reworded(c, r) || Clear(r)
  {
    if Reworded(c, r) {
      LineRead(SHORT_INTERNAL, z);
      LineRead(SHORT_TYPE, z);
      ShortTexts();
      hide ReadLine, Decode;
    } else {
      hide DecodeInline, Encoded;
      if r.Value? && r.data.Some? {
        InlineValue(r.data.value, z);
      } else {
        InlineOther(r, z);
      }
    }
  }
}
