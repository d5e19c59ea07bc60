/** Chunking independence for the inline protocol: lines ended by CR LF. A line ended by a bare
    LF is outside it, and a lone LF at the front of the buffer is the one that panics. */
module InlineSession {
  import opened Bytes
  import opened Domain
  import opened InlineParser
  import RespParser
  import opened Session

  predicate NoEnds(t: Bytes) {
    CR !in t && LF !in t
  }

  /** The text of a line: no line end inside, and not the mark of an array. */
  predicate IsText(t: Bytes) {
    NoEnds(t) && (t != [] ==> t[0] != RespParser.STAR)
  }

  predicate AllText(lines: seq<Bytes>) {
    forall i :: 0 <= i < |lines| ==> IsText(lines[i])
  }

  /** What the session does on a line. */
  function LineEvents(t: Bytes): seq<Event> {
    match BorrowedCommand(Words(t))
    case Ok(c) => [Run(c)]
    case Err(EmptyCommand) => []
    case Err(SyntaxError) => [BadSyntax]
    case Err(UnknownCommand(_)) => [BadCommand]
  }

  function AllEvents(lines: seq<Bytes>): seq<Event> {
    if lines == [] then [] else LineEvents(lines[0]) + AllEvents(lines[1..])
  }

  /** The bytes a client sends. */
  function Lines(lines: seq<Bytes>): Bytes {
    if lines == [] then [] else (lines[0] + CRLF) + Lines(lines[1..])
  }

  lemma LineBreakAt(t: Bytes, z: Bytes)
    requires NoEnds(t)
    ensures LineBreak(t + CRLF + z) == |t| && Find(t + CRLF + z, 0, LF) == |t| + 1
  {
    var buf := t + CRLF + z;
    assert buf[|t|] == CR && buf[|t| + 1] == LF;
    assert forall i :: 0 <= i < |t| ==> buf[i] == t[i];
    var p := LineBreak(buf);
    assert p <= |t|;
  }

  lemma LineFrame(t: Bytes, z: Bytes)
    requires NoEnds(t)
    ensures BorrowedFrame(t + CRLF + z) == ToFrame(BorrowedCommand(Words(t)), |t| + 2)
    ensures SkipToNewline(t + CRLF + z) == z && (t + CRLF + z)[|t| + 2..] == z
  {
    hide BorrowedCommand, Words, Find, LineBreak;
    var buf := t + CRLF + z;
    LineBreakAt(t, z);
    assert buf[|t|] == CR && buf[|t| + 1] == LF;
    assert buf[..|t|] == t;
  }

  /** A whole line at the front is served and gone. */
  lemma DrainLine(t: Bytes, z: Bytes)
    requires NoEnds(t)
    ensures
      var d := DrainInline(z);
      DrainInline(t + CRLF + z) == Drained(LineEvents(t) + d.events, d.rest, d.panicked)
  {
    hide BorrowedFrame, SkipToNewline, BorrowedCommand, Words, NoEnds;
    LineFrame(t, z);
    assert [] + DrainInline(z).events == DrainInline(z).events;
  }

  /** Part of a line waits. */
  lemma DrainPart(t: Bytes, part: Bytes)
    requires NoEnds(t) && part < t + CRLF
    ensures DrainInline(part) == Drained([], part, false)
  {
    assert forall i :: 0 <= i < |part| ==> part[i] == (t + CRLF)[i];
    var p := LineBreak(part);
    assert p < |part| ==> p == |t| && |part| == |t| + 1;
    assert BorrowedFrame(part) == Incomplete;
  }

  lemma DrainEmpty()
    ensures DrainInline([]) == Drained([], [], false)
  {
    assert BorrowedFrame([]) == Incomplete;
  }

  predicate PartOf(lines: seq<Bytes>, rest: Bytes) {
    if lines == [] then rest == [] else rest < lines[0] + CRLF
  }

  /** The buffer is `m` whole lines and a part of the next. */
  predicate Holds(lines: seq<Bytes>, buf: Bytes, m: nat, rest: Bytes) {
    m <= |lines| && buf == Lines(lines[..m]) + rest && PartOf(lines[m..], rest)
  }

  lemma {:induction false} DrainLines(lines: seq<Bytes>, buf: Bytes) returns (m: nat, rest: Bytes)
    requires AllText(lines) && buf <= Lines(lines)
    ensures Holds(lines, buf, m, rest)
    ensures DrainInline(buf) == Drained(AllEvents(lines[..m]), rest, false)
    decreases |lines|
  {
    hide DrainInline, LineEvents;
    if lines == [] {
      m, rest := 0, [];
      DrainEmpty();
      assert lines[..0] == [];
    } else {
      var first := lines[0] + CRLF;
      PrefixOfSum(buf, first, Lines(lines[1..]));
      if |buf| < |first| {
        m, rest := 0, buf;
        DrainPart(lines[0], buf);
        assert lines[..0] == [] && lines[0..] == lines;
        assert [] + buf == buf;
      } else {
        var tail := buf[|first|..];
        m, rest := DrainLines(lines[1..], tail);
        DrainLine(lines[0], tail);
        HoldsCons(lines, tail, m, rest);
        assert lines[..m + 1][1..] == lines[1..][..m];
        m := m + 1;
      }
    }
  }

  lemma HoldsCons(lines: seq<Bytes>, tail: Bytes, m: nat, rest: Bytes)
    requires lines != [] && Holds(lines[1..], tail, m, rest)
    ensures Holds(lines, lines[0] + CRLF + tail, m + 1, rest)
  {
    assert lines[..m + 1][1..] == lines[1..][..m] && lines[m + 1..] == lines[1..][m..];
    var first, mid := lines[0] + CRLF, Lines(lines[1..][..m]);
    assert first + (mid + rest) == (first + mid) + rest;
  }

  lemma LinesSplit(lines: seq<Bytes>, m: nat)
    requires m <= |lines|
    ensures Lines(lines) == Lines(lines[..m]) + Lines(lines[m..])
    ensures AllEvents(lines) == AllEvents(lines[..m]) + AllEvents(lines[m..])
  {
    hide Lines, AllEvents;
    BytesSplit(lines, m);
    EventsSplit(lines, m);
  }

  lemma {:induction false} BytesSplit(lines: seq<Bytes>, m: nat)
    requires m <= |lines|
    ensures Lines(lines) == Lines(lines[..m]) + Lines(lines[m..])
    decreases m
  {
    if m == 0 {
      assert lines[..0] == [] && lines[0..] == lines;
      assert [] + Lines(lines) == Lines(lines);
    } else {
      BytesSplit(lines[1..], m - 1);
      assert lines[..m][1..] == lines[1..][..m - 1] && lines[m..] == lines[1..][m - 1..];
    }
  }

  lemma {:induction false} EventsSplit(lines: seq<Bytes>, m: nat)
    requires m <= |lines|
    ensures AllEvents(lines) == AllEvents(lines[..m]) + AllEvents(lines[m..])
    decreases m
  {
    hide LineEvents;
    if m == 0 {
      assert lines[..0] == [] && lines[0..] == lines;
      assert [] + AllEvents(lines) == AllEvents(lines);
    } else {
      EventsSplit(lines[1..], m - 1);
      assert lines[..m][1..] == lines[1..][..m - 1] && lines[m..] == lines[1..][m - 1..];
    }
  }

  /** One read of an inline client. */
  lemma OnReadLines<E>(exec: Handler<E>, s: State<E>, lines: seq<Bytes>, chunk: Bytes) returns (m: nat, rest: Bytes)
    requires AllText(lines) && !s.closed && chunk != [] && s.readBuf + chunk <= Lines(lines)
    ensures Holds(lines, s.readBuf + chunk, m, rest)
    ensures
      var t := OnRead(exec, s, chunk);
      var (e, w) := ExecAll(exec, s.engine, AllEvents(lines[..m]));
      && (t.closed <==> |s.readBuf + chunk| > MAX_READ_BUF || |w| > MAX_WRITE_BUF)
      && (!t.closed ==> t == State(e, rest, s.sent + w, false))
  {
    hide ExecAll, DrainInline, Drain, Holds;
    var buf := s.readBuf + chunk;
    m, rest := DrainLines(lines, buf);
    FirstByte(lines, buf);
  }

  lemma FirstByte(lines: seq<Bytes>, buf: Bytes)
    requires AllText(lines) && buf != [] && buf <= Lines(lines)
    ensures buf[0] != RespParser.STAR
  {
    assert buf[0] == Lines(lines)[0];
    if lines[0] == [] {
      assert (lines[0] + CRLF)[0] == CR;
    } else {
      assert (lines[0] + CRLF)[0] == lines[0][0];
    }
  }

  /** What an open session has done once all lines have arrived. */
  predicate ServedLines<E(==)>(exec: Handler<E>, s: State<E>, lines: seq<Bytes>, end: State<E>) {
    var (e, w) := ExecAll(exec, s.engine, AllEvents(lines));
    end.closed || (end.readBuf == [] && end.engine == e && end.sent == s.sent + w)
  }

  lemma {:induction false} ServeLines<E>(exec: Handler<E>, s: State<E>, lines: seq<Bytes>, chunks: seq<Bytes>)
    requires AllText(lines) && !s.closed && (forall i :: 0 <= i < |chunks| ==> chunks[i] != [])
    requires s.readBuf + Concat(chunks) == Lines(lines) && PartOf(lines, s.readBuf)
    ensures ServedLines(exec, s, lines, Serve(exec, s, chunks))
    decreases |chunks|
  {
    hide OnRead, LineEvents, ExecAll, Lines, AllEvents, PartOf;
    if chunks == [] {
      assert s.readBuf + [] == s.readBuf;
      NothingLeft(exec, s, lines);
    } else {
      var c, t := chunks[0], OnRead(exec, s, chunks[0]);
      assert s.readBuf + Concat(chunks) == (s.readBuf + c) + Concat(chunks[1..]);
      var m, rest := OnReadLines(exec, s, lines, c);
      if t.closed {
        ClosedStays(exec, t, chunks[1..]);
      } else {
        LinesSplit(lines, m);
        TailOfStream(Lines(lines[..m]), rest, Concat(chunks[1..]), Lines(lines[m..]));
        ServeLines(exec, t, lines[m..], chunks[1..]);
        ServedJoin(exec, s, t, lines, m, Serve(exec, t, chunks[1..]));
      }
    }
  }

  lemma NothingLeft<E>(exec: Handler<E>, s: State<E>, lines: seq<Bytes>)
    requires PartOf(lines, s.readBuf) && s.readBuf == Lines(lines)
    ensures ServedLines(exec, s, lines, s)
  {
    assert s.sent + [] == s.sent;
  }

  lemma ServedJoin<E>(exec: Handler<E>, s: State<E>, t: State<E>, lines: seq<Bytes>, m: nat, end: State<E>)
    requires m <= |lines| && ServedLines(exec, t, lines[m..], end)
    requires
      var (e, w) := ExecAll(exec, s.engine, AllEvents(lines[..m]));
      t.engine == e && t.sent == s.sent + w
    ensures ServedLines(exec, s, lines, end)
  {
    hide ExecAll, AllEvents, Lines;
    LinesSplit(lines, m);
    ExecAllAppend(exec, s.engine, AllEvents(lines[..m]), AllEvents(lines[m..]));
    var (e1, w1) := ExecAll(exec, s.engine, AllEvents(lines[..m]));
    var (e2, w2) := ExecAll(exec, e1, AllEvents(lines[m..]));
    assert (s.sent + w1) + w2 == s.sent + (w1 + w2);
  }

  /** However the lines of an inline client, each ended by CR LF, are cut into reads, a session
      that no limit closed has answered exactly those lines, in order, and holds nothing back:
      valid and invalid ones, blank ones included. */
  lemma InlineChunking<E>(exec: Handler<E>, e: E, lines: seq<Bytes>, chunks: seq<Bytes>)
    requires AllText(lines) && (forall i :: 0 <= i < |chunks| ==> chunks[i] != [])
    requires Concat(chunks) == Lines(lines)
    ensures
      var s := Serve(exec, Opened(e), chunks);
      !s.closed ==> s.readBuf == [] && (s.engine, s.sent) == ExecAll(exec, e, AllEvents(lines))
  {
    hide Lines, Concat;
    assert [] + Concat(chunks) == Concat(chunks);
    StartsEmpty(lines);
    ServeLines(exec, Opened(e), lines, chunks);
    var (e', w) := ExecAll(exec, e, AllEvents(lines));
    assert [] + w == w;
  }

  lemma StartsEmpty(lines: seq<Bytes>)
    ensures PartOf(lines, [])
  {
    if lines != [] {
      assert [] <= lines[0] + CRLF && |lines[0] + CRLF| > 0;
    }
  }

  /** Only the limits close such a session: lines and replies within them are always served to
      the end, so no such client ever makes the loop panic. */
  lemma {:induction false} SmallLinesStayOpen<E>(exec: Handler<E>, s: State<E>, lines: seq<Bytes>, chunks: seq<Bytes>)
    requires AllText(lines) && !s.closed && (forall i :: 0 <= i < |chunks| ==> chunks[i] != [])
    requires s.readBuf + Concat(chunks) == Lines(lines) && PartOf(lines, s.readBuf)
    requires |Lines(lines)| <= MAX_READ_BUF && |ExecAll(exec, s.engine, AllEvents(lines)).1| <= MAX_WRITE_BUF
    ensures !Serve(exec, s, chunks).closed
    decreases |chunks|
  {
    hide OnRead, LineEvents, ExecAll, Lines, AllEvents, PartOf;
    if chunks != [] {
      var c, t := chunks[0], OnRead(exec, s, chunks[0]);
      assert s.readBuf + Concat(chunks) == (s.readBuf + c) + Concat(chunks[1..]);
      var m, rest := OnReadLines(exec, s, lines, c);
      LinesSplit(lines, m);
      ExecAllAppend(exec, s.engine, AllEvents(lines[..m]), AllEvents(lines[m..]));
      TailOfStream(Lines(lines[..m]), rest, Concat(chunks[1..]), Lines(lines[m..]));
      SmallLinesStayOpen(exec, t, lines[m..], chunks[1..]);
    }
  }

  /** The exception: a buffer that is a single LF makes the loop advance past its end. */
  lemma LoneLineFeedPanics()
    ensures DrainInline([LF]).panicked
  {
    hide BorrowedCommand;
    assert LineBreak([LF]) == 0;
    assert [LF][..0] == [] && Words([]) == [];
    NoWords();
  }
}
