/** The buffer loops of `handle_session_full`: network chunks become dispatched commands.
    The engine, the log and the metrics are behind `exec`, which answers one event. */
module Session {
  import opened Bytes
  import opened Domain
  import opened InlineParser
  import opened RespParser

  const MAX_READ_BUF: nat := 1_048_576
  const MAX_WRITE_BUF: nat := 1_048_576

  /** What a round of a loop hands over: a command, or an error reply to write. */
  datatype Event = Run(command: Command) | BadSyntax | BadCommand

  /** Executes an event on the engine and yields the bytes of the reply. */
  type Handler<!E> = (E, Event) -> (E, Bytes)

  datatype Drained = Drained(events: seq<Event>, rest: Bytes, panicked: bool)

  // ---- reference ------------------------------------------------------------

  function SkipToNewline(buf: Bytes): (r: Bytes)
    ensures buf != [] ==> |r| < |buf|
  {
    var nl := Find(buf, 0, LF);
    if nl < |buf| then buf[nl + 1..] else []
  }

  function Push(e: Event, d: Drained): Drained {
    d.(events := [e] + d.events)
  }

  /** The RESP loop. Every round stops or strictly shrinks the buffer. */
  function Drain(buf: Bytes): (d: Drained)
    decreases |buf|
  {
    match ParseFrame(buf)
    case Complete(n, c) => Push(Run(c), Drain(buf[n..]))
    case Skip(n) => Drain(buf[n..])
    case Incomplete => Drained([], buf, false)
    case Failed(SyntaxError) => Push(BadSyntax, Drain(SkipToNewline(buf)))
    case Failed(UnknownCommand(_)) => Push(BadCommand, Drain(SkipToNewline(buf)))
    case Failed(EmptyCommand) => Drained([], buf, false)
  }

  /** The inline loop; advancing past the end of the buffer panics. */
  function DrainInline(buf: Bytes): (d: Drained)
    decreases |buf|
  {
    match BorrowedFrame(buf)
    case Complete(n, c) =>
      if n > |buf| || n == 0 then Drained([], buf, true) else Push(Run(c), DrainInline(buf[n..]))
    case Skip(n) =>
      if n > |buf| || n == 0 then Drained([], buf, true) else DrainInline(buf[n..])
    case Incomplete => Drained([], buf, false)
    case Failed(SyntaxError) =>
      if buf == [] then Drained([], buf, false) else Push(BadSyntax, DrainInline(SkipToNewline(buf)))
    case Failed(UnknownCommand(_)) =>
      if buf == [] then Drained([], buf, false) else Push(BadCommand, DrainInline(SkipToNewline(buf)))
    case Failed(EmptyCommand) => Drained([], buf, false)
  }

  function ExecAll<E>(exec: Handler<E>, e: E, events: seq<Event>): (r: (E, Bytes))
    decreases |events|
  {
    if events == [] then (e, []) else
    var (e1, w1) := exec(e, events[0]);
    var (e2, w2) := ExecAll(exec, e1, events[1..]);
    (e2, w1 + w2)
  }

  datatype State<E> = State(engine: E, readBuf: Bytes, sent: Bytes, closed: bool)

  function Opened<E>(e: E): State<E> {
    State(e, [], [], false)
  }

  /** One turn of the outer loop: a read, the limits, the frames, the flush. */
  function OnRead<E>(exec: Handler<E>, s: State<E>, chunk: Bytes): State<E> {
    if s.closed || chunk == [] then s.(closed := true) else
    var buf := s.readBuf + chunk;
    if |buf| > MAX_READ_BUF then s.(readBuf := buf, closed := true) else
    var d := if buf[0] == STAR then Drain(buf) else DrainInline(buf);
    var (e, w) := ExecAll(exec, s.engine, d.events);
    if d.panicked || |w| > MAX_WRITE_BUF then State(e, d.rest, s.sent, true)
    else State(e, d.rest, s.sent + w, false)
  }

  function Serve<E>(exec: Handler<E>, s: State<E>, chunks: seq<Bytes>): State<E>
    decreases |chunks|
  {
    if chunks == [] then s else Serve(exec, OnRead(exec, s, chunks[0]), chunks[1..])
  }

  // ---- the loops ------------------------------------------------------------

  /** The RESP loop of `handle_session_full`. It terminates on every buffer. */
  method RespLoop<E>(exec: Handler<E>, e: E, start: Bytes) returns (engine: E, writeBuf: Bytes, readBuf: Bytes)
    ensures readBuf == Drain(start).rest
    ensures (engine, writeBuf) == ExecAll(exec, e, Drain(start).events)
  {
    hide ParseFrame, SkipToNewline;
    engine, writeBuf, readBuf := e, [], start;
    NilReply(exec, e, Drain(start).events);
    while true
      invariant Drain(start).rest == Drain(readBuf).rest
      invariant ExecAll(exec, e, Drain(start).events)
             == (ExecAll(exec, engine, Drain(readBuf).events).0,
                 writeBuf + ExecAll(exec, engine, Drain(readBuf).events).1)
      decreases |readBuf|
    {
      var f := TryParseFrame(readBuf);
      match f {
        case Complete(n, c) =>
          readBuf := readBuf[n..];
          engine, writeBuf := Reply(exec, engine, writeBuf, Run(c), Drain(readBuf).events);
        case Skip(n) =>
          readBuf := readBuf[n..];
        case Incomplete =>
          assert writeBuf + [] == writeBuf;
          return;
        case Failed(SyntaxError) =>
          readBuf := SkipToNewline(readBuf);
          engine, writeBuf := Reply(exec, engine, writeBuf, BadSyntax, Drain(readBuf).events);
        case Failed(UnknownCommand(_)) =>
          readBuf := SkipToNewline(readBuf);
          engine, writeBuf := Reply(exec, engine, writeBuf, BadCommand, Drain(readBuf).events);
        case Failed(EmptyCommand) =>
          assert writeBuf + [] == writeBuf;
          return;
      }
    }
  }

  lemma NilReply<E>(exec: Handler<E>, e: E, events: seq<Event>)
    ensures ExecAll(exec, e, events) == (ExecAll(exec, e, events).0, [] + ExecAll(exec, e, events).1)
  {
    assert [] + ExecAll(exec, e, events).1 == ExecAll(exec, e, events).1;
  }

  /** Dispatches one event and appends its reply; `later` are the events still to come. */
  method Reply<E>(exec: Handler<E>, e: E, w: Bytes, event: Event, ghost later: seq<Event>)
    returns (e': E, w': Bytes)
    ensures
      var all, rest := ExecAll(exec, e, [event] + later), ExecAll(exec, e', later);
      all.0 == rest.0 && w + all.1 == w' + rest.1
  {
    var (e1, w1) := exec(e, event);
    assert ([event] + later)[1..] == later;
    assert w + (w1 + ExecAll(exec, e1, later).1) == (w + w1) + ExecAll(exec, e1, later).1;
    return e1, w + w1;
  }

  /** The inline loop of `handle_session_full`. */
  method InlineLoop<E>(exec: Handler<E>, e: E, start: Bytes)
    returns (engine: E, writeBuf: Bytes, readBuf: Bytes, panicked: bool)
    ensures readBuf == DrainInline(start).rest && panicked == DrainInline(start).panicked
    ensures (engine, writeBuf) == ExecAll(exec, e, DrainInline(start).events)
  {
    hide BorrowedFrame, SkipToNewline;
    engine, writeBuf, readBuf, panicked := e, [], start, false;
    NilReply(exec, e, DrainInline(start).events);
    while true
      invariant DrainInline(start).rest == DrainInline(readBuf).rest
      invariant DrainInline(start).panicked == DrainInline(readBuf).panicked
      invariant ExecAll(exec, e, DrainInline(start).events)
             == (ExecAll(exec, engine, DrainInline(readBuf).events).0,
                 writeBuf + ExecAll(exec, engine, DrainInline(readBuf).events).1)
      invariant !panicked
      decreases |readBuf|
    {
      var f := ParseInlineBorrowed(readBuf);
      BorrowedProgress(readBuf);
      match f {
        case Complete(n, c) =>
          readBuf := readBuf[n..];
          engine, writeBuf := Reply(exec, engine, writeBuf, Run(c), DrainInline(readBuf).events);
        case Skip(n) =>
          if n > |readBuf| {
            panicked := true;
            assert writeBuf + [] == writeBuf;
            return;
          }
          readBuf := readBuf[n..];
        case Incomplete =>
          assert writeBuf + [] == writeBuf;
          return;
        case Failed(SyntaxError) =>
          readBuf := SkipToNewline(readBuf);
          engine, writeBuf := Reply(exec, engine, writeBuf, BadSyntax, DrainInline(readBuf).events);
        case Failed(UnknownCommand(_)) =>
          readBuf := SkipToNewline(readBuf);
          engine, writeBuf := Reply(exec, engine, writeBuf, BadCommand, DrainInline(readBuf).events);
        case Failed(EmptyCommand) =>
          assert writeBuf + [] == writeBuf;
          return;
      }
    }
  }

  /** The fast parser always consumes something, and only the lone LF claims a byte too many. */
  lemma BorrowedProgress(buf: Bytes)
    ensures
      var f := BorrowedFrame(buf);
      && (f.Complete? ==> 2 <= f.consumed <= |buf|)
      && (f.Skip? ==> f.consumed >= 1 && (f.consumed <= |buf| <==> buf != [LF]))
      && (f.Failed? ==> buf != [])
  {
    hide BorrowedCommand;
    if buf != [] && LineBreak(buf) == 0 && buf[0] == LF {
      assert buf[..0] == [];
      assert Words([]) == [];
      NoWords();
    }
  }

  /** `handle_session_full` over the chunks that the reads return; a read of nothing ends it. */
  method HandleSession<E>(exec: Handler<E>, e: E, chunks: seq<Bytes>) returns (s: State<E>)
    ensures s == Serve(exec, Opened(e), chunks)
  {
    s := Opened(e);
    for i := 0 to |chunks|
      invariant Serve(exec, Opened(e), chunks) == Serve(exec, s, chunks[i..])
    {
      assert chunks[i..][1..] == chunks[i + 1..];
      var chunk := chunks[i];
      if s.closed || chunk == [] {
        s := s.(closed := true);
      } else {
        var buf := s.readBuf + chunk;
        if |buf| > MAX_READ_BUF {
          s := s.(readBuf := buf, closed := true);
        } else {
          var engine, w, rest, panicked := s.engine, [], buf, false;
          if buf[0] == STAR {
            engine, w, rest := RespLoop(exec, s.engine, buf);
            NeverPanics(buf);
          } else {
            engine, w, rest, panicked := InlineLoop(exec, s.engine, buf);
          }
          if panicked || |w| > MAX_WRITE_BUF {
            s := State(engine, rest, s.sent, true);
          } else {
            s := State(engine, rest, s.sent + w, false);
          }
        }
      }
    }
  }

  lemma {:induction false} NeverPanics(buf: Bytes)
    ensures !Drain(buf).panicked
    decreases |buf|
  {
    hide ParseFrame, SkipToNewline;
    match ParseFrame(buf)
    case Complete(n, _) => NeverPanics(buf[n..]);
    case Skip(n) => NeverPanics(buf[n..]);
    case Failed(SyntaxError) => NeverPanics(SkipToNewline(buf));
    case Failed(UnknownCommand(_)) => NeverPanics(SkipToNewline(buf));
    case _ =>
  }

  // ---- after an error -------------------------------------------------------------

  /** What is left of a buffer after its first line. */
  function AfterLine(buf: Bytes): Bytes {
    if LF in buf then buf[Find(buf, 0, LF) + 1..] else []
  }

  /** An error costs one line: the events are one error and then those of the bytes behind the
      first LF, and what is left is theirs; without an LF nothing is left. */
  lemma ErrorRecovery(buf: Bytes)
    requires ParseFrame(buf) == Failed(SyntaxError) || (ParseFrame(buf).Failed? && ParseFrame(buf).error.UnknownCommand?)
    ensures
      var error := if ParseFrame(buf) == Failed(SyntaxError) then BadSyntax else BadCommand;
      var d := Drain(AfterLine(buf));
      Drain(buf) == Drained([error] + d.events, d.rest, d.panicked)
  {
    hide ParseFrame;
    SkipIsAfterLine(buf);
  }

  /** A line among the arrays costs exactly itself: a command is run, a line without words is
      dropped in silence, and anything else gets one error. */
  lemma LineAmongArrays(buf: Bytes)
    requires LF in buf && buf[0] != STAR
    ensures
      var line := buf[..Find(buf, 0, LF)];
      var d := Drain(AfterLine(buf));
      Drain(buf) ==
        match LineCommand(Words(line))
        case Ok(c) => Drained([Run(c)] + d.events, d.rest, d.panicked)
        case Err(EmptyCommand) => d
        case Err(SyntaxError) => Drained([BadSyntax] + d.events, d.rest, d.panicked)
        case Err(UnknownCommand(_)) => Drained([BadCommand] + d.events, d.rest, d.panicked)
  {
    hide LineCommand, Words, Find;
    SkipIsAfterLine(buf);
  }

  lemma SkipIsAfterLine(buf: Bytes)
    ensures SkipToNewline(buf) == AfterLine(buf)
  {
  }

  /** The same for the inline loop. */
  lemma InlineErrorRecovery(buf: Bytes)
    requires buf != []
    requires BorrowedFrame(buf) == Failed(SyntaxError) || (BorrowedFrame(buf).Failed? && BorrowedFrame(buf).error.UnknownCommand?)
    ensures
      var error := if BorrowedFrame(buf) == Failed(SyntaxError) then BadSyntax else BadCommand;
      var d := DrainInline(AfterLine(buf));
      DrainInline(buf) == Drained([error] + d.events, d.rest, d.panicked)
  {
    hide BorrowedFrame;
    SkipIsAfterLine(buf);
  }

  // ---- when a session closes ----------------------------------------------------------

  /** A read closes an open session exactly when it is empty, overfills the buffer, panics, or its
      replies exceed the write limit; a closing read sends nothing, and one that overfills the
      buffer runs nothing. */
  lemma ClosesExactly<E>(exec: Handler<E>, s: State<E>, chunk: Bytes)
    requires !s.closed
    ensures
      var buf := s.readBuf + chunk;
      var t := OnRead(exec, s, chunk);
      var d := if buf != [] && buf[0] == STAR then Drain(buf) else DrainInline(buf);
      && (t.closed <==>
            || chunk == [] || |buf| > 1024 * 1024 || d.panicked
            || |ExecAll(exec, s.engine, d.events).1| > 1024 * 1024)
      && (t.closed ==> t.sent == s.sent)
      && (chunk == [] || |buf| > 1024 * 1024 ==> t.engine == s.engine)
  {
    hide Drain, DrainInline, ExecAll;
  }

  // ---- chunking independence --------------------------------------------------

  predicate WellFormed(args: seq<Bytes>) {
    Sized(args) && CommandOf(args).Some?
  }

  predicate AllWellFormed(frames: seq<seq<Bytes>>) {
    forall i :: 0 <= i < |frames| ==> WellFormed(frames[i])
  }

  /** The bytes a client sends for a list of argument vectors. */
  function Stream(frames: seq<seq<Bytes>>): Bytes {
    if frames == [] then [] else RespFrame(frames[0]) + Stream(frames[1..])
  }

  /** The commands they stand for, in order. */
  function Runs(frames: seq<seq<Bytes>>): (r: seq<Event>)
    requires AllWellFormed(frames)
    ensures |r| == |frames|
  {
    seq(|frames|, i requires 0 <= i < |frames| => Run(CommandOf(frames[i]).value))
  }

  /** How many whole frames a prefix of the stream holds. */
  function Whole(frames: seq<seq<Bytes>>, buf: Bytes): (m: nat)
    ensures m <= |frames|
  {
    if frames == [] || |buf| < |RespFrame(frames[0])| then 0
    else 1 + Whole(frames[1..], buf[|RespFrame(frames[0])|..])
  }

  /** `rest` stops before the end of the next frame. */
  predicate Partial(frames: seq<seq<Bytes>>, rest: Bytes) {
    if frames == [] then rest == [] else rest < RespFrame(frames[0])
  }

  lemma PrefixOfSum(buf: Bytes, a: Bytes, b: Bytes)
    requires buf <= a + b
    ensures |buf| < |a| ==> buf < a
    ensures |buf| >= |a| ==> a <= buf && buf == a + buf[|a|..] && buf[|a|..] <= b
  {
    if |buf| < |a| {
      assert buf == (a + b)[..|buf|] == a[..|buf|];
    } else {
      assert a == (a + b)[..|a|] == buf[..|a|];
      assert buf[|a|..] == (a + b)[..|buf|][|a|..] == b[..|buf| - |a|];
    }
  }

  lemma DrainHead(args: seq<Bytes>, tail: Bytes)
    requires WellFormed(args)
    ensures RespFrame(args) != []
    ensures Drain(RespFrame(args) + tail) == Push(Run(CommandOf(args).value), Drain(tail))
  {
    hide ParseFrame, CommandOf;
    FrameRoundTrip(args, tail);
    assert (RespFrame(args) + tail)[|RespFrame(args)|..] == tail;
  }

  lemma RunsStep(frames: seq<seq<Bytes>>, k: nat)
    requires AllWellFormed(frames) && frames != [] && k < |frames|
    ensures Runs(frames[..k + 1]) == [Run(CommandOf(frames[0]).value)] + Runs(frames[1..][..k])
  {
    hide CommandOf, Sized;
    assert frames[..k + 1] == [frames[0]] + frames[1..][..k];
  }

  lemma StreamStep(frames: seq<seq<Bytes>>, k: nat)
    requires frames != [] && k < |frames|
    ensures Stream(frames[..k + 1]) == RespFrame(frames[0]) + Stream(frames[1..][..k])
  {
    hide RespFrame;
    assert frames[..k + 1][1..] == frames[1..][..k];
  }

  /** Draining `buf` runs exactly its whole frames and keeps the rest. */
  ghost predicate DrainsFrames(frames: seq<seq<Bytes>>, buf: Bytes)
    requires AllWellFormed(frames)
  {
    var m := Whole(frames, buf);
    var d := Drain(buf);
    && d.events == Runs(frames[..m])
    && buf == Stream(frames[..m]) + d.rest
    && Partial(frames[m..], d.rest)
  }

  lemma DrainsShort(frames: seq<seq<Bytes>>, buf: Bytes)
    requires AllWellFormed(frames) && Whole(frames, buf) == 0
    requires Drain(buf) == Drained([], buf, false) && Partial(frames, buf)
    ensures DrainsFrames(frames, buf)
  {
    hide Drain, RespFrame, CommandOf, WellFormed;
    assert frames[..0] == [] && frames[0..] == frames;
    assert [] + buf == buf;
  }

  lemma WholeStep(frames: seq<seq<Bytes>>, tail: Bytes)
    requires frames != []
    ensures Whole(frames, RespFrame(frames[0]) + tail) == Whole(frames[1..], tail) + 1
  {
    hide RespFrame;
    var f := RespFrame(frames[0]);
    assert (f + tail)[|f|..] == tail;
  }

  lemma DrainsLong(frames: seq<seq<Bytes>>, tail: Bytes)
    requires AllWellFormed(frames) && frames != [] && DrainsFrames(frames[1..], tail)
    ensures DrainsFrames(frames, RespFrame(frames[0]) + tail)
  {
    hide Drain, RespFrame, CommandOf, WellFormed, Runs, Stream, Partial, Whole;
    var f := RespFrame(frames[0]);
    var buf := f + tail;
    WholeStep(frames, tail);
    DrainHead(frames[0], tail);
    var k := Whole(frames[1..], tail);
    var d := Drain(tail);
    RunsStep(frames, k);
    StreamStep(frames, k);
    assert frames[k + 1..] == frames[1..][k..];
    var st := Stream(frames[1..][..k]);
    assert buf == f + (st + d.rest) == (f + st) + d.rest;
    assert Drain(buf).rest == d.rest && Drain(buf).events == Runs(frames[..k + 1]);
  }

  lemma {:induction false} DrainStream(frames: seq<seq<Bytes>>, buf: Bytes)
    requires AllWellFormed(frames) && buf <= Stream(frames)
    ensures DrainsFrames(frames, buf)
    decreases |frames|
  {
    hide RespFrame, CommandOf, WellFormed, DrainsFrames, Drain;
    if frames == [] {
      assert buf == [];
      DrainNothing();
      DrainsShort(frames, buf);
    } else {
      var f := RespFrame(frames[0]);
      PrefixOfSum(buf, f, Stream(frames[1..]));
      assert WellFormed(frames[0]);
      if |buf| < |f| {
        DrainPartial(frames[0], buf);
        DrainsShort(frames, buf);
      } else {
        DrainStream(frames[1..], buf[|f|..]);
        DrainsLong(frames, buf[|f|..]);
      }
    }
  }

  lemma DrainNothing()
    ensures Drain([]) == Drained([], [], false)
  {
    EmptyIncomplete();
  }

  lemma DrainPartial(args: seq<Bytes>, buf: Bytes)
    requires WellFormed(args) && buf < RespFrame(args)
    ensures Drain(buf) == Drained([], buf, false)
  {
    hide ParseFrame, CommandOf;
    ProperPrefixIncomplete(args, buf);
  }

  lemma EmptyIncomplete()
    ensures ParseFrame([]) == Incomplete
  {
  }

  lemma {:induction false} ExecAllAppend<E>(exec: Handler<E>, e: E, a: seq<Event>, b: seq<Event>)
    ensures
      var first := ExecAll(exec, e, a);
      var second := ExecAll(exec, first.0, b);
      ExecAll(exec, e, a + b) == (second.0, first.1 + second.1)
  {
    if a == [] {
      assert a + b == b;
      assert [] + ExecAll(exec, e, b).1 == ExecAll(exec, e, b).1;
    } else {
      assert (a + b)[0] == a[0] && (a + b)[1..] == a[1..] + b;
      var (e1, w1) := exec(e, a[0]);
      ExecAllAppend(exec, e1, a[1..], b);
      var first := ExecAll(exec, e1, a[1..]);
      var second := ExecAll(exec, first.0, b);
      assert w1 + (first.1 + second.1) == (w1 + first.1) + second.1;
    }
  }

  /** The engine after the first `n` commands of the list. */
  function EngineAfter<E>(exec: Handler<E>, e: E, frames: seq<seq<Bytes>>, n: nat): E
    requires AllWellFormed(frames) && n <= |frames|
  {
    ExecAll(exec, e, Runs(frames[..n])).0
  }

  lemma RunsSplit(frames: seq<seq<Bytes>>, m: nat)
    requires AllWellFormed(frames) && m <= |frames|
    ensures Runs(frames) == Runs(frames[..m]) + Runs(frames[m..])
  {
    hide WellFormed, CommandOf;
  }

  lemma StreamSplit(frames: seq<seq<Bytes>>, m: nat)
    requires m <= |frames|
    ensures Stream(frames) == Stream(frames[..m]) + Stream(frames[m..])
  {
    hide RespFrame;
    if m == 0 {
      assert frames[0..] == frames;
    } else {
      StreamSplit(frames[1..], m - 1);
      assert frames[..m][1..] == frames[1..][..m - 1];
      assert frames[1..][m - 1..] == frames[m..];
    }
  }

  lemma StreamStarts(frames: seq<seq<Bytes>>, buf: Bytes)
    requires buf != [] && buf <= Stream(frames)
    ensures frames != [] && buf[0] == STAR
  {
    assert buf[0] == Stream(frames)[0];
  }

  ghost predicate ServedPrefix<E(!new)>(exec: Handler<E>, e: E, frames: seq<seq<Bytes>>, engine: E)
    requires AllWellFormed(frames)
  {
    exists n: nat :: n <= |frames| && engine == EngineAfter(exec, e, frames, n)
  }

  lemma ServedLater<E(!new)>(exec: Handler<E>, e: E, frames: seq<seq<Bytes>>, m: nat, engine: E)
    requires AllWellFormed(frames) && m <= |frames|
    requires ServedPrefix(exec, EngineAfter(exec, e, frames, m), frames[m..], engine)
    ensures ServedPrefix(exec, e, frames, engine)
  {
    hide CommandOf, RespFrame, Sized;
    var n: nat :| n <= |frames[m..]| && engine == EngineAfter(exec, EngineAfter(exec, e, frames, m), frames[m..], n);
    assert Runs(frames[..m + n]) == Runs(frames[..m]) + Runs(frames[m..][..n]);
    ExecAllAppend(exec, e, Runs(frames[..m]), Runs(frames[m..][..n]));
    assert engine == EngineAfter(exec, e, frames, m + n);
  }

  lemma {:induction false} ClosedStays<E>(exec: Handler<E>, s: State<E>, chunks: seq<Bytes>)
    requires s.closed
    ensures Serve(exec, s, chunks) == s
  {
    if chunks != [] {
      assert OnRead(exec, s, chunks[0]) == s;
      ClosedStays(exec, s, chunks[1..]);
    }
  }

  /** The effect of one read on a session that is in the middle of a stream. */
  lemma OnReadStream<E(!new)>(exec: Handler<E>, s: State<E>, frames: seq<seq<Bytes>>, chunk: Bytes)
    requires AllWellFormed(frames) && !s.closed && chunk != []
    requires s.readBuf + chunk <= Stream(frames)
    ensures
      var s' := OnRead(exec, s, chunk);
      var m := Whole(frames, s.readBuf + chunk);
      && (!s'.closed ==>
            && s.readBuf + chunk == Stream(frames[..m]) + s'.readBuf
            && Partial(frames[m..], s'.readBuf)
            && s'.engine == EngineAfter(exec, s.engine, frames, m)
            && s'.sent == s.sent + ExecAll(exec, s.engine, Runs(frames[..m])).1)
      && (s'.closed ==> ServedPrefix(exec, s.engine, frames, s'.engine))
      && (s'.closed ==> (|s.readBuf + chunk| > MAX_READ_BUF
                         || |ExecAll(exec, s.engine, Runs(frames[..m])).1| > MAX_WRITE_BUF))
  {
    hide Drain, DrainInline;
    var buf := s.readBuf + chunk;
    var m := Whole(frames, buf);
    StreamStarts(frames, buf);
    DrainStream(frames, buf);
    NeverPanics(buf);
    assert ExecAll(exec, s.engine, Runs(frames[..m])).0 == EngineAfter(exec, s.engine, frames, m);
    assert frames[..0] == [] && EngineAfter(exec, s.engine, frames, 0) == s.engine;
  }

  /** `end` is a correct outcome of serving `frames` from `s`. */
  ghost predicate Served<E(!new)>(exec: Handler<E>, s: State<E>, frames: seq<seq<Bytes>>, end: State<E>)
    requires AllWellFormed(frames)
  {
    var all := ExecAll(exec, s.engine, Runs(frames));
    && (!end.closed ==> end.readBuf == [] && end.engine == all.0 && end.sent == s.sent + all.1)
    && ServedPrefix(exec, s.engine, frames, end.engine)
  }

  lemma ServedCompose<E(!new)>(exec: Handler<E>, s: State<E>, s1: State<E>, end: State<E>, frames: seq<seq<Bytes>>, m: nat)
    requires AllWellFormed(frames) && m <= |frames|
    requires s1.engine == EngineAfter(exec, s.engine, frames, m)
    requires s1.sent == s.sent + ExecAll(exec, s.engine, Runs(frames[..m])).1
    requires Served(exec, s1, frames[m..], end)
    ensures Served(exec, s, frames, end)
  {
    hide Runs, ExecAll, ServedPrefix, WellFormed;
    ServedLater(exec, s.engine, frames, m, end.engine);
    RunsSplit(frames, m);
    ExecAllAppend(exec, s.engine, Runs(frames[..m]), Runs(frames[m..]));
    var w1, w2 := ExecAll(exec, s.engine, Runs(frames[..m])).1, ExecAll(exec, s1.engine, Runs(frames[m..])).1;
    assert s.sent + (w1 + w2) == (s.sent + w1) + w2;
  }

  lemma ServedNothing<E(!new)>(exec: Handler<E>, s: State<E>, frames: seq<seq<Bytes>>)
    requires AllWellFormed(frames) && !s.closed
    requires s.readBuf == Stream(frames) && Partial(frames, s.readBuf)
    ensures Served(exec, s, frames, s)
  {
    hide RespFrame, CommandOf, WellFormed;
    PartialWhole(frames, s.readBuf);
    assert frames[..0] == [];
    assert EngineAfter(exec, s.engine, frames, 0) == s.engine;
    assert s.sent + [] == s.sent;
  }

  lemma {:induction false} ServeStream<E(!new)>(exec: Handler<E>, s: State<E>, frames: seq<seq<Bytes>>, chunks: seq<Bytes>)
    requires AllWellFormed(frames) && !s.closed
    requires forall i :: 0 <= i < |chunks| ==> chunks[i] != []
    requires s.readBuf + Concat(chunks) == Stream(frames) && Partial(frames, s.readBuf)
    ensures Served(exec, s, frames, Serve(exec, s, chunks))
    decreases |chunks|
  {
    hide OnRead, RespFrame, CommandOf, WellFormed, Served, Runs, Stream, ExecAll, Whole, Partial;
    if chunks == [] {
      assert s.readBuf + [] == s.readBuf;
      ServedNothing(exec, s, frames);
    } else {
      var c := chunks[0];
      assert s.readBuf + Concat(chunks) == (s.readBuf + c) + Concat(chunks[1..]);
      OnReadStream(exec, s, frames, c);
      var s1 := OnRead(exec, s, c);
      if s1.closed {
        ClosedStays(exec, s1, chunks[1..]);
        ServedClosed(exec, s, frames, s1);
      } else {
        var m := Whole(frames, s.readBuf + c);
        StreamSplit(frames, m);
        TailOfStream(Stream(frames[..m]), s1.readBuf, Concat(chunks[1..]), Stream(frames[m..]));
        ServeStream(exec, s1, frames[m..], chunks[1..]);
        ServedCompose(exec, s, s1, Serve(exec, s1, chunks[1..]), frames, m);
      }
    }
  }

  lemma ServedClosed<E(!new)>(exec: Handler<E>, s: State<E>, frames: seq<seq<Bytes>>, end: State<E>)
    requires AllWellFormed(frames) && end.closed && ServedPrefix(exec, s.engine, frames, end.engine)
    ensures Served(exec, s, frames, end)
  {
  }

  lemma PartialWhole(frames: seq<seq<Bytes>>, rest: Bytes)
    requires Partial(frames, rest) && rest == Stream(frames)
    ensures frames == [] && rest == []
  {
  }

  lemma TailOfStream(a: Bytes, r: Bytes, c: Bytes, b: Bytes)
    requires (a + r) + c == a + b
    ensures r + c == b
  {
    assert a + (r + c) == a + b;
    assert (a + (r + c))[|a|..] == (a + b)[|a|..];
  }

  /** Chunking independence. However the stream of a list of well-formed commands is cut
      into reads, a session that stays open has run exactly that list, in order, has sent
      exactly its replies and holds an empty buffer; one that a size limit closed has run
      a prefix of the list and nothing else. */
  lemma ChunkingIndependence<E(!new)>(exec: Handler<E>, e: E, frames: seq<seq<Bytes>>, chunks: seq<Bytes>)
    requires AllWellFormed(frames)
    requires forall i :: 0 <= i < |chunks| ==> chunks[i] != []
    requires Concat(chunks) == Stream(frames)
    ensures
      var s := Serve(exec, Opened(e), chunks);
      var all := ExecAll(exec, e, Runs(frames));
      && (!s.closed ==> s.readBuf == [] && (s.engine, s.sent) == all)
      && ServedPrefix(exec, e, frames, s.engine)
  {
    assert [] + Concat(chunks) == Concat(chunks);
    if frames != [] {
      assert RespFrame(frames[0])[0] == STAR;
    }
    ServeStream(exec, Opened(e), frames, chunks);
    assert [] + ExecAll(exec, e, Runs(frames)).1 == ExecAll(exec, e, Runs(frames)).1;
  }

  /** The same for commands as such: every list of sendable commands has such a stream. */
  lemma CommandsHaveFrames(cmds: seq<Command>)
    requires forall i :: 0 <= i < |cmds| ==> Sendable(cmds[i]) && Sized(ArgsOf(cmds[i]))
    ensures
      var frames := seq(|cmds|, i requires 0 <= i < |cmds| => ArgsOf(cmds[i]));
      && AllWellFormed(frames)
      && Runs(frames) == seq(|cmds|, i requires 0 <= i < |cmds| => Run(cmds[i]))
  {
    hide CommandOf, ArgsOf, Sendable;
    forall i | 0 <= i < |cmds|
      ensures CommandOf(ArgsOf(cmds[i])) == Some(cmds[i])
    {
      CommandOfArgs(cmds[i]);
    }
  }

  /** A small stream with small replies never meets a limit, so it is always fully served. */
  lemma {:induction false} SmallStreamStaysOpen<E(!new)>(exec: Handler<E>, s: State<E>, frames: seq<seq<Bytes>>, chunks: seq<Bytes>)
    requires AllWellFormed(frames) && !s.closed
    requires forall i :: 0 <= i < |chunks| ==> chunks[i] != []
    requires s.readBuf + Concat(chunks) == Stream(frames) && Partial(frames, s.readBuf)
    requires |Stream(frames)| <= MAX_READ_BUF
    requires |ExecAll(exec, s.engine, Runs(frames)).1| <= MAX_WRITE_BUF
    ensures !Serve(exec, s, chunks).closed
    decreases |chunks|
  {
    hide OnRead, RespFrame, CommandOf, WellFormed;
    if chunks != [] {
      var c := chunks[0];
      assert s.readBuf + Concat(chunks) == (s.readBuf + c) + Concat(chunks[1..]);
      OnReadStream(exec, s, frames, c);
      var s1 := OnRead(exec, s, c);
      assert Serve(exec, s, chunks) == Serve(exec, s1, chunks[1..]);
      hide Serve, Runs, Stream, ExecAll, Concat, Whole, Partial, ServedPrefix;
      var m := Whole(frames, s.readBuf + c);
      StreamSplit(frames, m);
      RunsSplit(frames, m);
      ExecAllAppend(exec, s.engine, Runs(frames[..m]), Runs(frames[m..]));
      TailOfStream(Stream(frames[..m]), s1.readBuf, Concat(chunks[1..]), Stream(frames[m..]));
      SmallStreamStaysOpen(exec, s1, frames[m..], chunks[1..]);
    }
  }

  // ---- an array of no items wedges the connection ---------------------------------

  /** The text between the first byte and the end of the first line. */
  function HeaderText(buf: Bytes): Bytes
    requires buf != [] && buf[0] == STAR && LF in buf
  {
    var nl := Find(buf, 0, LF);
    buf[1..if buf[nl - 1] == CR then nl - 1 else nl]
  }

  /** A whole array header whose count is zero in 64-bit arithmetic, however it is written. */
  predicate ZeroHeader(buf: Bytes) {
    buf != [] && buf[0] == STAR && LF in buf && LineNumber(HeaderText(buf)) == Some(0)
  }

  /** Exactly these buffers make the parser answer with an empty command. */
  lemma EmptyCommandIs(buf: Bytes)
    ensures ParseFrame(buf) == Failed(EmptyCommand) <==> ZeroHeader(buf)
  {
    hide LineNumber, ReadBulk, ParseInline;
    if buf != [] && buf[0] == STAR {
      var nl := Find(buf, 0, LF);
      assert nl < |buf| <==> LF in buf;
      NotEmptyCommand(buf);
    }
  }

  lemma NotEmptyCommand(buf: Bytes)
    requires buf != [] && buf[0] == STAR
    ensures RespFrameOf(buf) == Failed(EmptyCommand) <==> ReadLineInt(buf, 0, STAR).Got? && ReadLineInt(buf, 0, STAR).value == 0
  {
    hide ReadLineInt, ReadBulk, ReadBulks, VerbOf, TtlOption, ParseU64;
  }

  /** A round of the RESP loop on a buffer that is not waiting for bytes: it leaves the buffer as
      it is exactly when the header counts zero, and shortens it otherwise. */
  lemma RoundProgress(buf: Bytes)
    requires ParseFrame(buf) != Incomplete
    ensures ZeroHeader(buf) ==> Drain(buf) == Drained([], buf, false)
    ensures !ZeroHeader(buf) ==> |Drain(buf).rest| < |buf|
  {
    hide ParseFrame, SkipToNewline, ZeroHeader;
    EmptyCommandIs(buf);
    match ParseFrame(buf)
    case Complete(n, _) => DrainShrinks(buf[n..]);
    case Skip(n) => DrainShrinks(buf[n..]);
    case Failed(SyntaxError) => DrainShrinks(SkipToNewline(buf));
    case Failed(UnknownCommand(_)) => DrainShrinks(SkipToNewline(buf));
    case _ =>
  }

  lemma {:induction false} DrainShrinks(buf: Bytes)
    ensures |Drain(buf).rest| <= |buf|
    decreases |buf|
  {
    hide ParseFrame, SkipToNewline;
    match ParseFrame(buf)
    case Complete(n, _) => DrainShrinks(buf[n..]);
    case Skip(n) => DrainShrinks(buf[n..]);
    case Failed(SyntaxError) => DrainShrinks(SkipToNewline(buf));
    case Failed(UnknownCommand(_)) => DrainShrinks(SkipToNewline(buf));
    case _ =>
  }

  lemma ZeroHeaderStays(buf: Bytes, ext: Bytes)
    requires ZeroHeader(buf) && buf <= ext
    ensures ZeroHeader(ext)
  {
    hide ParseFrame, ZeroHeader;
    EmptyCommandIs(buf);
    EmptyCommandIs(ext);
    FrameStable(buf, ext);
  }

  lemma ZeroHeaderStar(buf: Bytes)
    requires ZeroHeader(buf)
    ensures buf != [] && buf[0] == STAR && ParseFrame(buf) != Incomplete
  {
    EmptyCommandIs(buf);
  }

  /** Once such a header is at the front of the buffer, no later byte is ever served: nothing is
      dispatched, nothing is sent, and the buffer only grows until the limit closes it. */
  lemma {:induction false} ZeroHeaderWedges<E>(exec: Handler<E>, s: State<E>, chunks: seq<Bytes>)
    requires ZeroHeader(s.readBuf)
    ensures
      var s' := Serve(exec, s, chunks);
      s'.engine == s.engine && s'.sent == s.sent && ZeroHeader(s'.readBuf)
    decreases |chunks|
  {
    hide ZeroHeader, Drain;
    if chunks != [] {
      var buf := s.readBuf + chunks[0];
      ZeroHeaderStays(s.readBuf, buf);
      ZeroHeaderStar(buf);
      RoundProgress(buf);
      assert s.sent + [] == s.sent;
      ZeroHeaderWedges(exec, OnRead(exec, s, chunks[0]), chunks[1..]);
    }
  }

  /** A count written in decimal wedges exactly when it is a multiple of 2^64: zero itself, and
      counts so large that they wrap to it. */
  lemma WrittenCountWedges(n: nat, z: Bytes)
    ensures ZeroHeader([STAR] + Itoa(n) + CRLF + z) <==> n % TWO64 == 0
  {
    var text := Itoa(n);
    var buf := [STAR] + text + CRLF + z;
    hide Itoa, DecVal;
    assert forall i :: 0 <= i < |text| ==> buf[i + 1] == text[i] && IsDigit(text[i]);
    assert buf[|text| + 1] == CR && buf[|text| + 2] == LF;
    var nl := Find(buf, 0, LF);
    assert forall i :: 0 <= i < |text| + 2 ==> buf[i] != LF;
    assert nl == |text| + 2;
    assert HeaderText(buf) == text;
    assert text[0] != MINUS;
    assert LineNumber(text) == Some(WrapI64(n));
    ZeroWrap(n);
  }

  lemma ZeroWrap(n: nat)
    ensures WrapI64(n) == 0 <==> n % TWO64 == 0
  {
    var q, r := n / TWO64, n % TWO64;
    WrapShift(r, q);
    assert n == r + q * TWO64;
  }
}
