/** The whole server, end to end: a client's commands arrive in any chunks, over RESP or inline,
    the session dispatches and logs them, the client gets the replies, the log writer leaves its
    file, and start-up replays it. The engine has no key limit, as `main` builds it. */
module Server {
  import opened Bytes
  import opened Domain
  import Engine
  import AofCodec
  import AofWriter
  import opened Replay
  import RespParser
  import opened Response
  import opened Dispatcher
  import Session
  import InlineSession
  import InlineReplies
  import InlineMeaning
  import MixedStream
  import opened InlineParser
  import Snapshot
  import opened Ledgers
  import opened Restart

  /** What a session changes: the map, the log, and how many commands it has dispatched. */
  datatype Server = Server(m: Engine.Store, log: seq<Note>, count: nat)

  // "syntax error" and "unknown command", as bytes.
  const SYNTAX_TEXT: Bytes := [115, 121, 110, 116, 97, 120, 32, 101, 114, 114, 111, 114]
  const UNKNOWN_TEXT: Bytes := [117, 110, 107, 110, 111, 119, 110, 32, 99, 111, 109, 109, 97, 110, 100]

  /** What the client is told in answer to an event, given the map before it. */
  function EventReply(m: Engine.Store, e: Session.Event, now: Instant, scan: Scan, info: Bytes): Response {
    match e
    case Run(c) => DispatchState(m, 0, c, AtOnce(now, scan, info)).1
    case BadSyntax => Error(ResponseError.SyntaxError(SYNTAX_TEXT))
    case BadCommand => Error(ResponseError.UnknownCommand(UNKNOWN_TEXT))
  }

  /** Its bytes: the RESP loop writes the response, the inline loop uses `dispatch_to_buffer` for
      commands. */
  function EventBytes(e: Session.Event, r: Response, resp: bool): Bytes {
    if !resp && e.Run? then BufferBytes(e.command, r, false) else Encoded(r, resp)
  }

  /** A round of either loop: dispatch, log a write, write the reply. The RESP loop logs a write
      that did not fail, the inline loop every write. The i-th command is dispatched at
      `clock(i)`. */
  function Handled(s: Server, e: Session.Event, resp: bool, clock: Clock, scan: Scan, info: Bytes): (Server, Bytes) {
    var now := clock(s.count);
    var bytes := EventBytes(e, EventReply(s.m, e, now, scan, info), resp);
    match e
    case Run(c) =>
      (Server(DispatchState(s.m, 0, c, AtOnce(now, scan, info)).0, s.log + NoteOf(s.m, Timed(c, now), !resp, scan, info), s.count + 1),
       bytes)
    case _ => (s, bytes)
  }

  function Handler(resp: bool, clock: Clock, scan: Scan, info: Bytes): Session.Handler<Server> {
    (s: Server, e: Session.Event) => Handled(s, e, resp, clock, scan, info)
  }

  // ---- what a session does with a list of events --------------------------------------

  /** The commands among the events, each with its time. */
  function RunOf(events: seq<Session.Event>, clock: Clock): (run: seq<Timed>)
    ensures |run| <= |events|
    ensures forall i :: 0 <= i < |run| ==> run[i].at == clock(i)
  {
    if events == [] then []
    else
      var n := |events| - 1;
      var run := RunOf(events[..n], clock);
      if events[n].Run? then run + [Timed(events[n].command, clock(|run|))] else run
  }

  /** The server and the bytes after the events. */
  function After(m: Engine.Store, events: seq<Session.Event>, resp: bool, clock: Clock, scan: Scan, info: Bytes): (Server, Bytes) {
    var run := RunOf(events, clock);
    (Server(Served(m, run, scan, info), Trail(m, run, !resp, scan, info), |run|),
     SentBytes(events, Replies(m, events, clock, scan, info), resp))
  }

  /** The replies to the events, in order. */
  function Replies(m: Engine.Store, events: seq<Session.Event>, clock: Clock, scan: Scan, info: Bytes): (rs: seq<Response>)
    ensures |rs| == |events|
  {
    if events == [] then []
    else
      var n := |events| - 1;
      var run := RunOf(events[..n], clock);
      Replies(m, events[..n], clock, scan, info) + [EventReply(Served(m, run, scan, info), events[n], clock(|run|), scan, info)]
  }

  /** The bytes sent back. */
  function SentBytes(events: seq<Session.Event>, rs: seq<Response>, resp: bool): Bytes
    requires |events| == |rs|
  {
    if events == [] then [] else EventBytes(events[0], rs[0], resp) + SentBytes(events[1..], rs[1..], resp)
  }

  lemma {:induction false} SentSnoc(events: seq<Session.Event>, rs: seq<Response>, e: Session.Event, r: Response, resp: bool)
    requires |events| == |rs|
    ensures SentBytes(events + [e], rs + [r], resp) == SentBytes(events, rs, resp) + EventBytes(e, r, resp)
    decreases |events|
  {
    hide EventBytes;
    if events == [] {
      assert [] + [e] == [e] && [] + [r] == [r] && [e][1..] == [] && [r][1..] == [];
    } else {
      assert (events + [e])[1..] == events[1..] + [e] && (rs + [r])[1..] == rs[1..] + [r];
      SentSnoc(events[1..], rs[1..], e, r, resp);
    }
  }

  lemma ExecOne(s: Server, e: Session.Event, resp: bool, clock: Clock, scan: Scan, info: Bytes)
    ensures Session.ExecAll(Handler(resp, clock, scan, info), s, [e]) == Handled(s, e, resp, clock, scan, info)
  {
    hide Handled;
    var (s1, w) := Handled(s, e, resp, clock, scan, info);
    assert w + [] == w;
    assert [e][1..] == [];
  }

  lemma AfterSnoc(m: Engine.Store, events: seq<Session.Event>, resp: bool, clock: Clock, scan: Scan, info: Bytes)
    requires events != []
    ensures
      var n := |events| - 1;
      var (s, w) := After(m, events[..n], resp, clock, scan, info);
      var (s1, w1) := Handled(s, events[n], resp, clock, scan, info);
      After(m, events, resp, clock, scan, info) == (s1, w + w1)
  {
    hide DispatchState, AtOnce, NoteOf, EventBytes, EventReply, SentBytes;
    var n := |events| - 1;
    var run := RunOf(events[..n], clock);
    var rs, r := Replies(m, events[..n], clock, scan, info), EventReply(Served(m, run, scan, info), events[n], clock(|run|), scan, info);
    assert events == events[..n] + [events[n]];
    SentSnoc(events[..n], rs, events[n], r, resp);
    if events[n].Run? {
      var x := Timed(events[n].command, clock(|run|));
      assert (run + [x])[..|run|] == run;
    }
  }

  /** Handling events one by one is the run of the dispatcher on their commands. */
  lemma {:induction false} ExecIsRun(m: Engine.Store, events: seq<Session.Event>, resp: bool, clock: Clock, scan: Scan, info: Bytes)
    ensures Session.ExecAll(Handler(resp, clock, scan, info), Server(m, [], 0), events) == After(m, events, resp, clock, scan, info)
    decreases |events|
  {
    hide After, Handled, Handler;
    if events == [] {
      AfterNothing(m, resp, clock, scan, info);
    } else {
      hide Session.ExecAll;
      var n := |events| - 1;
      ExecIsRun(m, events[..n], resp, clock, scan, info);
      assert events == events[..n] + [events[n]];
      Session.ExecAllAppend(Handler(resp, clock, scan, info), Server(m, [], 0), events[..n], [events[n]]);
      ExecOne(After(m, events[..n], resp, clock, scan, info).0, events[n], resp, clock, scan, info);
      AfterSnoc(m, events, resp, clock, scan, info);
    }
  }

  lemma AfterNothing(m: Engine.Store, resp: bool, clock: Clock, scan: Scan, info: Bytes)
    ensures After(m, [], resp, clock, scan, info) == (Server(m, [], 0), [])
  {
  }

  predicate Monotone(clock: Clock, n: nat) {
    forall i, j :: 0 <= i <= j < n ==> clock(i) <= clock(j)
  }

  // ---- restarts -----------------------------------------------------------------------

  /** The value of `k` at `u` after replaying the file over `m` with the given clock. */
  function ShownAfter(m: Engine.Store, uses: seq<AofWriter.Use>, clock: Clock, k: Key, u: Instant): Option<Bytes>
    requires AofWriter.AllWrites(uses)
  {
    View(Replayed(m, AofCodec.ReadLog(FileOf(uses), 0), clock), k, u)
  }

  /** At whatever times start-up replays the file and whenever it is asked then, `k` has the
      value `v`. */
  ghost predicate AlwaysShown(m: Engine.Store, uses: seq<AofWriter.Use>, k: Key, v: Option<Bytes>)
    requires AofWriter.AllWrites(uses)
  {
    forall clock: Clock, u: Instant :: Forward(clock) && Ended(clock, |AofCodec.ReadLog(FileOf(uses), 0)|) <= u ==>
      ShownAfter(m, uses, clock, k, u) == v
  }

  /** The same for a start-up at a single instant and from the log alone. */
  ghost predicate AlwaysRestarted(uses: seq<AofWriter.Use>, k: Key, v: Option<Bytes>, crc: Snapshot.Crc)
    requires AofWriter.AllWrites(uses)
  {
    forall t: Instant, u: Instant :: t <= u ==> Restarted(FileOf(uses), crc, t, k, u) == v
  }

  /** After a session from state `m` that ended as `s`, and from the file that the writer left: a
      key with a safe ledger always has its live value; and on a server that started empty,
      exactly the keys with a safe ledger do. */
  ghost predicate RestartHolds(m: Engine.Store, s: Server, now: Instant, uses: seq<AofWriter.Use>, k: Key, crc: Snapshot.Crc)
    requires WritesLog(uses, s.log)
  {
    var safe, live := Safe(Book(m, s.log, uses, k), now), View(s.m, k, now);
    && (safe ==> AlwaysShown(m, uses, k, live))
    && (m == map[] ==> (AlwaysRestarted(uses, k, live, crc) <==> safe))
  }

  lemma SafeIsShown(m: Engine.Store, run: seq<Timed>, all: bool, scan: Scan, info: Bytes, uses: seq<AofWriter.Use>, k: Key)
    requires Ordered(run)
    requires
      var notes := Trail(m, run, all, scan, info);
      WritesLog(uses, notes) && AofCodec.AllFit(CommandsIn(notes)) && Safe(Book(m, notes, uses, k), LastTime(run))
    ensures AlwaysShown(m, uses, k, View(Served(m, run, scan, info), k, LastTime(run)))
  {
    hide Served, Trail, FileOf, Book, Safe, Ended, Forward, AofCodec.Fits, AofCodec.ReadLog, Replayed, LastTime, View;
    forall clock: Clock, u: Instant | Forward(clock) && Ended(clock, |AofCodec.ReadLog(FileOf(uses), 0)|) <= u
      ensures ShownAfter(m, uses, clock, k, u) == View(Served(m, run, scan, info), k, LastTime(run))
    {
      RestartKeeps(m, run, all, uses, clock, u, scan, info, k);
    }
  }

  lemma RestartsHold(m: Engine.Store, run: seq<Timed>, all: bool, scan: Scan, info: Bytes, uses: seq<AofWriter.Use>,
                     k: Key, crc: Snapshot.Crc, count: nat)
    requires Ordered(run)
    requires
      var notes := Trail(m, run, all, scan, info);
      WritesLog(uses, notes) && AofCodec.AllFit(CommandsIn(notes))
    ensures
      var s := Server(Served(m, run, scan, info), Trail(m, run, all, scan, info), count);
      RestartHolds(m, s, LastTime(run), uses, k, crc)
  {
    hide Served, Trail, FileOf, Restarted, Book, Safe, AofCodec.Fits, LastTime, View, AlwaysShown;
    if Safe(Book(m, Trail(m, run, all, scan, info), uses, k), LastTime(run)) {
      SafeIsShown(m, run, all, scan, info, uses, k);
    }
    if m == map[] {
      RestartExact(run, all, uses, scan, info, k, crc);
    }
  }

  // ---- RESP -----------------------------------------------------------------------------

  function EventsOf(cmds: seq<Command>): (r: seq<Session.Event>)
    ensures |r| == |cmds| && forall i :: 0 <= i < |cmds| ==> r[i] == Session.Run(cmds[i])
  {
    seq(|cmds|, i requires 0 <= i < |cmds| => Session.Run(cmds[i]))
  }

  lemma {:induction false} RunOfCommands(cmds: seq<Command>, clock: Clock)
    ensures |RunOf(EventsOf(cmds), clock)| == |cmds|
    decreases |cmds|
  {
    if cmds != [] {
      assert EventsOf(cmds)[..|cmds| - 1] == EventsOf(cmds[..|cmds| - 1]);
      RunOfCommands(cmds[..|cmds| - 1], clock);
    }
  }

  /** Over RESP the bytes sent are the replies, one after the other. */
  lemma {:induction false} SentIsReplies(events: seq<Session.Event>, rs: seq<Response>)
    requires |events| == |rs|
    ensures SentBytes(events, rs, true) == EncodedAll(rs)
    decreases |events|
  {
    hide Encoded;
    if events != [] {
      SentIsReplies(events[1..], rs[1..]);
    }
  }

  /** The bytes a client sends for a list of commands. */
  function Sent(cmds: seq<Command>): Bytes {
    Session.Stream(FramesOf(cmds))
  }

  function FramesOf(cmds: seq<Command>): seq<seq<Bytes>> {
    seq(|cmds|, i requires 0 <= i < |cmds| => RespParser.ArgsOf(cmds[i]))
  }

  predicate AllSendable(cmds: seq<Command>) {
    forall i :: 0 <= i < |cmds| ==> RespParser.Sendable(cmds[i]) && RespParser.Sized(RespParser.ArgsOf(cmds[i]))
  }

  predicate Decodable(rs: seq<Response>) {
    forall i :: 0 <= i < |rs| ==> Representable(rs[i]) && OneLine(rs[i])
  }

  /** End to end over RESP, for every list of commands, every chunking of their frames and every
      state of the engine, as long as no size limit closes the session: the read buffer is empty,
      the client decodes exactly the dispatcher's replies, if none is an error with a CR, and a
      restart from the writer's file does as `RestartHolds` says. */
  lemma EndToEnd(m: Engine.Store, cmds: seq<Command>, chunks: seq<Bytes>, clock: Clock, scan: Scan, info: Bytes,
                 uses: seq<AofWriter.Use>, k: Key, crc: Snapshot.Crc)
    requires AllSendable(cmds) && Monotone(clock, |cmds|)
    requires (forall i :: 0 <= i < |chunks| ==> chunks[i] != []) && Concat(chunks) == Sent(cmds)
    requires !Session.Serve(Handler(true, clock, scan, info), Session.Opened(Server(m, [], 0)), chunks).closed
    ensures
      var run := RunOf(EventsOf(cmds), clock);
      var s := Session.Serve(Handler(true, clock, scan, info), Session.Opened(Server(m, [], 0)), chunks);
      var replies := Replies(m, EventsOf(cmds), clock, scan, info);
      && s.readBuf == []
      && s.engine == Server(Served(m, run, scan, info), Trail(m, run, false, scan, info), |cmds|)
      && (Decodable(replies) ==> DecodeAll(s.sent) == Some(replies))
      && (WritesLog(uses, s.engine.log) && AofCodec.AllFit(CommandsIn(s.engine.log)) ==>
            RestartHolds(m, s.engine, LastTime(run), uses, k, crc))
  {
    hide Session.Serve, Session.ExecAll, Handler, Decodable, RestartHolds, AofCodec.Fits, SentBytes;
    hide Served, Trail, Replies, DecodeAll, EncodedAll, RespParser.ArgsOf, RespParser.Sendable, LastTime;
    var events := EventsOf(cmds);
    Session.CommandsHaveFrames(cmds);
    assert Session.Runs(FramesOf(cmds)) == events;
    Session.ChunkingIndependence(Handler(true, clock, scan, info), Server(m, [], 0), FramesOf(cmds), chunks);
    ExecIsRun(m, events, true, clock, scan, info);
    RunOfCommands(cmds, clock);
    var replies := Replies(m, events, clock, scan, info);
    SentIsReplies(events, replies);
    if Decodable(replies) {
      DecodableReplies(replies);
    }
    var s := After(m, events, true, clock, scan, info).0;
    if WritesLog(uses, s.log) && AofCodec.AllFit(CommandsIn(s.log)) {
      RestartsHold(m, RunOf(events, clock), false, scan, info, uses, k, crc, |cmds|);
    }
  }

  lemma DecodableReplies(rs: seq<Response>)
    requires Decodable(rs)
    ensures DecodeAll(EncodedAll(rs)) == Some(rs)
  {
    hide Representable, OneLine;
    RepliesDecode(rs);
  }

  /** The same for a RESP client some of whose frames name an unknown command, in a calm stream:
      every well-formed frame is answered as if the others were not there, and each line of the
      others with one error. */
  lemma MixedEndToEnd(m: Engine.Store, us: seq<MixedStream.Unit>, chunks: seq<Bytes>, clock: Clock, scan: Scan, info: Bytes,
                      uses: seq<AofWriter.Use>, k: Key, crc: Snapshot.Crc)
    requires MixedStream.AllUnits(us) && MixedStream.Calm([], us) && Monotone(clock, |MixedStream.AllUnitEvents(us)|)
    requires MixedStream.NonEmpty(chunks) && Concat(chunks) == MixedStream.UnitBytes(us)
    requires !Session.Serve(Handler(true, clock, scan, info), Session.Opened(Server(m, [], 0)), chunks).closed
    ensures
      var events := MixedStream.AllUnitEvents(us);
      var run := RunOf(events, clock);
      var s := Session.Serve(Handler(true, clock, scan, info), Session.Opened(Server(m, [], 0)), chunks);
      var replies := Replies(m, events, clock, scan, info);
      && s.readBuf == []
      && s.engine == Server(Served(m, run, scan, info), Trail(m, run, false, scan, info), |run|)
      && (Decodable(replies) ==> DecodeAll(s.sent) == Some(replies))
      && (WritesLog(uses, s.engine.log) && AofCodec.AllFit(CommandsIn(s.engine.log)) ==>
            RestartHolds(m, s.engine, LastTime(run), uses, k, crc))
  {
    hide Session.Serve, Session.ExecAll, Handler, Decodable, RestartHolds, AofCodec.Fits, SentBytes, Replies, Concat;
    hide Served, Trail, DecodeAll, EncodedAll, LastTime, MixedStream.IsUnit, MixedStream.Calm, MixedStream.UnitBytes, MixedStream.AllUnitEvents;
    var events := MixedStream.AllUnitEvents(us);
    MixedStream.MixedChunking(Handler(true, clock, scan, info), Server(m, [], 0), us, chunks);
    ExecIsRun(m, events, true, clock, scan, info);
    var replies := Replies(m, events, clock, scan, info);
    SentIsReplies(events, replies);
    if Decodable(replies) {
      DecodableReplies(replies);
    }
    var s := After(m, events, true, clock, scan, info).0;
    if WritesLog(uses, s.log) && AofCodec.AllFit(CommandsIn(s.log)) {
      RestartsHold(m, RunOf(events, clock), false, scan, info, uses, k, crc, |RunOf(events, clock)|);
    }
  }

  // ---- inline ----------------------------------------------------------------------------

  /** What an inline client is told. */
  function InlineAnswer(e: Session.Event, r: Response): InlineReplies.InlineReply {
    if e.Run? then InlineReplies.Answer(e.command, r) else InlineReplies.Plain(r)
  }

  function InlineAnswers(events: seq<Session.Event>, rs: seq<Response>): seq<InlineReplies.InlineReply>
    requires |events| == |rs|
  {
    seq(|events|, i requires 0 <= i < |events| => InlineAnswer(events[i], rs[i]))
  }

  /** The replies that the inline protocol carries unharmed: a failed SET or INCR always, values
      without a CR that are not PONG or OK, errors without a CR, and all others. */
  predicate ClearReply(e: Session.Event, r: Response) {
    Representable(r) && ((e.Run? && Reworded(e.command, r)) || InlineReplies.Clear(r))
  }

  predicate AllClear(events: seq<Session.Event>, rs: seq<Response>)
    requires |events| == |rs|
  {
    forall i :: 0 <= i < |events| ==> ClearReply(events[i], rs[i])
  }

  lemma EventDecodes(e: Session.Event, r: Response, z: Bytes)
    requires ClearReply(e, r)
    ensures InlineReplies.DecodeInline(EventBytes(e, r, false) + z) == InlineReplies.Got(InlineAnswer(e, r), z)
  {
    hide InlineReplies.DecodeInline, Encoded, Representable, InlineReplies.Clear;
    if e.Run? {
      InlineReplies.InlineReplyDecodes(e.command, r, z);
    } else {
      InlineReplies.InlineReplyDecodes(Ping, r, z);
    }
  }

  lemma {:induction false} InlineDecodes(events: seq<Session.Event>, rs: seq<Response>)
    requires |events| == |rs| && AllClear(events, rs)
    ensures InlineReplies.DecodeAllInline(SentBytes(events, rs, false)) == Some(InlineAnswers(events, rs))
    decreases |events|
  {
    hide EventBytes, ClearReply, InlineAnswer, InlineReplies.DecodeInline;
    if events == [] {
      assert InlineAnswers(events, rs) == [];
    } else {
      assert ClearReply(events[0], rs[0]);
      var tail := SentBytes(events[1..], rs[1..], false);
      EventDecodes(events[0], rs[0], tail);
      InlineDecodes(events[1..], rs[1..]);
      DecodeStep(EventBytes(events[0], rs[0], false) + tail);
      assert InlineAnswers(events, rs) == [InlineAnswer(events[0], rs[0])] + InlineAnswers(events[1..], rs[1..]);
    }
  }

  lemma DecodeStep(s: Bytes)
    requires InlineReplies.DecodeInline(s).Got? && InlineReplies.DecodeAllInline(InlineReplies.DecodeInline(s).rest).Some?
    ensures
      var d := InlineReplies.DecodeInline(s);
      InlineReplies.DecodeAllInline(s) == Some([d.reply] + InlineReplies.DecodeAllInline(d.rest).value)
  {
    hide InlineReplies.DecodeInline;
  }

  /** End to end over the inline protocol, for every list of lines ended by CR LF, valid or not,
      and every chunking: each line is answered in order, the client decodes exactly the replies
      and errors, if they are clear, and a restart from the writer's file, which here also holds
      the failed writes, does as `RestartHolds` says. */
  lemma InlineEndToEnd(m: Engine.Store, lines: seq<Bytes>, chunks: seq<Bytes>, clock: Clock, scan: Scan, info: Bytes,
                       uses: seq<AofWriter.Use>, k: Key, crc: Snapshot.Crc)
    requires InlineSession.AllText(lines) && Monotone(clock, |InlineSession.AllEvents(lines)|)
    requires (forall i :: 0 <= i < |chunks| ==> chunks[i] != []) && Concat(chunks) == InlineSession.Lines(lines)
    requires !Session.Serve(Handler(false, clock, scan, info), Session.Opened(Server(m, [], 0)), chunks).closed
    ensures
      var events := InlineSession.AllEvents(lines);
      var run, replies := RunOf(events, clock), Replies(m, events, clock, scan, info);
      var s := Session.Serve(Handler(false, clock, scan, info), Session.Opened(Server(m, [], 0)), chunks);
      && s.readBuf == []
      && s.engine == Server(Served(m, run, scan, info), Trail(m, run, true, scan, info), |run|)
      && s.sent == SentBytes(events, replies, false)
      && (AllClear(events, replies) ==> InlineReplies.DecodeAllInline(s.sent) == Some(InlineAnswers(events, replies)))
      && (WritesLog(uses, s.engine.log) && AofCodec.AllFit(CommandsIn(s.engine.log)) ==>
            RestartHolds(m, s.engine, LastTime(run), uses, k, crc))
  {
    hide Session.Serve, Session.ExecAll, Handler, RestartHolds, AofCodec.Fits, SentBytes, Served, Trail, LastTime, Replies, AllClear, InlineAnswers;
    hide InlineSession.AllEvents, InlineSession.Lines, InlineSession.AllText, InlineReplies.DecodeAllInline;
    var events := InlineSession.AllEvents(lines);
    InlineSession.InlineChunking(Handler(false, clock, scan, info), Server(m, [], 0), lines, chunks);
    ExecIsRun(m, events, false, clock, scan, info);
    var replies := Replies(m, events, clock, scan, info);
    if AllClear(events, replies) {
      InlineDecodes(events, replies);
    }
    var s := After(m, events, false, clock, scan, info).0;
    if WritesLog(uses, s.log) && AofCodec.AllFit(CommandsIn(s.log)) {
      RestartsHold(m, RunOf(events, clock), true, scan, info, uses, k, crc, |RunOf(events, clock)|);
    }
  }

  // ---- commands typed as lines -------------------------------------------------------------

  /** Commands that an inline client can type and the fast parser takes. */
  predicate AllTypable(cmds: seq<Command>) {
    forall i :: 0 <= i < |cmds| ==> InlineMeaning.Typable(cmds[i]) && !(cmds[i].Set? && cmds[i].ttl.Some?)
  }

  function LinesOf(cmds: seq<Command>): seq<Bytes> {
    if cmds == [] then [] else [InlineMeaning.LineOf(cmds[0])] + LinesOf(cmds[1..])
  }

  lemma TypedLine(c: Command)
    requires InlineMeaning.Typable(c) && !(c.Set? && c.ttl.Some?)
    ensures InlineSession.IsText(InlineMeaning.LineOf(c)) && InlineSession.LineEvents(InlineMeaning.LineOf(c)) == [Session.Run(c)]
  {
    hide InlineMeaning.Typable;
    InlineMeaning.TypedLineParses(c, []);
    InlineMeaning.FastLineMeans(c);
    NotStar(c);
    hide InlineMeaning.LineOf, Words, BorrowedCommand;
  }

  lemma NotStar(c: Command)
    ensures InlineMeaning.LineOf(c) != [] ==> InlineMeaning.LineOf(c)[0] != RespParser.STAR
  {
    hide Itoa;
    var args := RespParser.ArgsOf(c);
    assert args != [] && args[0] != [] && args[0][0] != RespParser.STAR;
  }

  /** Typing commands is asking for exactly them. */
  lemma {:induction false} TypedLines(cmds: seq<Command>)
    requires AllTypable(cmds)
    ensures InlineSession.AllText(LinesOf(cmds)) && InlineSession.AllEvents(LinesOf(cmds)) == EventsOf(cmds)
    decreases |cmds|
  {
    hide InlineMeaning.Typable, InlineMeaning.LineOf, InlineSession.LineEvents, InlineSession.IsText;
    if cmds == [] {
      assert EventsOf(cmds) == [];
    } else {
      assert InlineMeaning.Typable(cmds[0]);
      TypedLine(cmds[0]);
      TypedLines(cmds[1..]);
      assert LinesOf(cmds)[1..] == LinesOf(cmds[1..]);
      assert EventsOf(cmds) == [Session.Run(cmds[0])] + EventsOf(cmds[1..]);
    }
  }

  /** The inline result for a list of commands, typed as their words joined by blanks. */
  lemma TypedEndToEnd(m: Engine.Store, cmds: seq<Command>, chunks: seq<Bytes>, clock: Clock, scan: Scan, info: Bytes)
    requires AllTypable(cmds) && Monotone(clock, |cmds|)
    requires (forall i :: 0 <= i < |chunks| ==> chunks[i] != []) && Concat(chunks) == InlineSession.Lines(LinesOf(cmds))
    requires !Session.Serve(Handler(false, clock, scan, info), Session.Opened(Server(m, [], 0)), chunks).closed
    ensures
      var run, replies := RunOf(EventsOf(cmds), clock), Replies(m, EventsOf(cmds), clock, scan, info);
      var s := Session.Serve(Handler(false, clock, scan, info), Session.Opened(Server(m, [], 0)), chunks);
      && s.readBuf == [] && s.engine == Server(Served(m, run, scan, info), Trail(m, run, true, scan, info), |cmds|)
      && (AllClear(EventsOf(cmds), replies) ==> InlineReplies.DecodeAllInline(s.sent) == Some(InlineAnswers(EventsOf(cmds), replies)))
  {
    hide Session.Serve, Handler, Served, Trail, Replies, AllClear, InlineAnswers, InlineReplies.DecodeAllInline;
    hide InlineSession.AllEvents, InlineSession.Lines, InlineSession.AllText, AllTypable, LinesOf, SentBytes, RestartHolds;
    TypedLines(cmds);
    RunOfCommands(cmds, clock);
    InlineEndToEnd(m, LinesOf(cmds), chunks, clock, scan, info, [], [], (b: Bytes) => 0);
  }
}
