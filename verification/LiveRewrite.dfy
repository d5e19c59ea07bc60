/** A log rewrite while a session keeps writing: one session, the rewriter and the flush ticker
    take steps in any order. Commands are TTL-free SET, DEL, MSET and FLUSHDB. */
module LiveRewrite {
  import opened Bytes
  import opened Domain
  import opened Engine
  import opened AofCodec
  import opened Replay
  import opened Snapshot
  import opened Recovery
  import AofWriter

  /** The session: between commands, calling the engine for what is left `todo` of a command,
      or past an append that filled the batch. */
  datatype Session = Ready | Working(command: Command, todo: seq<Command>) | Slow(command: Command)

  /** The rewriter: at rest, iterating over the map, or waiting to swap the file. `steady` are
      the keys that have been in the map since the iteration began. */
  datatype Rewriter = Resting | Dumping(out: seq<Command>, visited: set<Key>, steady: set<Key>) | Dumped(out: seq<Command>)

  /** The engine's map, the log as records in the file and in the batch, and the two tasks. */
  datatype State = State(m: Store, file: seq<Command>, batch: seq<Command>, session: Session, rewriter: Rewriter)

  datatype Action =
    | Begin(c: Command)
    | Call(now: Instant)        // the session's next engine call
    | Append                    // the command's record joins the batch
    | WriteAgain                // the slow path: the batch, then the record once more
    | Flush                     // the ticker
    | StartDump
    | Visit(k: Key)             // the iterator yields a key
    | EndDump
    | Swap                      // flush to the old file, then rename over it

  /** The engine calls of a command. */
  function CallsOf(c: Command): seq<Command> {
    match c
    case Mset(ps) => SetsOf(ps)
    case _ => [c]
  }

  function SetsOf(ps: seq<(Key, Bytes)>): seq<Command> {
    if ps == [] then [] else SetsOf(ps[..|ps| - 1]) + [Set(ps[|ps| - 1].0, ps[|ps| - 1].1, None)]
  }

  function Size(cs: seq<Command>): nat {
    if cs == [] then 0 else Size(cs[..|cs| - 1]) + (if IsWrite(cs[|cs| - 1]) then |Entry(cs[|cs| - 1])| else 0)
  }

  /** The iteration may end once it has seen every key that was there all along. */
  predicate Enabled(s: State, a: Action) {
    match a
    case Begin(c) => s.session.Ready? && Plain(c) && Encodable(c)
    case Call(_) => s.session.Working? && s.session.todo != []
    case Append => s.session.Working? && s.session.todo == []
    case WriteAgain => s.session.Slow?
    case Flush => true
    case StartDump => s.rewriter.Resting?
    case Visit(k) => s.rewriter.Dumping? && k in s.m
    case EndDump => s.rewriter.Dumping? && s.rewriter.steady <= s.rewriter.visited
    case Swap => s.rewriter.Dumped?
  }

  function Next(s: State, a: Action): State
    requires Enabled(s, a)
  {
    match a
    case Begin(c) => s.(session := Working(c, CallsOf(c)))
    case Call(now) =>
      var m := ApplyTo(s.m, s.session.todo[0], now);
      s.(m := m,
         session := s.session.(todo := s.session.todo[1..]),
         rewriter := if s.rewriter.Dumping? then s.rewriter.(steady := s.rewriter.steady * m.Keys) else s.rewriter)
    case Append =>
      var c := s.session.command;
      s.(batch := s.batch + [c],
         session := if Size(s.batch + [c]) < AofWriter.BATCH_SIZE then Ready else Slow(c))
    case WriteAgain => s.(file := s.file + s.batch + [s.session.command], batch := [], session := Ready)
    case Flush => s.(file := s.file + s.batch, batch := [])
    case StartDump => s.(rewriter := Dumping([], {}, s.m.Keys))
    case Visit(k) =>
      s.(rewriter := s.rewriter.(out := s.rewriter.out + [Set(k, s.m[k].data, None)], visited := s.rewriter.visited + {k}))
    case EndDump => s.(rewriter := Dumped(s.rewriter.out))
    case Swap => s.(file := s.rewriter.out, batch := [], rewriter := Resting)
  }

  predicate Runs(s: State, actions: seq<Action>)
    decreases |actions|
  {
    actions == [] || (Enabled(s, actions[0]) && Runs(Next(s, actions[0]), actions[1..]))
  }

  function End(s: State, actions: seq<Action>): State
    requires Runs(s, actions)
    decreases |actions|
  {
    if actions == [] then s else End(Next(s, actions[0]), actions[1..])
  }

  /** The session is not busy with a command that touches `k`. */
  predicate Idle(s: State, k: Key) {
    s.session.Ready? || EffectOn(s.session.command, k).Keeps?
  }

  /** From the start of a dump to the rename, no command that touches `k` is under way. */
  predicate Apart(s: State, k: Key) {
    s.rewriter.Resting? || Idle(s, k)
  }

  predicate AlwaysApart(s: State, actions: seq<Action>, k: Key)
    requires Runs(s, actions)
    decreases |actions|
  {
    Apart(s, k) && (actions == [] || AlwaysApart(Next(s, actions[0]), actions[1..], k))
  }

  // ---- what every step keeps ----------------------------------------------------------

  /** The value of `k` that the records restore. */
  function Restored(cs: seq<Command>, k: Key): Option<Bytes> {
    After(LastEffect(cs, k), None)
  }

  /** The log restores the live value, or will once the command under way is done. */
  predicate LogAgrees(s: State, k: Key) {
    var live := ValueAt(s.m, k);
    match s.session
    case Ready => Restored(s.file + s.batch, k) == live
    case Working(c, todo) =>
      if EffectOn(c, k).Keeps? then
        Restored(s.file + s.batch, k) == live && (forall i :: 0 <= i < |todo| ==> EffectOn(todo[i], k).Keeps?)
      else After(LastEffect(todo, k), live) == After(EffectOn(c, k), None)
    case Slow(c) => Restored(s.file + s.batch, k) == live && live == After(EffectOn(c, k), live)
  }

  /** A dump that is Apart from the commands on `k` has its live value as soon as it sees it. */
  predicate DumpAgrees(s: State, k: Key) {
    match s.rewriter
    case Resting => true
    case Dumping(out, visited, steady) =>
      && (k in s.m ==> k in steady)
      && (if k in visited then Restored(out, k) == ValueAt(s.m, k) else LastEffect(out, k).Keeps?)
      && (k in visited ==> k in s.m)
    case Dumped(out) => Restored(out, k) == ValueAt(s.m, k)
  }

  /** Everything in memory and in the log is plain and fits its field. */
  predicate Sound(s: State) {
    && Permanent(s.m) && Dumpable(s.m)
    && AllGood(s.file) && AllGood(s.batch)
    && (s.session.Working? ==> Plain(s.session.command) && Encodable(s.session.command) && AllGood(s.session.todo))
    && (s.session.Slow? ==> Plain(s.session.command) && Encodable(s.session.command))
    && (!s.rewriter.Resting? ==> AllGood(s.rewriter.out))
  }

  predicate AllGood(cs: seq<Command>) {
    forall i :: 0 <= i < |cs| ==> Plain(cs[i]) && Encodable(cs[i])
  }

  // ---- commands and their engine calls -------------------------------------------------

  lemma OneEffect(c: Command, k: Key)
    ensures LastEffect([c], k) == EffectOn(c, k)
  {
    hide EffectOn;
    assert [c][..0] == [];
  }

  lemma LastEffectCons(cs: seq<Command>, k: Key)
    requires cs != []
    ensures LastEffect(cs, k) == if LastEffect(cs[1..], k).Keeps? then EffectOn(cs[0], k) else LastEffect(cs[1..], k)
  {
    LastEffectAppend([cs[0]], cs[1..], k);
    OneEffect(cs[0], k);
    hide LastEffect, EffectOn;
    assert [cs[0]] + cs[1..] == cs;
  }

  lemma {:induction false} SetsEffect(ps: seq<(Key, Bytes)>, k: Key)
    ensures LastEffect(SetsOf(ps), k) == PairEffect(ps, k)
    ensures PairEffect(ps, k).Keeps? ==> forall i :: 0 <= i < |SetsOf(ps)| ==> EffectOn(SetsOf(ps)[i], k).Keeps?
    decreases |ps|
  {
    if ps != [] {
      var n := |ps| - 1;
      SetsEffect(ps[..n], k);
      LastEffectSnoc(SetsOf(ps[..n]), Set(ps[n].0, ps[n].1, None), k);
    }
  }

  /** The calls of a command do together what the command says. */
  lemma CallsEffect(c: Command, k: Key)
    ensures LastEffect(CallsOf(c), k) == EffectOn(c, k)
    ensures EffectOn(c, k).Keeps? ==> forall i :: 0 <= i < |CallsOf(c)| ==> EffectOn(CallsOf(c)[i], k).Keeps?
  {
    hide LastEffect, PairEffect, SetsOf;
    if c.Mset? {
      SetsEffect(c.pairs, k);
    } else {
      hide EffectOn;
      OneEffect(c, k);
    }
  }

  lemma {:induction false} SetsGood(ps: seq<(Key, Bytes)>)
    requires PairsFit(ps)
    ensures AllGood(SetsOf(ps))
    decreases |ps|
  {
    if ps != [] {
      SetsGood(ps[..|ps| - 1]);
    }
  }

  lemma CallsGood(c: Command)
    requires Plain(c) && Encodable(c)
    ensures AllGood(CallsOf(c))
  {
    if c.Mset? {
      SetsGood(c.pairs);
    }
  }

  // ---- soundness ------------------------------------------------------------------------

  lemma SoundNext(s: State, a: Action)
    requires Sound(s) && Enabled(s, a)
    ensures Sound(Next(s, a))
  {
    hide Encodable, Plain, ApplyTo, CallsOf, Dumpable, Permanent, Size;
    match a {
      case Begin(c) => CallsGood(c);
      case Call(now) =>
        ApplyPlain(s.m, s.session.todo[0], now, []);
        ApplyDumpable(s.m, s.session.todo[0], now);
      case Visit(k) => VisitGood(s.m, k);
      case _ =>
    }
  }

  lemma VisitGood(m: Store, k: Key)
    requires Dumpable(m) && k in m
    ensures Plain(Set(k, m[k].data, None)) && Encodable(Set(k, m[k].data, None))
  {
  }

  // ---- agreement ------------------------------------------------------------------------

  predicate Agrees(s: State, k: Key) {
    LogAgrees(s, k) && DumpAgrees(s, k)
  }

  lemma BeginAgrees(s: State, c: Command, k: Key)
    requires Enabled(s, Begin(c)) && Agrees(s, k)
    ensures Agrees(Next(s, Begin(c)), k)
  {
    hide EffectOn, CallsOf, LastEffect, Encodable, Plain;
    CallsEffect(c, k);
  }

  lemma CallAgrees(s: State, now: Instant, k: Key)
    requires Enabled(s, Call(now)) && Agrees(s, k) && Sound(s) && Apart(s, k)
    ensures Agrees(Next(s, Call(now)), k)
  {
    hide EffectOn, LastEffect, ApplyTo, Encodable, Plain, Dumpable, Permanent;
    var todo := s.session.todo;
    ApplyPlain(s.m, todo[0], now, k);
    LastEffectCons(todo, k);
    assert forall i :: 0 <= i < |todo[1..]| ==> todo[1..][i] == todo[i + 1];
    var m := ApplyTo(s.m, todo[0], now);
    assert EffectOn(s.session.command, k).Keeps? ==> EffectOn(todo[0], k).Keeps? && (k in m <==> k in s.m);
  }

  lemma AppendAgrees(s: State, k: Key)
    requires Enabled(s, Append) && Agrees(s, k)
    ensures Agrees(Next(s, Append), k)
  {
    LastEffectSnoc(s.file + s.batch, s.session.command, k);
    assert LastEffect([], k) == Keeps;
    hide EffectOn, LastEffect, Size, AofWriter.BATCH_SIZE;
    var c := s.session.command;
    assert (s.file + s.batch) + [c] == s.file + (s.batch + [c]);
  }

  lemma WriteAgainAgrees(s: State, k: Key)
    requires Enabled(s, WriteAgain) && Agrees(s, k)
    ensures Agrees(Next(s, WriteAgain), k)
  {
    LastEffectSnoc(s.file + s.batch, s.session.command, k);
    hide EffectOn, LastEffect;
    var all := s.file + s.batch + [s.session.command];
    assert all + [] == all;
  }

  lemma FlushAgrees(s: State, k: Key)
    requires Agrees(s, k)
    ensures Agrees(Next(s, Flush), k)
  {
    hide EffectOn, LastEffect;
    assert (s.file + s.batch) + [] == s.file + s.batch;
  }

  lemma VisitAgrees(s: State, j: Key, k: Key)
    requires Enabled(s, Visit(j)) && Agrees(s, k)
    ensures Agrees(Next(s, Visit(j)), k)
  {
    var c := Set(j, s.m[j].data, None);
    LastEffectSnoc(s.rewriter.out, c, k);
    assert EffectOn(c, k) == if j == k then Puts(s.m[j].data) else Keeps;
    hide LastEffect, EffectOn;
  }

  lemma SwapAgrees(s: State, k: Key)
    requires Enabled(s, Swap) && Agrees(s, k) && Idle(s, k)
    ensures Agrees(Next(s, Swap), k)
  {
    hide EffectOn, LastEffect;
    assert s.rewriter.out + [] == s.rewriter.out;
  }

  /** Every step keeps the agreement, as long as rewrites and commands on `k` stay apart. */
  lemma AgreesNext(s: State, a: Action, k: Key)
    requires Sound(s) && Enabled(s, a) && Agrees(s, k) && Apart(s, k)
    ensures Agrees(Next(s, a), k)
  {
    match a {
      case Begin(c) => BeginAgrees(s, c, k);
      case Call(now) => CallAgrees(s, now, k);
      case Append => AppendAgrees(s, k);
      case WriteAgain => WriteAgainAgrees(s, k);
      case Flush => FlushAgrees(s, k);
      case StartDump => hide EffectOn;
      case Visit(j) => VisitAgrees(s, j, k);
      case EndDump => hide EffectOn;
      case Swap => SwapAgrees(s, k);
    }
  }

  lemma {:induction false} AgreesRun(s: State, actions: seq<Action>, k: Key)
    requires Sound(s) && Agrees(s, k) && Runs(s, actions) && AlwaysApart(s, actions, k)
    ensures Sound(End(s, actions)) && Agrees(End(s, actions), k)
    decreases |actions|
  {
    hide Sound, Agrees, Next, Enabled, Apart;
    if actions != [] {
      SoundNext(s, actions[0]);
      AgreesNext(s, actions[0], k);
      AgreesRun(Next(s, actions[0]), actions[1..], k);
    }
  }

  // ---- recovery ------------------------------------------------------------------------

  /** A server that has started on the log `cs`. */
  function Started(cs: seq<Command>, clock: Clock): State {
    State(Replayed(map[], cs, clock), cs, [], Ready, Resting)
  }

  lemma StartedAgrees(cs: seq<Command>, clock: Clock, k: Key)
    requires AllGood(cs)
    ensures Sound(Started(cs, clock)) && Agrees(Started(cs, clock), k)
  {
    hide Encodable, Plain, LastEffect, Replayed;
    EmptyStore();
    GoodLog(cs);
    ReplayedPlain(map[], cs, clock, k);
    ReplayedDumpable(map[], cs, clock);
    assert cs + [] == cs;
  }

  lemma GoodLog(cs: seq<Command>)
    requires AllGood(cs)
    ensures AllPlain(cs) && AllEncodable(cs)
  {
    forall i | 0 <= i < |cs| ensures IsWrite(cs[i]) { PlainIsWrite(cs[i]); }
    hide Encodable, Plain;
  }

  lemma PlainIsWrite(c: Command)
    requires Plain(c)
    ensures IsWrite(c)
  {
  }

  /** Live rewrite. At every point of every run, and for every key whose commands do not overlap
      a rewrite, the bytes in the file and the batch restore the live value of the key. */
  lemma RewriteKeepsKey(cs: seq<Command>, c1: Clock, actions: seq<Action>, k: Key, c2: Clock)
    requires AllGood(cs) && Runs(Started(cs, c1), actions) && AlwaysApart(Started(cs, c1), actions, k)
    requires Idle(End(Started(cs, c1), actions), k)
    ensures
      var s := End(Started(cs, c1), actions);
      && AllEncodable(s.file) && AllEncodable(s.batch)
      && ValueAt(Replayed(map[], ReadLog(Log(s.file) + Log(s.batch), 0), c2), k) == ValueAt(s.m, k)
  {
    hide Runs, End, AlwaysApart, Started, Encodable, Plain, Replayed, ReadLog, Log, ValueAt, LastEffect, EffectOn, Apart, DumpAgrees;
    StartedAgrees(cs, c1, k);
    AgreesRun(Started(cs, c1), actions, k);
    var s := End(Started(cs, c1), actions);
    GoodLog(s.file);
    GoodLog(s.batch);
    GoodLog(s.file + s.batch);
    LogAppend(s.file, s.batch);
    LogRoundTrip(s.file + s.batch);
    EmptyStore();
    ReplayedPlain(map[], s.file + s.batch, c2, k);
  }

  // ---- a write that is lost --------------------------------------------------------------

  lemma {:induction false} TraceRuns(states: seq<State>, actions: seq<Action>)
    requires |states| == |actions| + 1
    requires forall i :: 0 <= i < |actions| ==> Enabled(states[i], actions[i]) && Next(states[i], actions[i]) == states[i + 1]
    ensures Runs(states[0], actions) && End(states[0], actions) == states[|actions|]
    decreases |actions|
  {
    hide Next, Enabled;
    if actions != [] {
      TraceRuns(states[1..], actions[1..]);
    }
  }

  lemma DumpSees(k: Key, e: ValueEntry, log: seq<Command>)
    ensures
      var s0 := State(map[k := e], log, [], Ready, Resting);
      var s1 := s0.(rewriter := Dumping([], {}, {k}));
      && Enabled(s0, StartDump) && Next(s0, StartDump) == s1
      && Enabled(s1, Visit(k))
      && Next(s1, Visit(k)) == s0.(rewriter := Dumping([Set(k, e.data, None)], {k}, {k}))
  {
    assert map[k := e].Keys == {k};
    assert [] + [Set(k, e.data, None)] == [Set(k, e.data, None)];
    assert {} + {k} == {k};
  }

  lemma SetLands(k: Key, e: ValueEntry, c: Command, now: Instant, log: seq<Command>, out: seq<Command>)
    requires c.Set? && c.key == k && c.ttl.None? && KeyFits(k) && ValueFits(c.value)
    requires Size([c]) < AofWriter.BATCH_SIZE
    ensures
      var m := map[k := SetEntry(c.value, None, now)];
      var dump := Dumping(out, {k}, {k});
      var s2 := State(map[k := e], log, [], Ready, dump);
      var s3 := State(map[k := e], log, [], Working(c, [c]), dump);
      var s4 := State(m, log, [], Working(c, []), dump);
      && Enabled(s2, Begin(c)) && Next(s2, Begin(c)) == s3
      && Enabled(s3, Call(now)) && Next(s3, Call(now)) == s4
      && Enabled(s4, Append) && Next(s4, Append) == State(m, log, [c], Ready, dump)
  {
    hide Size, AofWriter.BATCH_SIZE;
    assert [] + [c] == [c] && [c][1..] == [];
    var m := map[k := SetEntry(c.value, None, now)];
    assert ApplyTo(map[k := e], c, now) == m && {k} * m.Keys == {k};
  }

  /** Why the commands must stay apart: a SET that is dispatched and logged between the dump's
      visit and the rename is gone from the log, though the client was answered. */
  lemma OverlappingSetIsLost(k: Key, older: Bytes, newer: Bytes, clock: Clock)
    requires KeyFits(k) && ValueFits(older) && ValueFits(newer) && older != newer
    requires Size([Set(k, newer, None)]) < AofWriter.BATCH_SIZE
    ensures
      var s := Started([Set(k, older, None)], clock);
      var c := Set(k, newer, None);
      var actions := [StartDump, Visit(k), Begin(c), Call(clock(1)), Append, EndDump, Swap];
      && Runs(s, actions)
      && End(s, actions).session.Ready?
      && ValueAt(End(s, actions).m, k) == Some(newer)
      && Restored(End(s, actions).file + End(s, actions).batch, k) == Some(older)
  {
    hide Size, AofWriter.BATCH_SIZE, LastEffect, Started, Runs, End;
    var c0, c := Set(k, older, None), Set(k, newer, None);
    LostRun(c0, c, clock);
    OneEffect(c0, k);
    assert [c0] + [] == [c0];
  }

  lemma LostRun(c0: Command, c: Command, clock: Clock)
    requires c0.Set? && c0.ttl.None? && c.Set? && c.ttl.None? && c.key == c0.key
    requires KeyFits(c.key) && ValueFits(c.value) && Size([c]) < AofWriter.BATCH_SIZE
    ensures
      var s := Started([c0], clock);
      var actions := [StartDump, Visit(c.key), Begin(c), Call(clock(1)), Append, EndDump, Swap];
      && Runs(s, actions)
      && End(s, actions) == State(map[c.key := SetEntry(c.value, None, clock(1))], [c0], [], Ready, Resting)
  {
    hide Size, AofWriter.BATCH_SIZE, LastEffect, Started, Runs, End, Next, Enabled;
    var k := c.key;
    var e0, e1 := SetEntry(c0.value, None, clock(0)), SetEntry(c.value, None, clock(1));
    var dump := Dumping([c0], {k}, {k});
    StartedOn(c0, clock);
    DumpSees(k, e0, [c0]);
    SetLands(k, e0, c, clock(1), [c0], [c0]);
    DumpEnds(map[k := e1], [c0], [c], k);
    TraceRuns(
      [Started([c0], clock), State(map[k := e0], [c0], [], Ready, Dumping([], {}, {k})),
       State(map[k := e0], [c0], [], Ready, dump), State(map[k := e0], [c0], [], Working(c, [c]), dump),
       State(map[k := e1], [c0], [], Working(c, []), dump), State(map[k := e1], [c0], [c], Ready, dump),
       State(map[k := e1], [c0], [c], Ready, Dumped([c0])), State(map[k := e1], [c0], [], Ready, Resting)],
      [StartDump, Visit(k), Begin(c), Call(clock(1)), Append, EndDump, Swap]);
  }

  lemma DumpEnds(m: Store, log: seq<Command>, batch: seq<Command>, k: Key)
    ensures
      var s5 := State(m, log, batch, Ready, Dumping(log, {k}, {k}));
      var s6 := State(m, log, batch, Ready, Dumped(log));
      && Enabled(s5, EndDump) && Next(s5, EndDump) == s6
      && Enabled(s6, Swap) && Next(s6, Swap) == State(m, log, [], Ready, Resting)
  {
  }

  lemma StartedOn(c: Command, clock: Clock)
    requires c.Set? && c.ttl.None?
    ensures Started([c], clock) == State(map[c.key := SetEntry(c.value, None, clock(0))], [c], [], Ready, Resting)
  {
    ReplayedNil(map[], clock);
    ReplayedSnoc(map[], [], c, clock);
    assert [] + [c] == [c];
  }
}
