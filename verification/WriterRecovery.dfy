/** What start-up makes of the file that several appenders wrote: when second copies are
    harmless, and a run where one is not. */
module WriterRecovery {
  import opened Bytes
  import opened Domain
  import opened AofCodec
  import opened Replay
  import opened Recovery
  import opened WriterTasks
  import AofWriter

  predicate InRange(items: seq<Item>, cs: seq<Command>) {
    forall p :: 0 <= p < |items| ==> items[p].id < |cs|
  }

  /** The command behind each item, given the commands in batch-lock order. */
  function Commands(items: seq<Item>, cs: seq<Command>): seq<Command>
    requires InRange(items, cs)
  {
    seq(|items|, p requires 0 <= p < |items| => cs[items[p].id])
  }

  predicate Touches(cs: seq<Command>, id: nat, k: Key) {
    id < |cs| && !EffectOn(cs[id], k).Keeps?
  }

  /** The second copy at `p` stands behind the first copy at `q` of a later append, and both
      touch `k`. */
  predicate Overtakes(items: seq<Item>, cs: seq<Command>, k: Key, q: nat, p: nat) {
    q < p < |items| && items[p].copy && !items[q].copy && items[p].id < items[q].id
    && Touches(cs, items[p].id, k) && Touches(cs, items[q].id, k)
  }

  ghost predicate NoneOvertakes(items: seq<Item>, cs: seq<Command>, k: Key) {
    forall q: nat, p: nat :: !Overtakes(items, cs, k, q, p)
  }

  /** First copies are numbered in order and each second copy comes after its first. */
  predicate Sequenced(items: seq<Item>) {
    forall n :: 0 <= n < |items| ==>
      var m := |Firsts(items[..n])|;
      if items[n].copy then items[n].id < m else items[n].id == m
  }

  /** Only commands up to `a` touch the key. */
  lemma {:induction false} LastTouch(cs: seq<Command>, a: nat, k: Key)
    requires Touches(cs, a, k) && forall b :: a < b < |cs| ==> !Touches(cs, b, k)
    ensures LastEffect(cs, k) == EffectOn(cs[a], k)
    decreases |cs|
  {
    hide EffectOn;
    var n := |cs| - 1;
    if a < n {
      assert !Touches(cs, n, k);
      assert forall b :: 0 <= b < n ==> Touches(cs[..n], b, k) == Touches(cs, b, k);
      LastTouch(cs[..n], a, k);
    }
  }

  lemma SequencedPrefix(items: seq<Item>, n: nat)
    requires Sequenced(items) && n <= |items|
    ensures Sequenced(items[..n])
  {
    hide Firsts;
    forall i | 0 <= i < n
      ensures items[..n][..i] == items[..i]
    {
    }
  }

  lemma {:induction false} HasFirst(items: seq<Item>, id: nat) returns (q: nat)
    requires Sequenced(items) && id < |Firsts(items)|
    ensures q < |items| && !items[q].copy && items[q].id == id
    decreases |items|
  {
    var n := |items| - 1;
    SequencedPrefix(items, n);
    if items[n].copy || id < |Firsts(items[..n])| {
      q := HasFirst(items[..n], id);
    } else {
      q := n;
    }
  }

  lemma FirstsBound(items: seq<Item>, cs: seq<Command>)
    requires Sequenced(items) && InRange(items, cs)
    ensures |Firsts(items)| <= |cs|
  {
    if |Firsts(items)| > |cs| {
      var q := HasFirst(items, |cs|);
    }
  }

  /** Unless a second copy overtakes, it has no effect that its first copy did not have. */
  lemma {:induction false} CopiesHarmless(items: seq<Item>, cs: seq<Command>, k: Key)
    requires Sequenced(items) && NoneOvertakes(items, cs, k)
    requires InRange(items, cs)
    ensures |Firsts(items)| <= |cs| && LastEffect(Commands(items, cs), k) == LastEffect(cs[..|Firsts(items)|], k)
    decreases |items|
  {
    hide EffectOn, NoneOvertakes, LastEffect;
    FirstsBound(items, cs);
    if items == [] {
      assert Commands(items, cs) == cs[..0];
    } else {
      var n := |items| - 1;
      var before := items[..n];
      SequencedPrefix(items, n);
      PrefixOvertakes(items, cs, k, n);
      var m := |Firsts(before)|;
      assert if items[n].copy then |Firsts(items)| == m else |Firsts(items)| == m + 1 && items[n].id == m;
      assert Commands(items, cs) == Commands(before, cs) + [cs[items[n].id]];
      hide Sequenced, Firsts, Commands;
      CopiesHarmless(before, cs, k);
      LastEffectSnoc(Commands(before, cs), cs[items[n].id], k);
      if items[n].copy {
        CopyAddsNothing(items, cs, k);
      } else {
        assert cs[..m + 1] == cs[..m] + [cs[m]];
        LastEffectSnoc(cs[..m], cs[m], k);
      }
    }
  }

  lemma PrefixOvertakes(items: seq<Item>, cs: seq<Command>, k: Key, n: nat)
    requires NoneOvertakes(items, cs, k) && n <= |items|
    ensures NoneOvertakes(items[..n], cs, k)
  {
    hide Touches;
    forall q: nat, p: nat ensures !Overtakes(items[..n], cs, k, q, p) {
      assert !Overtakes(items, cs, k, q, p);
    }
  }

  lemma CopyAddsNothing(items: seq<Item>, cs: seq<Command>, k: Key)
    requires Sequenced(items) && NoneOvertakes(items, cs, k) && items != [] && items[|items| - 1].copy
    requires InRange(items, cs)
    requires |Firsts(items[..|items| - 1])| <= |cs|
    ensures
      var c := cs[items[|items| - 1].id];
      EffectOn(c, k).Keeps? || EffectOn(c, k) == LastEffect(cs[..|Firsts(items[..|items| - 1])|], k)
  {
    hide EffectOn, LastEffect, Firsts;
    var n := |items| - 1;
    var a := items[n].id;
    var m := |Firsts(items[..n])|;
    if !EffectOn(cs[a], k).Keeps? {
      SequencedPrefix(items, n);
      forall b | a < b < m ensures !Touches(cs[..m], b, k) {
        var q := HasFirst(items[..n], b);
        assert !Overtakes(items, cs, k, q, n);
      }
      LastTouch(cs[..m], a, k);
    }
  }

  // ---- the writer's items ------------------------------------------------------------

  lemma {:induction false} FirstsPrefix(items: seq<Item>, n: nat)
    requires n <= |items|
    ensures |Firsts(items[..n])| <= |Firsts(items)| && Firsts(items[..n]) == Firsts(items)[..|Firsts(items[..n])|]
  {
    FirstsAppend(items[..n], items[n..]);
    assert items[..n] + items[n..] == items;
  }

  lemma KeptIsSequenced(l: LogState)
    requires Kept(l) && CopiesLawful(l) && l.batchItems == []
    ensures Sequenced(l.fileItems) && |Firsts(l.fileItems)| == |l.order|
    ensures forall p :: 0 <= p < |l.fileItems| ==> l.fileItems[p].id < |l.order| && l.fileItems[p].entry == l.order[l.fileItems[p].id]
  {
    var items := l.fileItems;
    assert items + [] == items;
    assert Firsts(items) == InOrder(l.order);
    hide Kept;
    forall n | 0 <= n < |items|
      ensures
        var m := |Firsts(items[..n])|;
        && (if items[n].copy then items[n].id < m else items[n].id == m)
        && items[n].id < |l.order| && items[n].entry == l.order[items[n].id]
    {
      ItemPlace(l, n);
    }
  }

  lemma ItemPlace(l: LogState, n: nat)
    requires CopiesLawful(l) && n < |l.fileItems| && Firsts(l.fileItems) == InOrder(l.order)
    ensures
      var x := l.fileItems[n];
      var m := |Firsts(l.fileItems[..n])|;
      && (if x.copy then x.id < m else x.id == m)
      && x.id < |l.order| && x.entry == l.order[x.id]
  {
    var items := l.fileItems;
    var x := items[n];
    FirstsPrefix(items, n);
    if x.copy {
      assert LawfulCopy(l, n);
      hide CopiesLawful;
      var f := Item(x.id, x.entry, false);
      ItemsAreFirsts(items[..n], f);
      var i :| 0 <= i < |Firsts(items[..n])| && Firsts(items[..n])[i] == f;
      assert InOrder(l.order)[i] == f;
    } else {
      hide CopiesLawful;
      FirstsPrefix(items, n + 1);
      assert items[..n + 1][..n] == items[..n];
      assert Firsts(items[..n + 1]) == Firsts(items[..n]) + [x];
      assert InOrder(l.order)[|Firsts(items[..n])|] == x;
    }
  }

  lemma {:induction false} ItemsAreFirsts(items: seq<Item>, x: Item)
    requires x in items && !x.copy
    ensures x in Firsts(items)
    decreases |items|
  {
    var n := |items| - 1;
    if x in items[..n] {
      ItemsAreFirsts(items[..n], x);
    } else {
      assert items == items[..n] + [items[n]];
    }
  }

  // ---- recovery from the file ----------------------------------------------------------

  /** The batch-lock order is that of the entries of `cs`. */
  predicate Logs(order: seq<Bytes>, cs: seq<Command>)
    requires AllEncodable(cs)
  {
    |order| == |cs| && forall i :: 0 <= i < |cs| ==> order[i] == Entry(cs[i])
  }

  lemma {:induction false} BytesAreLog(items: seq<Item>, cs: seq<Command>)
    requires AllEncodable(cs)
    requires forall p :: 0 <= p < |items| ==> items[p].id < |cs| && items[p].entry == Entry(cs[items[p].id])
    ensures AllEncodable(Commands(items, cs)) && BytesOf(items) == Log(Commands(items, cs))
    decreases |items|
  {
    hide Entry, Encodable;
    if items == [] {
      assert Commands(items, cs) == [];
    } else {
      var n := |items| - 1;
      BytesAreLog(items[..n], cs);
      var c := cs[items[n].id];
      assert Commands(items, cs) == Commands(items[..n], cs) + [c];
      LogAppend(Commands(items[..n], cs), [c]);
      AofWriter.LogTwo(c);
    }
  }

  /** In every interleaving, once the batch is written out, replaying the file gives key `k`
      the value of the appends in batch-lock order, unless some second copy overtook a later
      append to `k`. */
  lemma FileRecoversOrder(policy: AofWriter.FsyncPolicy, n: nat, actions: seq<Action>, cs: seq<Command>, clock: Clock, k: Key)
    requires Runs(Initial(policy, [], n), actions) && NoSwaps(actions)
    requires AllEncodable(cs) && AllPlain(cs)
    requires
      var l := End(Initial(policy, [], n), actions).log;
      l.batchItems == [] && Logs(l.order, cs) && NoneOvertakes(l.fileItems, cs, k)
    ensures
      var file := End(Initial(policy, [], n), actions).log.file;
      ValueAt(Replayed(map[], ReadLog(file, 0), clock), k) == ValueAt(Replayed(map[], cs, clock), k)
  {
    hide Runs, End, Kept, CopiesLawful, Replayed, ReadLog, Encodable, Plain, Entry, NoneOvertakes, LastEffect, ValueAt, Firsts, Sequenced, Initial;
    var l := End(Initial(policy, [], n), actions).log;
    AppendsAreKept(policy, [], n, actions);
    KeptFile(l);
    KeptIsSequenced(l);
    BytesAreLog(l.fileItems, cs);
    var all := Commands(l.fileItems, cs);
    LogRoundTrip(all);
    CopiesHarmless(l.fileItems, cs, k);
    assert cs[..|cs|] == cs;
    AllPlainCommands(l.fileItems, cs);
    EmptyStore();
    ReplayedPlain(map[], all, clock, k);
    ReplayedPlain(map[], cs, clock, k);
  }

  lemma KeptFile(l: LogState)
    requires Kept(l) && l.base == []
    ensures l.file == BytesOf(l.fileItems)
  {
    hide Firsts, Subsequence, EntriesOf, BytesOf;
  }

  lemma AllPlainCommands(items: seq<Item>, cs: seq<Command>)
    requires AllPlain(cs) && InRange(items, cs)
    ensures AllPlain(Commands(items, cs))
  {
    hide Plain;
  }

  // ---- appends that take turns -------------------------------------------------------

  /** The entry is a record that touches `k`. */
  predicate TouchingEntry(e: Bytes, k: Key) {
    e != [] && ReadRecord(e, 0).Apply? && !EffectOn(ReadRecord(e, 0).command, k).Keeps?
  }

  predicate TouchAt(order: seq<Bytes>, id: nat, k: Key) {
    id < |order| && TouchingEntry(order[id], k)
  }

  /** The task has begun an append to `k` and not yet written all of it. */
  predicate InFlight(pc: Pc, k: Key) {
    (pc.AppendBatch? || pc.Pending()) && TouchingEntry(pc.entry, k)
  }

  /** No append to `k` starts while another one is under way. */
  predicate TakesTurns(s: State, actions: seq<Action>, k: Key)
    requires Runs(s, actions)
    decreases |actions|
  {
    actions == [] ||
    (TurnFree(s, actions[0], k) && TakesTurns(Next(s, actions[0]), actions[1..], k))
  }

  predicate TurnFree(s: State, a: Action, k: Key) {
    a.StartAppend? && TouchingEntry(a.entry, k) ==> forall i :: 0 <= i < |s.tasks| ==> !InFlight(s.tasks[i], k)
  }

  predicate OneInFlight(tasks: seq<Pc>, k: Key) {
    forall i, j :: 0 <= i < j < |tasks| ==> !(InFlight(tasks[i], k) && InFlight(tasks[j], k))
  }

  /** An append that owes its second copy is the last one to `k`. */
  predicate OwesLast(order: seq<Bytes>, pc: Pc, k: Key) {
    pc.Pending() && TouchingEntry(pc.entry, k) ==> forall b :: pc.id < b < |order| ==> !TouchAt(order, b, k)
  }

  predicate AllOweLast(order: seq<Bytes>, tasks: seq<Pc>, k: Key) {
    forall i :: 0 <= i < |tasks| ==> OwesLast(order, tasks[i], k)
  }

  predicate Behind(items: seq<Item>, order: seq<Bytes>, k: Key, q: nat, p: nat) {
    q < p < |items| && items[p].copy && !items[q].copy && items[p].id < items[q].id
    && TouchAt(order, items[p].id, k) && TouchAt(order, items[q].id, k)
  }

  ghost predicate Orderly(items: seq<Item>, order: seq<Bytes>, k: Key) {
    forall q: nat, p: nat :: !Behind(items, order, k, q, p)
  }

  ghost predicate TurnInv(s: State, k: Key) {
    && OneInFlight(s.tasks, k)
    && AllOweLast(s.log.order, s.tasks, k)
    && Within(s.log.fileItems + s.log.batchItems, s.log.order)
    && Orderly(s.log.fileItems + s.log.batchItems, s.log.order, k)
  }

  predicate Within(items: seq<Item>, order: seq<Bytes>) {
    forall p :: 0 <= p < |items| ==> items[p].id < |order|
  }

  /** A new append is behind all copies. */
  lemma OrderlyExtend(items: seq<Item>, order: seq<Bytes>, k: Key, e: Bytes)
    requires Orderly(items, order, k) && Within(items, order)
    ensures Orderly(items + [Item(|order|, e, false)], order + [e], k)
    ensures Within(items + [Item(|order|, e, false)], order + [e])
  {
    hide TouchingEntry;
    var longer := items + [Item(|order|, e, false)];
    forall q: nat, p: nat ensures !Behind(longer, order + [e], k, q, p) {
      if p < |items| {
        assert !Behind(items, order, k, q, p);
      }
    }
  }

  /** The copy of the last append to `k` overtakes nothing. */
  lemma OrderlyCopy(items: seq<Item>, order: seq<Bytes>, k: Key, id: nat, e: Bytes)
    requires Orderly(items, order, k)
    requires TouchAt(order, id, k) ==> forall b :: id < b < |order| ==> !TouchAt(order, b, k)
    ensures Orderly(items + [Item(id, e, true)], order, k)
  {
    hide TouchingEntry;
    var longer := items + [Item(id, e, true)];
    forall q: nat, p: nat ensures !Behind(longer, order, k, q, p) {
      if p < |items| {
        assert !Behind(items, order, k, q, p);
      }
    }
  }

  lemma TurnMove(tasks: seq<Pc>, order: seq<Bytes>, i: nat, pc: Pc, k: Key)
    requires OneInFlight(tasks, k) && i < |tasks|
    requires AllOweLast(order, tasks, k)
    requires InFlight(pc, k) ==> InFlight(tasks[i], k) || forall j :: 0 <= j < |tasks| ==> !InFlight(tasks[j], k)
    requires OwesLast(order, pc, k)
    ensures OneInFlight(tasks[i := pc], k)
    ensures AllOweLast(order, tasks[i := pc], k)
  {
    hide OwesLast, InFlight;
  }

  /** Extending the batch: an append to `k` finds no other one owing a copy. */
  lemma OwesExtend(tasks: seq<Pc>, order: seq<Bytes>, i: nat, e: Bytes, k: Key)
    requires OneInFlight(tasks, k) && i < |tasks| && tasks[i] == AppendBatch(e)
    requires AllOweLast(order, tasks, k)
    ensures AllOweLast(order + [e], tasks, k)
    ensures OwesLast(order + [e], AppendFile(|order|, e), k)
  {
    hide TouchingEntry;
    forall j | 0 <= j < |tasks| ensures OwesLast(order + [e], tasks[j], k) {
      assert OwesLast(order, tasks[j], k);
      assert forall b :: 0 <= b < |order| ==> TouchAt(order + [e], b, k) == TouchAt(order, b, k);
      if TouchingEntry(e, k) && j != i {
        assert InFlight(tasks[i], k);
        assert !InFlight(tasks[j], k);
      }
    }
  }

  lemma TurnExtend(s: State, i: nat, e: Bytes, k: Key)
    requires TurnInv(s, k) && i < |s.tasks| && s.tasks[i] == AppendBatch(e)
    ensures TurnInv(Moved(s, i, false), k)
  {
    hide TouchingEntry, OwesLast, Orderly, Within;
    var l := s.log;
    OwesExtend(s.tasks, l.order, i, e, k);
    OrderlyExtend(l.fileItems + l.batchItems, l.order, k, e);
    var x := Item(|l.order|, e, false);
    assert (l.fileItems + l.batchItems) + [x] == l.fileItems + (l.batchItems + [x]);
    var pc := Onward(s, s.tasks[i], false);
    IdleOwes(l.order + [e], k);
    TurnMove(s.tasks, l.order + [e], i, pc, k);
  }

  lemma IdleOwes(order: seq<Bytes>, k: Key)
    ensures OwesLast(order, Idle, k) && OwesLast(order, AppendFileLast, k) && !InFlight(Idle, k) && !InFlight(AppendFileLast, k)
  {
  }

  lemma TurnFlush(s: State, i: nat, elapsed: bool, k: Key)
    requires TurnInv(s, k) && i < |s.tasks| && (s.tasks[i].FlushFileBatch? || s.tasks[i].TickLastBatchFile?)
    ensures TurnInv(Moved(s, i, elapsed), k)
  {
    hide TouchingEntry, OwesLast, Orderly, Within, OneInFlight;
    var l := s.log;
    assert (l.fileItems + l.batchItems) + [] == l.fileItems + l.batchItems;
    IdleOwes(l.order, k);
    TurnMove(s.tasks, l.order, i, Idle, k);
  }

  lemma TurnWriteAgain(s: State, i: nat, elapsed: bool, k: Key)
    requires TurnInv(s, k) && i < |s.tasks| && s.tasks[i].AppendFileBatch? && Owes(s.log, s.tasks[i])
    ensures TurnInv(Moved(s, i, elapsed), k)
  {
    hide TouchingEntry, Orderly, OneInFlight, Copied;
    var l, pc := s.log, s.tasks[i];
    var items, x := l.fileItems + l.batchItems, Item(pc.id, pc.entry, true);
    assert OwesLast(l.order, pc, k);
    OrderlyCopy(items, l.order, k, pc.id, pc.entry);
    assert (items + [x]) + [] == items + [x];
    IdleOwes(l.order, k);
    TurnMove(s.tasks, l.order, i, Onward(s, pc, elapsed), k);
  }

  lemma TurnNext(s: State, a: Action, k: Key)
    requires TurnInv(s, k) && LogInv(s) && Enabled(s, a) && !a.StartSwap? && TurnFree(s, a, k)
    ensures TurnInv(Next(s, a), k)
  {
    assert a.i < |s.tasks|;
    var pc := s.tasks[a.i];
    NotSwapping(s, a.i);
    assert Owes(s.log, pc);
    hide LogInv, CanStep, Logged, TurnInv;
    if a.Go? {
      assert Next(s, a) == Moved(s, a.i, a.elapsed);
      if pc.AppendBatch? {
        assert Moved(s, a.i, a.elapsed) == Moved(s, a.i, false);
        TurnExtend(s, a.i, pc.entry, k);
      } else if pc.AppendFileBatch? {
        TurnWriteAgain(s, a.i, a.elapsed, k);
      } else if pc.FlushFileBatch? || pc.TickLastBatchFile? {
        TurnFlush(s, a.i, a.elapsed, k);
      } else {
        LoggedSame(s.log, pc);
        TurnOther(s, a.i, Onward(s, pc, a.elapsed), k);
        assert Next(s, a) == s.(tasks := s.tasks[a.i := Onward(s, pc, a.elapsed)]);
      }
    } else {
      TurnOther(s, a.i, Target(s, a), k);
    }
  }

  /** A move that leaves the log alone and starts no append to `k` out of turn. */
  lemma TurnOther(s: State, i: nat, pc: Pc, k: Key)
    requires TurnInv(s, k) && i < |s.tasks|
    requires pc.Pending() ==> s.tasks[i].Pending() && pc.id == s.tasks[i].id && pc.entry == s.tasks[i].entry
    requires InFlight(pc, k) ==> InFlight(s.tasks[i], k) || forall j :: 0 <= j < |s.tasks| ==> !InFlight(s.tasks[j], k)
    ensures TurnInv(s.(tasks := s.tasks[i := pc]), k)
  {
    hide TouchingEntry, Orderly, OneInFlight, Within;
    assert OwesLast(s.log.order, s.tasks[i], k);
    TurnMove(s.tasks, s.log.order, i, pc, k);
  }

  lemma {:induction false} TurnRun(s: State, actions: seq<Action>, k: Key)
    requires TurnInv(s, k) && LogInv(s) && Runs(s, actions) && NoSwaps(actions) && TakesTurns(s, actions, k)
    ensures TurnInv(End(s, actions), k)
    decreases |actions|
  {
    hide TurnInv, LogInv, Next, Enabled, TurnFree;
    if actions != [] {
      LogInvNext(s, actions[0]);
      TurnNext(s, actions[0], k);
      TurnRun(Next(s, actions[0]), actions[1..], k);
    }
  }

  /** Appends to `k` that take turns leave no second copy behind a later append. */
  lemma TurnsOvertakeNothing(policy: AofWriter.FsyncPolicy, n: nat, actions: seq<Action>, cs: seq<Command>, k: Key)
    requires Runs(Initial(policy, [], n), actions) && NoSwaps(actions)
    requires TakesTurns(Initial(policy, [], n), actions, k) && AllEncodable(cs)
    requires
      var l := End(Initial(policy, [], n), actions).log;
      l.batchItems == [] && Logs(l.order, cs)
    ensures NoneOvertakes(End(Initial(policy, [], n), actions).log.fileItems, cs, k)
  {
    hide Runs, End, TakesTurns, LogInv, EffectOn, Entry, Encodable, TouchingEntry;
    var s := Initial(policy, [], n);
    LogInvInitial(policy, [], n);
    assert TurnInv(s, k);
    TurnRun(s, actions, k);
    var l := End(s, actions).log;
    assert l.fileItems + [] == l.fileItems;
    hide TurnInv, Initial;
    forall q: nat, p: nat ensures !Overtakes(l.fileItems, cs, k, q, p) {
      if q < p < |l.fileItems| {
        TouchIsTouch(l.order, cs, l.fileItems[p].id, k);
        TouchIsTouch(l.order, cs, l.fileItems[q].id, k);
        assert !Behind(l.fileItems, l.order, k, q, p);
      }
    }
  }

  lemma TouchIsTouch(order: seq<Bytes>, cs: seq<Command>, id: nat, k: Key)
    requires AllEncodable(cs) && Logs(order, cs)
    ensures Touches(cs, id, k) <==> TouchAt(order, id, k)
  {
    hide Entry, Encodable, ReadRecord, EffectOn;
    if id < |cs| {
      assert Encodable(cs[id]);
      RecordRoundTrip([], cs[id], []);
      assert [] + Entry(cs[id]) + [] == Entry(cs[id]);
    }
  }

  /** In every interleaving in which appends to `k` take turns, whatever happens to other keys
      meanwhile, the file restores `k` at its batch-lock-order value. */
  lemma TurnsRecover(policy: AofWriter.FsyncPolicy, n: nat, actions: seq<Action>, cs: seq<Command>, clock: Clock, k: Key)
    requires Runs(Initial(policy, [], n), actions) && NoSwaps(actions)
    requires TakesTurns(Initial(policy, [], n), actions, k)
    requires AllEncodable(cs) && AllPlain(cs)
    requires
      var l := End(Initial(policy, [], n), actions).log;
      l.batchItems == [] && Logs(l.order, cs)
    ensures
      var file := End(Initial(policy, [], n), actions).log.file;
      ValueAt(Replayed(map[], ReadLog(file, 0), clock), k) == ValueAt(Replayed(map[], cs, clock), k)
  {
    hide Runs, End, TakesTurns, Initial, NoneOvertakes, Encodable, Plain, Replayed, ReadLog, Logs;
    TurnsOvertakeNothing(policy, n, actions, cs, k);
    FileRecoversOrder(policy, n, actions, cs, clock, k);
  }

  /** A stale write that wins. Two clients set the same key; the engine and the batch see `first`
      and then `second`, both appends return, and yet replay restores `first`. */
  lemma StaleWriteRecovered(k: Key, first: Bytes, second: Bytes, clock: Clock)
    requires KeyFits(k) && ValueFits(first) && ValueFits(second)
    requires |first| >= AofWriter.BATCH_SIZE && first != second
    ensures
      var a, b := Set(k, first, None), Set(k, second, None);
      var s := Initial(AofWriter.No, [], 2);
      var actions := [StartAppend(0, Entry(a)), Go(0, false), StartAppend(1, Entry(b)), Go(1, false),
                      Go(1, false), Go(1, false), Go(0, false), Go(0, false)];
      && Runs(s, actions)
      && End(s, actions).tasks == [Idle, Idle]
      && End(s, actions).log.order == [Entry(a), Entry(b)]
      && ValueAt(Replayed(map[], ReadLog(End(s, actions).log.file, 0), clock), k) == Some(first)
      && ValueAt(Replayed(map[], [a, b], clock), k) == Some(second)
  {
    var a, b := Set(k, first, None), Set(k, second, None);
    EntryHoldsValue(k, first);
    hide Runs, End, Initial, Entry, ReadLog, Replayed, ValueAt, AofWriter.BATCH_SIZE;
    CopyOvertakes([], Entry(a), Entry(b));
    AllEncodableFour(a, b);
    LogRoundTrip([a, b, b, a]);
    LogFour(a, b);
    assert [] + Entry(a) == Entry(a);
    EmptyStore();
    ReplayedPlain(map[], [a, b, b, a], clock, k);
    ReplayedPlain(map[], [a, b], clock, k);
  }

  lemma EntryHoldsValue(k: Key, v: Bytes)
    ensures |Entry(Set(k, v, None))| >= |v|
  {
  }

  lemma AllEncodableFour(a: Command, b: Command)
    requires Encodable(a) && Encodable(b) && IsWrite(a) && IsWrite(b)
    ensures AllEncodable([a, b, b, a])
  {
    hide Encodable;
  }

  lemma LogFour(a: Command, b: Command)
    requires IsWrite(a) && IsWrite(b)
    ensures Log([a, b, b, a]) == Entry(a) + Entry(b) + Entry(b) + Entry(a)
  {
    hide Entry;
    AofWriter.LogTwo(a);
    AofWriter.LogTwo(b);
    LogAppend([b, b], [a]);
    LogAppend([a], [b, b, a]);
    assert [b, b] + [a] == [b, b, a] && [a] + [b, b, a] == [a, b, b, a];
  }
}
