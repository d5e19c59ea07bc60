/** The log writer shared by many tasks, as steps at lock boundaries. A task waits for the
    `file`, `batch` or `last_fsync` mutex and everything between two waits is one step. */
module WriterTasks {
  import opened Bytes
  import opened AofWriter

  // ---- what has been logged -----------------------------------------------------

  /** One entry in the file or the batch: the copy that an append put into the batch, or the
      second copy that the slow path writes. */
  datatype Item = Item(id: nat, entry: Bytes, copy: bool)

  /** The file and the batch as bytes and as items, the appends in batch-lock order, and the
      ids of those that found the batch full. `base` is what the file held before. */
  datatype LogState = LogState(
    base: Bytes, file: Bytes, batch: Bytes,
    order: seq<Bytes>, full: set<nat>,
    fileItems: seq<Item>, batchItems: seq<Item>)

  function Opened(base: Bytes): LogState {
    LogState(base, base, [], [], {}, [], [])
  }

  /** `batch.extend_from_slice(entry)` and the size test. */
  function Extend(l: LogState, e: Bytes): LogState {
    var id := |l.order|;
    l.(batch := l.batch + e,
       order := l.order + [e],
       full := if |l.batch + e| >= BATCH_SIZE then l.full + {id} else l.full,
       batchItems := l.batchItems + [Item(id, e, false)])
  }

  /** `file.write_all(&batch)` and `batch.clear()`. */
  function WriteBatch(l: LogState): LogState {
    l.(file := l.file + l.batch, batch := [],
       fileItems := l.fileItems + l.batchItems, batchItems := [])
  }

  /** The slow path of an append: the batch, then the entry once more. */
  function WriteAgain(l: LogState, id: nat, e: Bytes): LogState {
    var l1 := WriteBatch(l);
    l1.(file := l1.file + e, fileItems := l1.fileItems + [Item(id, e, true)])
  }

  /** The rename: the old file and all it held are gone. */
  function Replace(l: LogState, rewritten: Bytes): LogState {
    Opened(rewritten)
  }

  // ---- tasks and locks -------------------------------------------------------------

  datatype Lock = FileLock | BatchLock | LastLock

  /** Where a task is: idle, or waiting for a lock while holding those it names. */
  datatype Pc =
    | Idle
    | AppendBatch(entry: Bytes)                   // waits for batch
    | AppendFile(id: nat, entry: Bytes)           // waits for file
    | AppendFileBatch(id: nat, entry: Bytes)      // holds file, waits for batch
    | AppendFileLast                              // holds file, waits for last_fsync
    | FlushFile                                   // waits for file
    | FlushFileBatch                              // holds file, waits for batch
    | SwapFile(rewritten: Bytes)                  // waits for file
    | SwapFileBatch(rewritten: Bytes)             // holds file, waits for batch
    | TickLast                                    // waits for last_fsync
    | TickLastBatch                               // holds last_fsync, waits for batch
    | TickLastBatchFile                           // holds last_fsync and batch, waits for file
  {
    predicate Holds(k: Lock) {
      match k
      case FileLock => AppendFileBatch? || AppendFileLast? || FlushFileBatch? || SwapFileBatch?
      case BatchLock => TickLastBatchFile?
      case LastLock => TickLastBatch? || TickLastBatchFile?
    }

    predicate WaitsFor(k: Lock) {
      match k
      case FileLock => AppendFile? || FlushFile? || SwapFile? || TickLastBatchFile?
      case BatchLock => AppendBatch? || AppendFileBatch? || FlushFileBatch? || SwapFileBatch? || TickLastBatch?
      case LastLock => AppendFileLast? || TickLast?
    }

    /** Places that only the every-second policy has. */
    predicate EverysecOnly() { TickLast? || TickLastBatch? || TickLastBatchFile? || AppendFileLast? }

    predicate Swapping() { SwapFile? || SwapFileBatch? }

    /** An append that found the batch full and has not flushed it yet. */
    predicate Pending() { AppendFile? || AppendFileBatch? }
  }

  datatype State = State(policy: FsyncPolicy, log: LogState, tasks: seq<Pc>)

  function Initial(policy: FsyncPolicy, base: Bytes, n: nat): State {
    State(policy, Opened(base), seq(n, _ => Idle))
  }

  /** No task holds the lock. */
  predicate Free(tasks: seq<Pc>, k: Lock) {
    forall i :: 0 <= i < |tasks| ==> !tasks[i].Holds(k)
  }

  /** The lock that a task waits for is free. */
  predicate CanStep(s: State, i: nat) {
    i < |s.tasks| && exists k: Lock :: s.tasks[i].WaitsFor(k) && Free(s.tasks, k)
  }

  /** Where a task goes when it gets the lock it waits for. `elapsed` says whether a second has
      passed since the last fsync. */
  function Onward(s: State, pc: Pc, elapsed: bool): Pc {
    match pc
    case Idle => Idle
    case AppendBatch(e) => if |s.log.batch + e| < BATCH_SIZE then Idle else AppendFile(|s.log.order|, e)
    case AppendFile(id, e) => AppendFileBatch(id, e)
    case AppendFileBatch(id, e) => if s.policy.Everysec? then AppendFileLast else Idle
    case AppendFileLast => Idle
    case FlushFile => FlushFileBatch
    case FlushFileBatch => Idle
    case SwapFile(r) => SwapFileBatch(r)
    case SwapFileBatch(r) => Idle
    case TickLast => if elapsed then TickLastBatch else Idle
    case TickLastBatch => TickLastBatchFile
    case TickLastBatchFile => Idle
  }

  /** What it does to the file and the batch on the way. */
  function Logged(l: LogState, pc: Pc): LogState {
    match pc
    case AppendBatch(e) => Extend(l, e)
    case AppendFileBatch(id, e) => WriteAgain(l, id, e)
    case FlushFileBatch => WriteBatch(l)
    case TickLastBatchFile => WriteBatch(l)
    case SwapFileBatch(r) => Replace(l, r)
    case _ => l
  }

  /** What can happen: an idle task starts an operation, or a task takes a lock and goes on. */
  datatype Action =
    | StartAppend(i: nat, entry: Bytes)
    | StartFlush(i: nat)
    | StartSwap(i: nat, rewritten: Bytes)
    | StartTick(i: nat)
    | Go(i: nat, elapsed: bool)

  predicate Enabled(s: State, a: Action) {
    match a
    case Go(i, _) => CanStep(s, i)
    case StartTick(i) => i < |s.tasks| && s.tasks[i].Idle? && s.policy.Everysec?
    case _ => a.i < |s.tasks| && s.tasks[a.i].Idle?
  }

  function Target(s: State, a: Action): Pc
    requires Enabled(s, a)
  {
    match a
    case StartAppend(_, e) => AppendBatch(e)
    case StartFlush(_) => FlushFile
    case StartSwap(_, r) => SwapFile(r)
    case StartTick(_) => TickLast
    case Go(i, elapsed) => Onward(s, s.tasks[i], elapsed)
  }

  function Next(s: State, a: Action): (t: State)
    requires Enabled(s, a)
    ensures |t.tasks| == |s.tasks| && t.policy == s.policy
  {
    State(s.policy,
          if a.Go? then Logged(s.log, s.tasks[a.i]) else s.log,
          s.tasks[a.i := Target(s, a)])
  }

  /** A run: each action is enabled where it happens. */
  predicate Runs(s: State, actions: seq<Action>)
    decreases |actions|
  {
    actions == [] || (Enabled(s, actions[0]) && Runs(Next(s, actions[0]), actions[1..]))
  }

  function End(s: State, actions: seq<Action>): State
    requires Runs(s, actions)
    decreases |actions|
  {
    if actions == [] then s else End(Next(s, actions[0]), actions[1..])
  }

  // ---- locks ---------------------------------------------------------------------

  /** No lock is held twice, and only the every-second policy has a ticker. */
  predicate Locked(s: State) {
    && (forall i, j, k: Lock :: 0 <= i < j < |s.tasks| ==> !(s.tasks[i].Holds(k) && s.tasks[j].Holds(k)))
    && (!s.policy.Everysec? ==> forall i :: 0 <= i < |s.tasks| ==> !s.tasks[i].EverysecOnly())
  }

  /** A task that comes to hold a lock waited for it, and it was free. */
  lemma TakesFreeLocks(s: State, a: Action, k: Lock)
    requires Enabled(s, a) && Target(s, a).Holds(k) && !s.tasks[a.i].Holds(k)
    ensures Free(s.tasks, k)
  {
    hide Free;
    match a {
      case Go(i, _) =>
        var free :| s.tasks[i].WaitsFor(free) && Free(s.tasks, free);
        assert free == k;
      case _ => assert false;
    }
  }

  lemma TargetPolicy(s: State, a: Action)
    requires Enabled(s, a) && !s.policy.Everysec? && !s.tasks[a.i].EverysecOnly()
    ensures !Target(s, a).EverysecOnly()
  {
  }

  lemma LockedNext(s: State, a: Action)
    requires Locked(s) && Enabled(s, a)
    ensures Locked(Next(s, a))
  {
    hide Logged;
    var t := Next(s, a);
    if !s.policy.Everysec? {
      TargetPolicy(s, a);
    }
    hide Target, Enabled;
    forall k: Lock, i, j | 0 <= i < j < |t.tasks|
      ensures !(t.tasks[i].Holds(k) && t.tasks[j].Holds(k))
    {
      if (i == a.i || j == a.i) && t.tasks[i].Holds(k) && t.tasks[j].Holds(k) {
        if !s.tasks[a.i].Holds(k) {
          TakesFreeLocks(s, a, k);
        }
        assert false;
      }
    }
  }

  /** Mutual exclusion in every reachable state. */
  lemma {:induction false} LockedRun(s: State, actions: seq<Action>)
    requires Locked(s) && Runs(s, actions)
    ensures Locked(End(s, actions)) && |End(s, actions).tasks| == |s.tasks| && End(s, actions).policy == s.policy
    decreases |actions|
  {
    hide Locked, Next, Enabled;
    if actions != [] {
      LockedNext(s, actions[0]);
      LockedRun(Next(s, actions[0]), actions[1..]);
    }
  }

  // ---- deadlock ----------------------------------------------------------------------

  /** Some task is in the middle of an operation and no task can go on. */
  predicate Deadlocked(s: State) {
    && (exists i :: 0 <= i < |s.tasks| && !s.tasks[i].Idle?)
    && (forall i :: 0 <= i < |s.tasks| ==> !CanStep(s, i))
  }

  /** A ticker holds `batch` and waits for `file`, which another task holds. */
  predicate CrossedLocks(s: State) {
    !Free(s.tasks, BatchLock) && !Free(s.tasks, FileLock)
  }

  lemma CrossedBlocksAll(s: State, i: nat)
    requires CrossedLocks(s)
    ensures !CanStep(s, i)
  {
    var b :| 0 <= b < |s.tasks| && s.tasks[b].Holds(BatchLock);
    assert s.tasks[b].Holds(LastLock);
  }

  /** The writer is deadlocked exactly when the locks are crossed. */
  lemma DeadlockIsCrossedLocks(s: State)
    ensures Deadlocked(s) <==> CrossedLocks(s)
  {
    hide CanStep;
    if CrossedLocks(s) {
      forall i | 0 <= i < |s.tasks| ensures !CanStep(s, i) { CrossedBlocksAll(s, i); }
      var b :| 0 <= b < |s.tasks| && s.tasks[b].Holds(BatchLock);
      assert !s.tasks[b].Idle?;
    } else if Deadlocked(s) {
      Unblocked(s);
      assert false;
    }
  }

  /** The task that holds the innermost lock can go on. */
  lemma Unblocked(s: State)
    requires !CrossedLocks(s) && exists i :: 0 <= i < |s.tasks| && !s.tasks[i].Idle?
    ensures exists i :: 0 <= i < |s.tasks| && CanStep(s, i)
  {
    if !Free(s.tasks, BatchLock) {
      var i :| 0 <= i < |s.tasks| && s.tasks[i].Holds(BatchLock);
      CanTake(s, i, FileLock);
    } else if !Free(s.tasks, LastLock) {
      var i :| 0 <= i < |s.tasks| && s.tasks[i].Holds(LastLock);
      CanTake(s, i, BatchLock);
    } else if !Free(s.tasks, FileLock) {
      var i :| 0 <= i < |s.tasks| && s.tasks[i].Holds(FileLock);
      CanTake(s, i, if s.tasks[i].AppendFileLast? then LastLock else BatchLock);
    } else {
      var i :| 0 <= i < |s.tasks| && !s.tasks[i].Idle?;
      CanTake(s, i, Waited(s.tasks[i]));
    }
  }

  function Waited(pc: Pc): (k: Lock)
    requires !pc.Idle?
    ensures pc.WaitsFor(k)
  {
    if pc.WaitsFor(FileLock) then FileLock else if pc.WaitsFor(BatchLock) then BatchLock else LastLock
  }

  lemma CanTake(s: State, i: nat, k: Lock)
    requires i < |s.tasks| && s.tasks[i].WaitsFor(k) && Free(s.tasks, k)
    ensures CanStep(s, i)
  {
  }

  /** Under `always` and `no`, no reachable state is deadlocked, whatever appends, flushes and
      rewrites are under way. */
  lemma NoDeadlock(policy: FsyncPolicy, base: Bytes, n: nat, actions: seq<Action>)
    requires !policy.Everysec? && Runs(Initial(policy, base, n), actions)
    ensures !Deadlocked(End(Initial(policy, base, n), actions))
  {
    hide Runs, End, Deadlocked;
    var s := End(Initial(policy, base, n), actions);
    LockedRun(Initial(policy, base, n), actions);
    DeadlockIsCrossedLocks(s);
    assert Free(s.tasks, BatchLock);
  }

  /** The same proof cannot carry over to `everysec`: one append that fills the batch and one
      tick are enough to lock each other out. */
  lemma EverysecDeadlocks(base: Bytes, e: Bytes)
    requires |e| >= BATCH_SIZE
    ensures
      var s := Initial(Everysec, base, 2);
      var actions := [StartAppend(0, e), Go(0, false), Go(0, false), StartTick(1), Go(1, true), Go(1, false)];
      Runs(s, actions) && Deadlocked(End(s, actions))
  {
    hide Extend, Runs, End, Deadlocked, Next, Enabled, BATCH_SIZE;
    var s0 := Initial(Everysec, base, 2);
    var l := Extend(s0.log, e);
    var s1 := s0.(tasks := [AppendBatch(e), Idle]);
    var s6 := State(Everysec, l, [AppendFileBatch(0, e), TickLastBatchFile]);
    AppendTakesFile(s0, e);
    TickTakesBatch(l, AppendFileBatch(0, e));
    TraceRuns(
      [s0, s1,
       State(Everysec, l, [AppendFile(0, e), Idle]), State(Everysec, l, [AppendFileBatch(0, e), Idle]),
       State(Everysec, l, [AppendFileBatch(0, e), TickLast]), State(Everysec, l, [AppendFileBatch(0, e), TickLastBatch]), s6],
      [StartAppend(0, e), Go(0, false), Go(0, false), StartTick(1), Go(1, true), Go(1, false)]);
    assert s6.tasks[0].Holds(FileLock) && s6.tasks[1].Holds(BatchLock);
    DeadlockIsCrossedLocks(s6);
  }

  lemma AppendTakesFile(s0: State, e: Bytes)
    requires |e| >= BATCH_SIZE && s0.tasks == [Idle, Idle] && s0.log.order == []
    ensures
      var a, go := StartAppend(0, e), Go(0, false);
      var s1 := s0.(tasks := [AppendBatch(e), Idle]);
      var s2 := s1.(tasks := [AppendFile(0, e), Idle], log := Extend(s1.log, e));
      && Enabled(s0, a) && Next(s0, a) == s1
      && Enabled(s1, go) && Next(s1, go) == s2
      && Enabled(s2, go) && Next(s2, go) == s2.(tasks := [AppendFileBatch(0, e), Idle])
  {
    hide Extend;
    CanTake(s0.(tasks := [AppendBatch(e), Idle]), 0, BatchLock);
    CanTake(s0.(tasks := [AppendFile(0, e), Idle], log := Extend(s0.log, e)), 0, FileLock);
  }

  lemma TickTakesBatch(l: LogState, pc: Pc)
    requires pc.AppendFileBatch?
    ensures
      var tick, yes, no := StartTick(1), Go(1, true), Go(1, false);
      var s3 := State(Everysec, l, [pc, Idle]);
      var s4 := State(Everysec, l, [pc, TickLast]);
      var s5 := State(Everysec, l, [pc, TickLastBatch]);
      && Enabled(s3, tick) && Next(s3, tick) == s4
      && Enabled(s4, yes) && Next(s4, yes) == s5
      && Enabled(s5, no) && Next(s5, no) == State(Everysec, l, [pc, TickLastBatchFile])
  {
    CanTake(State(Everysec, l, [pc, TickLast]), 1, LastLock);
    CanTake(State(Everysec, l, [pc, TickLastBatch]), 1, BatchLock);
  }

  /** The states that a run goes through. */
  predicate Trace(states: seq<State>, actions: seq<Action>) {
    |states| == |actions| + 1 &&
    forall i :: 0 <= i < |actions| ==> Enabled(states[i], actions[i]) && Next(states[i], actions[i]) == states[i + 1]
  }

  lemma {:induction false} TraceRuns(states: seq<State>, actions: seq<Action>)
    requires Trace(states, actions)
    ensures Runs(states[0], actions) && End(states[0], actions) == states[|actions|]
    decreases |actions|
  {
    hide Next, Enabled;
    if actions != [] {
      TraceRuns(states[1..], actions[1..]);
    }
  }

  lemma CrossedStays(s: State, a: Action)
    requires CrossedLocks(s) && Enabled(s, a)
    ensures CrossedLocks(Next(s, a)) && Next(s, a).log == s.log
  {
    hide Logged, Onward, CanStep;
    CrossedBlocksAll(s, a.i);
    var b :| 0 <= b < |s.tasks| && s.tasks[b].Holds(BatchLock);
    var f :| 0 <= f < |s.tasks| && s.tasks[f].Holds(FileLock);
    assert Next(s, a).tasks[b].Holds(BatchLock) && Next(s, a).tasks[f].Holds(FileLock);
  }

  /** Once deadlocked, always deadlocked: nothing that starts later ever reaches the file or
      the batch. */
  lemma {:induction false} DeadlockIsForever(s: State, actions: seq<Action>)
    requires Deadlocked(s) && Runs(s, actions)
    ensures Deadlocked(End(s, actions)) && End(s, actions).log == s.log
    decreases |actions|
  {
    hide Next, Enabled, Deadlocked, CrossedLocks;
    if actions != [] {
      DeadlockIsCrossedLocks(s);
      CrossedStays(s, actions[0]);
      DeadlockIsCrossedLocks(Next(s, actions[0]));
      DeadlockIsForever(Next(s, actions[0]), actions[1..]);
    }
  }

  // ---- what the file holds ----------------------------------------------------------

  function BytesOf(items: seq<Item>): Bytes {
    if items == [] then [] else BytesOf(items[..|items| - 1]) + items[|items| - 1].entry
  }

  lemma {:induction false} BytesAppend(a: seq<Item>, b: seq<Item>)
    ensures BytesOf(a + b) == BytesOf(a) + BytesOf(b)
    decreases |b|
  {
    if b == [] {
      assert a + b == a;
    } else {
      var n := |b| - 1;
      assert (a + b)[..|a| + n] == a + b[..n];
      BytesAppend(a, b[..n]);
    }
  }

  /** The items that are not second copies. */
  function Firsts(items: seq<Item>): seq<Item> {
    if items == [] then []
    else
      var n := |items| - 1;
      Firsts(items[..n]) + (if items[n].copy then [] else [items[n]])
  }

  lemma {:induction false} FirstsAppend(a: seq<Item>, b: seq<Item>)
    ensures Firsts(a + b) == Firsts(a) + Firsts(b)
    decreases |b|
  {
    if b == [] {
      assert a + b == a;
    } else {
      var n := |b| - 1;
      assert (a + b)[..|a| + n] == a + b[..n];
      FirstsAppend(a, b[..n]);
    }
  }

  /** The appends in batch-lock order, as items. */
  function InOrder(order: seq<Bytes>): (r: seq<Item>)
    ensures |r| == |order|
    ensures forall i :: 0 <= i < |order| ==> r[i] == Item(i, order[i], false)
  {
    seq(|order|, i requires 0 <= i < |order| => Item(i, order[i], false))
  }

  /** Exactly one item per append is a first copy, in batch-lock order, and the bytes agree. */
  predicate Faithful(l: LogState) {
    && l.file == l.base + BytesOf(l.fileItems)
    && l.batch == BytesOf(l.batchItems)
    && Firsts(l.fileItems + l.batchItems) == InOrder(l.order)
    && (forall p :: 0 <= p < |l.batchItems| ==> !l.batchItems[p].copy)
  }

  predicate IsCopyOf(x: Item, id: nat) {
    x.copy && x.id == id
  }

  /** `id` has its second copy in the file. */
  predicate Copied(l: LogState, id: nat) {
    exists p :: 0 <= p < |l.fileItems| && IsCopyOf(l.fileItems[p], id)
  }

  /** A second copy belongs to an append that found the batch full and follows the first. */
  predicate LawfulCopy(l: LogState, p: nat)
    requires p < |l.fileItems|
  {
    var x := l.fileItems[p];
    x.id in l.full && x.id < |l.order| && x.entry == l.order[x.id]
    && Item(x.id, x.entry, false) in l.fileItems[..p]
  }

  /** Second copies are lawful and occur once. */
  predicate CopiesLawful(l: LogState) {
    && (forall p :: 0 <= p < |l.fileItems| && l.fileItems[p].copy ==> LawfulCopy(l, p))
    && (forall p, q :: 0 <= p < q < |l.fileItems| && l.fileItems[p].copy ==> !IsCopyOf(l.fileItems[q], l.fileItems[p].id))
    && (forall id :: id in l.full ==> id < |l.order|)
  }

  /** A task before its slow-path flush still owes its own second copy. */
  predicate Owes(l: LogState, pc: Pc) {
    pc.Pending() ==> pc.id in l.full && pc.id < |l.order| && pc.entry == l.order[pc.id] && !Copied(l, pc.id)
  }

  predicate OwedBy(tasks: seq<Pc>, id: nat) {
    exists i :: 0 <= i < |tasks| && tasks[i].Pending() && tasks[i].id == id
  }

  /** Each append that found the batch full has its second copy in the file or owed by exactly
      one task. */
  predicate Debts(l: LogState, tasks: seq<Pc>) {
    && (forall i :: 0 <= i < |tasks| ==> Owes(l, tasks[i]))
    && (forall i, j :: 0 <= i < j < |tasks| && tasks[i].Pending() && tasks[j].Pending() ==> tasks[i].id != tasks[j].id)
    && (forall id :: id in l.full ==> Copied(l, id) || OwedBy(tasks, id))
  }

  predicate SomePending(tasks: seq<Pc>) {
    exists i :: 0 <= i < |tasks| && tasks[i].Pending()
  }

  /** What every run without a rewrite keeps. */
  predicate LogInv(s: State) {
    && Faithful(s.log) && CopiesLawful(s.log) && Debts(s.log, s.tasks)
    && (|s.log.batch| >= BATCH_SIZE ==> SomePending(s.tasks))
    && (forall i :: 0 <= i < |s.tasks| ==> !s.tasks[i].Swapping())
  }

  lemma BytesOne(x: Item)
    ensures BytesOf([x]) == x.entry && Firsts([x]) == if x.copy then [] else [x]
  {
    assert [x][..0] == [];
  }

  lemma {:induction false} FirstsAreItems(items: seq<Item>, x: Item)
    requires x in Firsts(items)
    ensures x in items
    decreases |items|
  {
    if x in Firsts(items[..|items| - 1]) {
      FirstsAreItems(items[..|items| - 1], x);
    }
  }

  lemma ExtendFaithful(l: LogState, e: Bytes)
    requires Faithful(l)
    ensures Faithful(Extend(l, e))
  {
    hide BytesOf, Firsts;
    var x := Item(|l.order|, e, false);
    BytesOne(x);
    BytesAppend(l.batchItems, [x]);
    FirstsAppend(l.fileItems + l.batchItems, [x]);
    assert (l.fileItems + l.batchItems) + [x] == l.fileItems + (l.batchItems + [x]);
    assert InOrder(l.order) + [x] == InOrder(l.order + [e]);
  }

  lemma WriteBatchFaithful(l: LogState)
    requires Faithful(l)
    ensures Faithful(WriteBatch(l))
  {
    BytesAppend(l.fileItems, l.batchItems);
    hide Firsts;
    assert (l.base + BytesOf(l.fileItems)) + l.batch == l.base + (BytesOf(l.fileItems) + l.batch);
    assert (l.fileItems + l.batchItems) + [] == l.fileItems + l.batchItems;
  }

  lemma WriteCopyFaithful(l: LogState, id: nat, e: Bytes)
    requires Faithful(l) && l.batchItems == []
    ensures Faithful(l.(file := l.file + e, fileItems := l.fileItems + [Item(id, e, true)]))
  {
    hide Firsts, BytesOf;
    var x := Item(id, e, true);
    BytesOne(x);
    BytesAppend(l.fileItems, [x]);
    FirstsAppend(l.fileItems, [x]);
    assert (l.base + BytesOf(l.fileItems)) + e == l.base + (BytesOf(l.fileItems) + e);
    assert l.fileItems + [] == l.fileItems && Firsts(l.fileItems) + [] == Firsts(l.fileItems);
    assert (l.fileItems + [x]) + [] == l.fileItems + [x];
  }

  /** Writing out the batch adds no second copy. */
  lemma WriteBatchCopies(l: LogState)
    requires Faithful(l) && CopiesLawful(l)
    ensures CopiesLawful(WriteBatch(l))
    ensures forall id :: Copied(WriteBatch(l), id) <==> Copied(l, id)
  {
    hide Firsts, BytesOf;
    var t := WriteBatch(l);
    forall p | 0 <= p < |t.fileItems| && t.fileItems[p].copy
      ensures p < |l.fileItems| && LawfulCopy(t, p)
    {
      assert p < |l.fileItems|;
      assert LawfulCopy(l, p);
      assert t.fileItems[..p] == l.fileItems[..p];
    }
    forall id ensures Copied(t, id) <==> Copied(l, id) {
      if Copied(l, id) {
        var p :| 0 <= p < |l.fileItems| && IsCopyOf(l.fileItems[p], id);
        assert IsCopyOf(t.fileItems[p], id);
      }
    }
  }

  lemma WriteBatchDebts(l: LogState, tasks: seq<Pc>)
    requires Faithful(l) && CopiesLawful(l) && Debts(l, tasks)
    ensures Debts(WriteBatch(l), tasks)
  {
    hide Faithful, CopiesLawful, Copied, OwedBy;
    WriteBatchCopies(l);
    var t := WriteBatch(l);
    forall i | 0 <= i < |tasks| ensures Owes(t, tasks[i]) {
      assert Owes(l, tasks[i]);
    }
  }

  /** An append joins the batch; it owes a second copy if it found the batch full. */
  lemma ExtendCopies(l: LogState, e: Bytes)
    requires CopiesLawful(l)
    ensures CopiesLawful(Extend(l, e)) && !Copied(Extend(l, e), |l.order|)
    ensures forall id :: Copied(Extend(l, e), id) <==> Copied(l, id)
  {
    var t := Extend(l, e);
    forall p | 0 <= p < |t.fileItems| && t.fileItems[p].copy
      ensures LawfulCopy(t, p) && !IsCopyOf(t.fileItems[p], |l.order|)
    {
      assert LawfulCopy(l, p);
    }
  }

  lemma ExtendDebts(l: LogState, tasks: seq<Pc>, i: nat, e: Bytes)
    requires CopiesLawful(l) && Debts(l, tasks) && i < |tasks| && !tasks[i].Pending()
    ensures
      var full := |l.batch + e| >= BATCH_SIZE;
      Debts(Extend(l, e), tasks[i := if full then AppendFile(|l.order|, e) else Idle])
  {
    ExtendCopies(l, e);
    var t := Extend(l, e);
    var full := |l.batch + e| >= BATCH_SIZE;
    var after := tasks[i := if full then AppendFile(|l.order|, e) else Idle];
    hide Copied;
    forall j | 0 <= j < |after| ensures Owes(t, after[j]) {
      if j != i { assert Owes(l, tasks[j]); }
    }
    forall j | 0 <= j < |after| && after[j].Pending() && j != i ensures after[j].id < |l.order| {
      assert Owes(l, tasks[j]);
    }
    forall id | id in t.full ensures Copied(t, id) || OwedBy(after, id) {
      if id == |l.order| && full {
        assert after[i].Pending() && after[i].id == id;
      } else {
        StillOwed(tasks, i, after[i], id);
      }
    }
  }

  lemma StillOwed(tasks: seq<Pc>, i: nat, pc: Pc, id: nat)
    requires i < |tasks| && (tasks[i].Pending() && tasks[i].id == id ==> pc.Pending() && pc.id == id)
    ensures OwedBy(tasks, id) ==> OwedBy(tasks[i := pc], id)
  {
    if OwedBy(tasks, id) {
      var j :| 0 <= j < |tasks| && tasks[j].Pending() && tasks[j].id == id;
      assert tasks[i := pc][j].Pending() && tasks[i := pc][j].id == id;
    }
  }

  /** A move that leaves the log and the task's debt alone. */
  lemma MoveDebts(l: LogState, tasks: seq<Pc>, i: nat, pc: Pc)
    requires Debts(l, tasks) && i < |tasks| && (tasks[i].Pending() <==> pc.Pending())
    requires pc.Pending() ==> pc.id == tasks[i].id && pc.entry == tasks[i].entry
    ensures Debts(l, tasks[i := pc]) && (SomePending(tasks) ==> SomePending(tasks[i := pc]))
  {
    hide Copied, OwedBy;
    var after := tasks[i := pc];
    forall j | 0 <= j < |after| ensures Owes(l, after[j]) {
      assert Owes(l, tasks[j]) && Owes(l, tasks[i]);
    }
    forall id | id in l.full ensures Copied(l, id) || OwedBy(after, id) {
      StillOwed(tasks, i, pc, id);
    }
    if SomePending(tasks) {
      var j :| 0 <= j < |tasks| && tasks[j].Pending();
      assert after[j].Pending();
    }
  }

  /** The slow path pays the debt of its own append. */
  function PutCopy(l: LogState, id: nat, e: Bytes): LogState {
    l.(file := l.file + e, fileItems := l.fileItems + [Item(id, e, true)])
  }

  lemma PutCopyLawful(l: LogState, id: nat, e: Bytes)
    requires Faithful(l) && CopiesLawful(l) && l.batchItems == []
    requires id in l.full && id < |l.order| && e == l.order[id] && !Copied(l, id)
    ensures CopiesLawful(PutCopy(l, id, e))
    ensures forall other :: Copied(PutCopy(l, id, e), other) <==> (Copied(l, other) || other == id)
  {
    var t := PutCopy(l, id, e);
    var n := |l.fileItems|;
    FirstIsThere(l, id);
    hide Faithful;
    assert t.fileItems[..n] == l.fileItems && LawfulCopy(t, n);
    forall p | 0 <= p < n && l.fileItems[p].copy ensures LawfulCopy(t, p) && l.fileItems[p].id != id {
      assert LawfulCopy(l, p) && t.fileItems[..p] == l.fileItems[..p];
      assert !IsCopyOf(l.fileItems[p], id);
    }
    PutCopyCopied(l, id, e);
    hide LawfulCopy, Copied;
  }

  lemma PutCopyCopied(l: LogState, id: nat, e: Bytes)
    ensures forall other :: Copied(PutCopy(l, id, e), other) <==> (Copied(l, other) || other == id)
  {
    var t := PutCopy(l, id, e);
    assert IsCopyOf(t.fileItems[|l.fileItems|], id);
    forall other ensures Copied(t, other) <==> (Copied(l, other) || other == id) {
      if Copied(l, other) {
        var p :| 0 <= p < |l.fileItems| && IsCopyOf(l.fileItems[p], other);
        assert IsCopyOf(t.fileItems[p], other);
      }
    }
  }

  lemma FirstIsThere(l: LogState, id: nat)
    requires Faithful(l) && l.batchItems == [] && id < |l.order|
    ensures Item(id, l.order[id], false) in l.fileItems
  {
    hide Firsts, BytesOf;
    assert l.fileItems + [] == l.fileItems;
    assert InOrder(l.order)[id] == Item(id, l.order[id], false);
    FirstsAreItems(l.fileItems, Item(id, l.order[id], false));
  }

  lemma PutCopyDebts(l: LogState, tasks: seq<Pc>, i: nat, pc: Pc)
    requires Faithful(l) && CopiesLawful(l) && l.batchItems == []
    requires Debts(l, tasks) && i < |tasks| && tasks[i].Pending() && !pc.Pending()
    ensures CopiesLawful(PutCopy(l, tasks[i].id, tasks[i].entry))
    ensures Debts(PutCopy(l, tasks[i].id, tasks[i].entry), tasks[i := pc])
  {
    var id := tasks[i].id;
    var t := PutCopy(l, id, tasks[i].entry);
    assert Owes(l, tasks[i]);
    PutCopyLawful(l, id, tasks[i].entry);
    hide Copied, CopiesLawful, Faithful, OwedBy;
    var after := tasks[i := pc];
    forall j | 0 <= j < |after| ensures Owes(t, after[j]) {
      assert Owes(l, tasks[j]);
    }
    forall other | other in t.full ensures Copied(t, other) || OwedBy(after, other) {
      if other != id { StillOwed(tasks, i, pc, other); }
    }
  }

  // ---- every step keeps it -------------------------------------------------------

  lemma LogInvInitial(policy: FsyncPolicy, base: Bytes, n: nat)
    ensures LogInv(Initial(policy, base, n))
  {
    assert base + [] == base;
  }

  lemma ExtendKeeps(s: State, i: nat, e: Bytes)
    requires LogInv(s) && i < |s.tasks| && s.tasks[i] == AppendBatch(e)
    ensures LogInv(Moved(s, i, false))
  {
    hide Faithful, CopiesLawful, Debts;
    ExtendFaithful(s.log, e);
    ExtendCopies(s.log, e);
    ExtendDebts(s.log, s.tasks, i, e);
    var t := Moved(s, i, false);
    if |t.log.batch| >= BATCH_SIZE { assert t.tasks[i].Pending(); }
  }

  /** The state after task `i` goes on, whether or not it has its lock. */
  function Moved(s: State, i: nat, elapsed: bool): State
    requires i < |s.tasks|
  {
    State(s.policy, Logged(s.log, s.tasks[i]), s.tasks[i := Onward(s, s.tasks[i], elapsed)])
  }

  lemma FlushKeeps(s: State, i: nat, elapsed: bool)
    requires LogInv(s) && i < |s.tasks| && (s.tasks[i].FlushFileBatch? || s.tasks[i].TickLastBatchFile?)
    ensures LogInv(Moved(s, i, elapsed))
  {
    hide Faithful, CopiesLawful, Debts;
    WriteBatchFaithful(s.log);
    WriteBatchCopies(s.log);
    WriteBatchDebts(s.log, s.tasks);
    MoveDebts(WriteBatch(s.log), s.tasks, i, Idle);
  }

  lemma WriteAgainKeeps(s: State, i: nat, elapsed: bool)
    requires LogInv(s) && i < |s.tasks| && s.tasks[i].AppendFileBatch?
    ensures LogInv(Moved(s, i, elapsed))
  {
    hide Faithful, CopiesLawful, Debts;
    var l := WriteBatch(s.log);
    var pc := s.tasks[i];
    WriteBatchFaithful(s.log);
    WriteBatchCopies(s.log);
    WriteBatchDebts(s.log, s.tasks);
    WriteCopyFaithful(l, pc.id, pc.entry);
    PutCopyDebts(l, s.tasks, i, Onward(s, pc, elapsed));
    assert Moved(s, i, elapsed).log == PutCopy(l, pc.id, pc.entry);
  }

  lemma MoveKeeps(s: State, i: nat, pc: Pc)
    requires LogInv(s) && i < |s.tasks| && (s.tasks[i].Pending() <==> pc.Pending()) && !pc.Swapping()
    requires pc.Pending() ==> pc.id == s.tasks[i].id && pc.entry == s.tasks[i].entry
    ensures LogInv(s.(tasks := s.tasks[i := pc]))
  {
    hide Faithful, CopiesLawful, Debts;
    MoveDebts(s.log, s.tasks, i, pc);
  }

  lemma LogInvNext(s: State, a: Action)
    requires LogInv(s) && Enabled(s, a) && !a.StartSwap?
    ensures LogInv(Next(s, a)) && Next(s, a).log.base == s.log.base
  {
    assert a.i < |s.tasks|;
    if a.Go? {
      NotSwapping(s, a.i);
      LoggedBase(s.log, s.tasks[a.i]);
    }
    hide LogInv, CanStep, Logged;
    if a.Go? {
      var pc := s.tasks[a.i];
      assert Next(s, a) == Moved(s, a.i, a.elapsed);
      if pc.AppendBatch? {
        assert Moved(s, a.i, a.elapsed) == Moved(s, a.i, false);
        ExtendKeeps(s, a.i, pc.entry);
      } else if pc.AppendFileBatch? {
        WriteAgainKeeps(s, a.i, a.elapsed);
      } else if pc.FlushFileBatch? || pc.TickLastBatchFile? {
        FlushKeeps(s, a.i, a.elapsed);
      } else {
        LoggedSame(s.log, pc);
        MoveKeeps(s, a.i, Onward(s, pc, a.elapsed));
        assert Next(s, a) == s.(tasks := s.tasks[a.i := Onward(s, pc, a.elapsed)]);
      }
    } else {
      MoveKeeps(s, a.i, Target(s, a));
    }
  }

  lemma LoggedBase(l: LogState, pc: Pc)
    requires !pc.Swapping()
    ensures Logged(l, pc).base == l.base
  {
  }

  lemma LoggedSame(l: LogState, pc: Pc)
    requires !pc.AppendBatch? && !pc.AppendFileBatch? && !pc.FlushFileBatch? && !pc.TickLastBatchFile? && !pc.SwapFileBatch?
    ensures Logged(l, pc) == l
  {
  }

  lemma NotSwapping(s: State, i: nat)
    requires LogInv(s) && i < |s.tasks|
    ensures !s.tasks[i].Swapping()
  {
  }

  predicate NoSwaps(actions: seq<Action>) {
    forall i :: 0 <= i < |actions| ==> !actions[i].StartSwap?
  }

  lemma {:induction false} LogInvRun(s: State, actions: seq<Action>)
    requires LogInv(s) && Runs(s, actions) && NoSwaps(actions)
    ensures LogInv(End(s, actions)) && End(s, actions).log.base == s.log.base
    decreases |actions|
  {
    hide LogInv, Next, Enabled;
    if actions != [] {
      LogInvNext(s, actions[0]);
      LogInvRun(Next(s, actions[0]), actions[1..]);
    }
  }

  // ---- the main results ------------------------------------------------------------

  function EntriesOf(items: seq<Item>): seq<Bytes> {
    if items == [] then [] else EntriesOf(items[..|items| - 1]) + [items[|items| - 1].entry]
  }

  /** `a` can be had from `b` by leaving items out. */
  predicate Subsequence(a: seq<Bytes>, b: seq<Bytes>)
    decreases |b|
  {
    a == [] ||
    (b != [] &&
     var n := |b| - 1;
     Subsequence(a, b[..n]) || (a[|a| - 1] == b[n] && Subsequence(a[..|a| - 1], b[..n])))
  }

  lemma {:induction false} EntriesInOrder(order: seq<Bytes>)
    ensures EntriesOf(InOrder(order)) == order
    decreases |order|
  {
    if order != [] {
      var n := |order| - 1;
      EntriesInOrder(order[..n]);
      assert InOrder(order)[..n] == InOrder(order[..n]);
    }
  }

  lemma {:induction false} FirstsAreSubsequence(items: seq<Item>)
    ensures Subsequence(EntriesOf(Firsts(items)), EntriesOf(items))
    decreases |items|
  {
    if items != [] {
      var n := |items| - 1;
      FirstsAreSubsequence(items[..n]);
      var f := Firsts(items[..n]);
      assert EntriesOf(items)[..n] == EntriesOf(items[..n]) && EntriesOf(items)[n] == items[n].entry by { EntriesLength(items[..n]); }
      if items[n].copy {
        assert f + [] == f;
      } else {
        assert (f + [items[n]])[..|f|] == f;
        EntriesLength(f);
      }
    }
  }

  lemma {:induction false} EntriesLength(items: seq<Item>)
    ensures |EntriesOf(items)| == |items|
    decreases |items|
  {
    if items != [] { EntriesLength(items[..|items| - 1]); }
  }

  /** The file and the batch hold the appended entries in batch-lock order, and what else they
      hold is second copies, none of them in the batch. */
  predicate Kept(l: LogState) {
    var items := l.fileItems + l.batchItems;
    && l.file == l.base + BytesOf(l.fileItems) && l.batch == BytesOf(l.batchItems)
    && Firsts(items) == InOrder(l.order)
    && Subsequence(l.order, EntriesOf(items))
    && (forall p :: 0 <= p < |l.batchItems| ==> !l.batchItems[p].copy)
  }

  lemma FaithfulKept(l: LogState)
    requires Faithful(l)
    ensures Kept(l)
  {
    hide Firsts, BytesOf, Subsequence, EntriesOf;
    var items := l.fileItems + l.batchItems;
    EntriesInOrder(l.order);
    FirstsAreSubsequence(items);
  }

  /** In every interleaving of appends, flushes and ticks, the file and the batch hold the
      appended entries in batch-lock order, and whatever else they hold is one second copy of
      an append that found the batch full, after its first copy. */
  lemma AppendsAreKept(policy: FsyncPolicy, base: Bytes, n: nat, actions: seq<Action>)
    requires Runs(Initial(policy, base, n), actions) && NoSwaps(actions)
    ensures
      var l := End(Initial(policy, base, n), actions).log;
      l.base == base && Kept(l) && CopiesLawful(l)
  {
    hide Runs, End, Debts, CopiesLawful, Faithful, Kept;
    LogInvInitial(policy, base, n);
    LogInvRun(Initial(policy, base, n), actions);
    FaithfulKept(End(Initial(policy, base, n), actions).log);
  }

  /** A batch of 4096 bytes or more means that some appender has not flushed yet. So once all
      appends have returned, less than that is unwritten and every append that found the batch
      full is in the file exactly twice. */
  lemma UnwrittenIsSmall(policy: FsyncPolicy, base: Bytes, n: nat, actions: seq<Action>)
    requires Runs(Initial(policy, base, n), actions) && NoSwaps(actions)
    ensures
      var s := End(Initial(policy, base, n), actions);
      && (|s.log.batch| >= BATCH_SIZE ==> SomePending(s.tasks))
      && (!SomePending(s.tasks) ==> |s.log.batch| < BATCH_SIZE && forall id :: id in s.log.full ==> Copied(s.log, id))
  {
    LogInvInitial(policy, base, n);
    LogInvRun(Initial(policy, base, n), actions);
    hide Runs, End, Initial, Faithful, CopiesLawful, Copied;
  }

  // ---- copies out of order -----------------------------------------------------------

  /** Two appenders, the first of which fills the batch. The second also finds it full and is
      first to get the file: the file then ends with a stale copy of the first entry. Both
      appends have returned. */
  lemma CopyOvertakes(base: Bytes, a: Bytes, b: Bytes)
    requires |a| >= BATCH_SIZE
    ensures
      var s := Initial(No, base, 2);
      var actions := [StartAppend(0, a), Go(0, false), StartAppend(1, b), Go(1, false),
                      Go(1, false), Go(1, false), Go(0, false), Go(0, false)];
      && Runs(s, actions)
      && End(s, actions).tasks == [Idle, Idle]
      && End(s, actions).log.order == [a, b]
      && End(s, actions).log.file == base + a + b + b + a
      && End(s, actions).log.batch == []
  {
    hide Runs, End, Next, Enabled, Extend, WriteAgain, BATCH_SIZE;
    var s0 := Initial(No, base, 2);
    var l0 := s0.log;
    var l1 := Extend(l0, a);
    var l2 := Extend(l1, b);
    var l3 := WriteAgain(l2, 1, b);
    var l4 := WriteAgain(l3, 0, a);
    BothExtend(l0, a, b);
    SecondGoesFirst(l2, a, b);
    FirstGoesSecond(l3, a);
    OvertakenLog(base, a, b);
    assert s0 == State(No, l0, [Idle, Idle]);
    TraceRuns(
      [s0, State(No, l0, [AppendBatch(a), Idle]), State(No, l1, [AppendFile(0, a), Idle]),
       State(No, l1, [AppendFile(0, a), AppendBatch(b)]), State(No, l2, [AppendFile(0, a), AppendFile(1, b)]),
       State(No, l2, [AppendFile(0, a), AppendFileBatch(1, b)]), State(No, l3, [AppendFile(0, a), Idle]),
       State(No, l3, [AppendFileBatch(0, a), Idle]), State(No, l4, [Idle, Idle])],
      [StartAppend(0, a), Go(0, false), StartAppend(1, b), Go(1, false),
       Go(1, false), Go(1, false), Go(0, false), Go(0, false)]);
  }

  lemma OvertakenLog(base: Bytes, a: Bytes, b: Bytes)
    ensures
      var l := WriteAgain(WriteAgain(Extend(Extend(Opened(base), a), b), 1, b), 0, a);
      l.order == [a, b] && l.file == base + a + b + b + a && l.batch == []
  {
    var l2 := Extend(Extend(Opened(base), a), b);
    assert l2.batch == a + b && l2.file == base;
    assert WriteAgain(l2, 1, b).file == base + a + b + b;
    assert base + a + b + b + [] == base + a + b + b;
  }

  lemma BothExtend(l0: LogState, a: Bytes, b: Bytes)
    requires |a| >= BATCH_SIZE && l0 == Opened(l0.base)
    ensures
      var l1 := Extend(l0, a);
      var l2 := Extend(l1, b);
      var s0 := State(No, l0, [Idle, Idle]);
      var s1 := State(No, l0, [AppendBatch(a), Idle]);
      var s2 := State(No, l1, [AppendFile(0, a), Idle]);
      var s3 := State(No, l1, [AppendFile(0, a), AppendBatch(b)]);
      && Enabled(s0, StartAppend(0, a)) && Next(s0, StartAppend(0, a)) == s1
      && Enabled(s1, Go(0, false)) && Next(s1, Go(0, false)) == s2
      && Enabled(s2, StartAppend(1, b)) && Next(s2, StartAppend(1, b)) == s3
      && Enabled(s3, Go(1, false)) && Next(s3, Go(1, false)) == State(No, l2, [AppendFile(0, a), AppendFile(1, b)])
  {
    var l1 := Extend(l0, a);
    assert |l1.batch| >= BATCH_SIZE && |l1.batch + b| >= BATCH_SIZE && |l1.order| == 1;
    hide Extend, BATCH_SIZE;
    CanTake(State(No, l0, [AppendBatch(a), Idle]), 0, BatchLock);
    CanTake(State(No, l1, [AppendFile(0, a), AppendBatch(b)]), 1, BatchLock);
  }

  lemma SecondGoesFirst(l: LogState, a: Bytes, b: Bytes)
    ensures
      var s4 := State(No, l, [AppendFile(0, a), AppendFile(1, b)]);
      var s5 := State(No, l, [AppendFile(0, a), AppendFileBatch(1, b)]);
      && Enabled(s4, Go(1, false)) && Next(s4, Go(1, false)) == s5
      && Enabled(s5, Go(1, false)) && Next(s5, Go(1, false)) == State(No, WriteAgain(l, 1, b), [AppendFile(0, a), Idle])
  {
    hide WriteAgain;
    CanTake(State(No, l, [AppendFile(0, a), AppendFile(1, b)]), 1, FileLock);
    CanTake(State(No, l, [AppendFile(0, a), AppendFileBatch(1, b)]), 1, BatchLock);
  }

  lemma FirstGoesSecond(l: LogState, a: Bytes)
    ensures
      var s6 := State(No, l, [AppendFile(0, a), Idle]);
      var s7 := State(No, l, [AppendFileBatch(0, a), Idle]);
      && Enabled(s6, Go(0, false)) && Next(s6, Go(0, false)) == s7
      && Enabled(s7, Go(0, false)) && Next(s7, Go(0, false)) == State(No, WriteAgain(l, 0, a), [Idle, Idle])
  {
    hide WriteAgain;
    CanTake(State(No, l, [AppendFile(0, a), Idle]), 0, FileLock);
    CanTake(State(No, l, [AppendFileBatch(0, a), Idle]), 0, BatchLock);
  }

  // ---- a task by itself ----------------------------------------------------------------

  /** How many locks a task can still take. */
  function LocksLeft(pc: Pc): nat {
    match pc
    case Idle => 0
    case AppendBatch(_) => 4
    case AppendFile(_, _) => 3
    case AppendFileBatch(_, _) => 2
    case FlushFile => 2
    case SwapFile(_) => 2
    case TickLast => 3
    case TickLastBatch => 2
    case _ => 1
  }

  /** The locks that task `i` takes, in order, and what it leaves, when nobody else takes one. */
  function Alone(s: State, i: nat, elapsed: bool): (seq<Lock>, State)
    requires i < |s.tasks|
    decreases LocksLeft(s.tasks[i])
  {
    if s.tasks[i].Idle? then ([], s)
    else
      var (locks, t) := Alone(Moved(s, i, elapsed), i, elapsed);
      ([Waited(s.tasks[i])] + locks, t)
  }

  predicate OthersIdle(s: State, i: nat) {
    i < |s.tasks| && forall j :: 0 <= j < |s.tasks| && j != i ==> s.tasks[j].Idle?
  }

  lemma AloneCanStep(s: State, i: nat)
    requires OthersIdle(s, i) && !s.tasks[i].Idle?
    ensures CanStep(s, i)
  {
    var k := Waited(s.tasks[i]);
    assert Free(s.tasks, k);
  }

  /** That is a run: among idle tasks no lock is ever refused. */
  lemma {:induction false} AloneRuns(s: State, i: nat, elapsed: bool) returns (actions: seq<Action>)
    requires OthersIdle(s, i)
    ensures Runs(s, actions) && End(s, actions) == Alone(s, i, elapsed).1
    ensures |actions| == |Alone(s, i, elapsed).0| && forall a :: a in actions ==> a == Go(i, elapsed)
    ensures Alone(s, i, elapsed).1.tasks == s.tasks[i := Idle]
    decreases LocksLeft(s.tasks[i])
  {
    var go := Go(i, elapsed);
    if s.tasks[i].Idle? {
      actions := [];
    } else {
      AloneCanStep(s, i);
      var t := Moved(s, i, elapsed);
      assert LocksLeft(t.tasks[i]) < LocksLeft(s.tasks[i]);
      assert Next(s, go) == t;
      hide Logged, Onward, Next, CanStep;
      var rest := AloneRuns(t, i, elapsed);
      actions := [go] + rest;
      assert actions[1..] == rest;
    }
  }

  /** The engine of the log with task `i` at `pc`. */
  function At(s: State, i: nat, l: LogState, pc: Pc): State
    requires i < |s.tasks|
  {
    State(s.policy, l, s.tasks[i := pc])
  }

  lemma AloneStep(s: State, i: nat, l: LogState, pc: Pc, elapsed: bool)
    requires i < |s.tasks| && !pc.Idle?
    ensures
      var t := At(s, i, l, pc);
      var (locks, u) := Alone(At(s, i, Logged(l, pc), Onward(t, pc, elapsed)), i, elapsed);
      Alone(t, i, elapsed) == ([Waited(pc)] + locks, u)
  {
    hide Logged, Onward, Waited;
    var t := At(s, i, l, pc);
    assert Moved(t, i, elapsed) == At(s, i, Logged(l, pc), Onward(t, pc, elapsed));
  }

  lemma AloneDone(s: State, i: nat, l: LogState, elapsed: bool)
    requires i < |s.tasks|
    ensures Alone(At(s, i, l, Idle), i, elapsed) == ([], At(s, i, l, Idle))
  {
  }

  /** An append by itself is `append_raw`: the batch lock, and when the batch is full the file lock,
      the batch lock again and under every-second the lock of the last fsync. */
  lemma AloneAppend(s: State, i: nat, e: Bytes, elapsed: bool)
    requires i < |s.tasks| && s.tasks[i].Idle?
    ensures
      var (locks, t) := Alone(Next(s, StartAppend(i, e)), i, elapsed);
      && (t.log.file, t.log.batch) == AppendState(s.log.file, s.log.batch, e) && t.tasks == s.tasks
      && t.log.order == s.log.order + [e]
      && locks ==
           if |s.log.batch + e| < BATCH_SIZE then [BatchLock]
           else [BatchLock, FileLock, BatchLock] + (if s.policy.Everysec? then [LastLock] else [])
  {
    hide Alone;
    var l, id := s.log, |s.log.order|;
    var l1 := Extend(l, e);
    assert s.tasks[i := Idle] == s.tasks;
    assert Next(s, StartAppend(i, e)) == At(s, i, l, AppendBatch(e));
    AloneStep(s, i, l, AppendBatch(e), elapsed);
    if |l.batch + e| < BATCH_SIZE {
      AloneDone(s, i, l1, elapsed);
    } else {
      AloneStep(s, i, l1, AppendFile(id, e), elapsed);
      AloneStep(s, i, l1, AppendFileBatch(id, e), elapsed);
      var l2 := WriteAgain(l1, id, e);
      if s.policy.Everysec? {
        AloneStep(s, i, l2, AppendFileLast, elapsed);
      }
      AloneDone(s, i, l2, elapsed);
    }
  }

  /** A flush and a swap by themselves are `flush` and `finalize_rewrite`, a tick is
      `flush_if_needed`; flush and swap lock file and batch, the tick the other way round. */
  lemma AloneOthers(s: State, i: nat, r: Bytes, elapsed: bool)
    requires i < |s.tasks| && s.tasks[i].Idle?
    ensures
      var (locks, t) := Alone(Next(s, StartFlush(i)), i, elapsed);
      (t.log.file, t.log.batch) == (s.log.file + s.log.batch, []) && t.tasks == s.tasks && locks == [FileLock, BatchLock]
    ensures
      var (locks, t) := Alone(Next(s, StartSwap(i, r)), i, elapsed);
      (t.log.file, t.log.batch) == (r, []) && t.tasks == s.tasks && locks == [FileLock, BatchLock]
    ensures s.policy.Everysec? ==>
      var (locks, t) := Alone(Next(s, StartTick(i)), i, elapsed);
      && (t.log.file, t.log.batch) == (if elapsed then (s.log.file + s.log.batch, []) else (s.log.file, s.log.batch))
      && t.tasks == s.tasks && locks == if elapsed then [LastLock, BatchLock, FileLock] else [LastLock]
  {
    hide Alone;
    var l := s.log;
    assert s.tasks[i := Idle] == s.tasks;
    assert Next(s, StartFlush(i)) == At(s, i, l, FlushFile);
    AloneStep(s, i, l, FlushFile, elapsed);
    AloneStep(s, i, l, FlushFileBatch, elapsed);
    AloneDone(s, i, WriteBatch(l), elapsed);
    assert Next(s, StartSwap(i, r)) == At(s, i, l, SwapFile(r));
    AloneStep(s, i, l, SwapFile(r), elapsed);
    AloneStep(s, i, l, SwapFileBatch(r), elapsed);
    AloneDone(s, i, Replace(l, r), elapsed);
    if s.policy.Everysec? {
      assert Next(s, StartTick(i)) == At(s, i, l, TickLast);
      AloneStep(s, i, l, TickLast, elapsed);
      if elapsed {
        AloneStep(s, i, l, TickLastBatch, elapsed);
        AloneStep(s, i, l, TickLastBatchFile, elapsed);
      } else {
        AloneDone(s, i, l, elapsed);
      }
    }
  }
}
