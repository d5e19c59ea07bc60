/** Per-thread command counters that are moved to shared atomics in batches, in wrapping 64-bit
    arithmetic. A column is one of the 14 command types or the total. */
module Metrics {
  import opened Bytes

  const NUM_COMMAND_TYPES: nat := 14
  const FLUSH_BATCH: nat := 64

  /** The column of `commands_total`. */
  const TOTAL: nat := NUM_COMMAND_TYPES

  type Word = x: int | 0 <= x < TWO64

  type PerType = s: seq<Word> | |s| == NUM_COMMAND_TYPES witness [0, 0, 0, 0, 0, 0, 0, 0, 0, 0, 0, 0, 0, 0]

  datatype Counts = Counts(byType: PerType, total: Word) {
    function At(col: nat): Word
      requires col <= TOTAL
    {
      if col == TOTAL then total else byType[col]
    }

    function With(col: nat, x: Word): Counts
      requires col <= TOTAL
    {
      if col == TOTAL then Counts(byType, x) else Counts(byType[col := x], total)
    }
  }

  function Add(a: Word, b: Word): Word {
    if a + b < TWO64 then a + b else a + b - TWO64
  }

  function Sub(a: Word, b: Word): Word {
    if a >= b then a - b else a - b + TWO64
  }

  // ---- single calls ---------------------------------------------------------------

  /** The local side of recording a command. */
  function Noted(l: Counts, c: nat): Counts
    requires c < NUM_COMMAND_TYPES
  {
    l.With(TOTAL, Add(l.total, 1)).With(c, Add(l.At(c), 1))
  }

  /** `x` moves from a local column to the shared one. */
  function Moved(g: Counts, l: Counts, col: nat, x: Word): (Counts, Counts)
    requires col <= TOTAL
  {
    (g.With(col, Add(g.At(col), x)), l.With(col, Sub(l.At(col), x)))
  }

  /** `record_command`, run by itself. */
  function RecordState(g: Counts, l: Counts, c: nat): (Counts, Counts)
    requires c < NUM_COMMAND_TYPES
  {
    var l1 := Noted(l, c);
    if l1.total % FLUSH_BATCH != 0 then (g, l1)
    else
      var (g2, l2) := Moved(g, l1, TOTAL, FLUSH_BATCH);
      Moved(g2, l2, c, FLUSH_BATCH)
  }

  /** The first `n` columns of a `flush_all`, the total being moved first. */
  function FlushState(g: Counts, l: Counts, n: nat): (Counts, Counts)
    requires n <= NUM_COMMAND_TYPES
  {
    if n == 0 then Moved(g, l, TOTAL, l.total)
    else
      var (g1, l1) := FlushState(g, l, n - 1);
      Moved(g1, l1, n - 1, l1.At(n - 1))
  }

  class LocalCounters {
    var commandsTotal: Word
    var commandsByType: PerType

    ghost function Value(): Counts reads this { Counts(commandsByType, commandsTotal) }
  }

  class Metrics {
    var commandsTotal: Word
    var commandsByType: PerType

    ghost function Value(): Counts reads this { Counts(commandsByType, commandsTotal) }

    /** `record_command`. */
    method RecordCommand(local: LocalCounters, cmd: nat)
      requires cmd < NUM_COMMAND_TYPES
      modifies this, local
      ensures (Value(), local.Value()) == RecordState(old(Value()), old(local.Value()), cmd)
    {
      local.commandsTotal := Add(local.commandsTotal, 1);
      local.commandsByType := local.commandsByType[cmd := Add(local.commandsByType[cmd], 1)];
      if local.commandsTotal % FLUSH_BATCH == 0 {
        commandsTotal := Add(commandsTotal, FLUSH_BATCH);
        commandsByType := commandsByType[cmd := Add(commandsByType[cmd], FLUSH_BATCH)];
        local.commandsTotal := Sub(local.commandsTotal, FLUSH_BATCH);
        local.commandsByType := local.commandsByType[cmd := Sub(local.commandsByType[cmd], FLUSH_BATCH)];
      }
    }

    /** `command_count`: the shared count and the calling thread's own. */
    method CommandCount(local: LocalCounters, cmd: nat) returns (n: Word)
      requires cmd < NUM_COMMAND_TYPES
      ensures n == Add(Value().At(cmd), local.Value().At(cmd))
    {
      n := Add(commandsByType[cmd], local.commandsByType[cmd]);
    }

    /** `total_commands`. */
    method TotalCommands(local: LocalCounters) returns (n: Word)
      ensures n == Add(Value().At(TOTAL), local.Value().At(TOTAL))
    {
      n := Add(commandsTotal, local.commandsTotal);
    }

    /** The command counters of `flush_all`. */
    method FlushAll(local: LocalCounters)
      modifies this, local
      ensures (Value(), local.Value()) == FlushState(old(Value()), old(local.Value()), NUM_COMMAND_TYPES)
    {
      if local.commandsTotal > 0 {
        commandsTotal := Add(commandsTotal, local.commandsTotal);
        local.commandsTotal := 0;
      }
      for i := 0 to NUM_COMMAND_TYPES
        invariant (Value(), local.Value()) == FlushState(old(Value()), old(local.Value()), i)
      {
        assert commandsByType == commandsByType[i := commandsByType[i]];
        assert local.commandsByType == local.commandsByType[i := local.commandsByType[i]];
        if local.commandsByType[i] > 0 {
          commandsByType := commandsByType[i := Add(commandsByType[i], local.commandsByType[i])];
          local.commandsByType := local.commandsByType[i := 0];
        }
      }
    }
  }

  // ---- threads ----------------------------------------------------------------------

  /** Where a thread is inside a call. Each step makes at most one access to a shared atomic. */
  datatype Pc = Idle | CrossTotal(c: nat) | CrossType(c: nat) | FlushTotal | FlushType(c: nat) {
    predicate Valid() {
      match this
      case CrossTotal(c) => c < NUM_COMMAND_TYPES
      case CrossType(c) => c < NUM_COMMAND_TYPES
      case FlushType(c) => c < NUM_COMMAND_TYPES
      case _ => true
    }
  }

  datatype Thread = Thread(pc: Pc, local: Counts)

  /** The shared counters, the threads, and how often each column was counted, unbounded. */
  datatype State = State(shared: Counts, threads: seq<Thread>, recorded: seq<nat>)

  datatype Action = Record(t: nat, c: nat) | StartFlush(t: nat) | Go(t: nat)

  predicate Enabled(s: State, a: Action) {
    a.t < |s.threads| &&
    var th := s.threads[a.t];
    match a
    case Record(_, c) => th.pc.Idle? && c < NUM_COMMAND_TYPES
    case StartFlush(_) => th.pc.Idle?
    case Go(_) => !th.pc.Idle?
  }

  /** What a thread inside a call moves next: the column and the amount. */
  function Moving(th: Thread): (r: (nat, Word))
    requires !th.pc.Idle? && th.pc.Valid()
    ensures r.0 <= TOTAL
  {
    match th.pc
    case CrossTotal(c) => (TOTAL, FLUSH_BATCH)
    case CrossType(c) => (c, FLUSH_BATCH)
    case FlushTotal => (TOTAL, th.local.total)
    case FlushType(c) => (c, th.local.At(c))
  }

  function Onward(pc: Pc): Pc {
    match pc
    case CrossTotal(c) => CrossType(c)
    case FlushTotal => FlushType(0)
    case FlushType(c) => if c + 1 < NUM_COMMAND_TYPES then FlushType(c + 1) else Idle
    case _ => Idle
  }

  predicate Shaped(s: State) {
    |s.recorded| == TOTAL + 1 && forall t :: 0 <= t < |s.threads| ==> s.threads[t].pc.Valid()
  }

  function Next(s: State, a: Action): State
    requires Shaped(s) && Enabled(s, a)
  {
    var th := s.threads[a.t];
    match a
    case Record(t, c) =>
      var l := Noted(th.local, c);
      var pc := if l.total % FLUSH_BATCH == 0 then CrossTotal(c) else Idle;
      State(s.shared, s.threads[t := Thread(pc, l)],
            s.recorded[TOTAL := s.recorded[TOTAL] + 1][c := s.recorded[c] + 1])
    case StartFlush(t) => s.(threads := s.threads[t := th.(pc := FlushTotal)])
    case Go(t) =>
      var (col, x) := Moving(th);
      var (g, l) := Moved(s.shared, th.local, col, x);
      s.(shared := g, threads := s.threads[t := Thread(Onward(th.pc), l)])
  }

  /** The sum of a column over all threads, unbounded. */
  function Sum(threads: seq<Thread>, col: nat): nat
    requires col <= TOTAL
  {
    if threads == [] then 0 else Sum(threads[..|threads| - 1], col) + threads[|threads| - 1].local.At(col)
  }

  lemma {:induction false} SumUpdate(threads: seq<Thread>, t: nat, th: Thread, col: nat)
    requires t < |threads| && col <= TOTAL
    ensures Sum(threads[t := th], col) == Sum(threads, col) - threads[t].local.At(col) + th.local.At(col)
    decreases |threads|
  {
    var n := |threads| - 1;
    if t == n {
      assert threads[t := th][..n] == threads[..n];
    } else {
      assert threads[t := th][..n] == threads[..n][t := th];
      SumUpdate(threads[..n], t, th, col);
    }
  }

  /** The shared count and all local counts make up the recorded number, modulo 2^64. */
  predicate Balanced(s: State, col: nat)
    requires Shaped(s) && col <= TOTAL
  {
    (s.shared.At(col) + Sum(s.threads, col) - s.recorded[col]) % TWO64 == 0
  }

  /** A thread's total is below the batch size, and equal to it only while crossing. */
  predicate SmallTotal(th: Thread) {
    if th.pc.CrossTotal? then th.local.total == FLUSH_BATCH else th.local.total < FLUSH_BATCH
  }

  ghost predicate Inv(s: State) {
    && Shaped(s)
    && (forall col :: 0 <= col <= TOTAL ==> Balanced(s, col))
    && (forall t :: 0 <= t < |s.threads| ==> SmallTotal(s.threads[t]))
  }

  lemma Shift(x: int, y: int)
    requires x % TWO64 == 0 && (y == x || y == x + TWO64 || y == x - TWO64)
    ensures y % TWO64 == 0
  {
  }

  lemma NotedBalance(s: State, a: Action, col: nat)
    requires Shaped(s) && a.Record? && Enabled(s, a) && col <= TOTAL && Balanced(s, col)
    ensures Shaped(Next(s, a)) && Balanced(Next(s, a), col)
  {
    var n := Next(s, a);
    SumUpdate(s.threads, a.t, n.threads[a.t], col);
    Shift(s.shared.At(col) + Sum(s.threads, col) - s.recorded[col],
          n.shared.At(col) + Sum(n.threads, col) - n.recorded[col]);
  }

  lemma MovedShift(g: Counts, l: Counts, from: nat, x: Word, col: nat)
    requires from <= TOTAL && col <= TOTAL
    ensures
      var (g', l') := Moved(g, l, from, x);
      var d := g'.At(col) + l'.At(col) - g.At(col) - l.At(col);
      d == 0 || d == TWO64 || d == -TWO64
  {
  }

  lemma MovedBalance(s: State, a: Action, col: nat)
    requires Shaped(s) && a.Go? && Enabled(s, a) && col <= TOTAL && Balanced(s, col)
    ensures Shaped(Next(s, a)) && Balanced(Next(s, a), col)
  {
    hide Moved, Moving;
    var n := Next(s, a);
    var th := s.threads[a.t];
    SumUpdate(s.threads, a.t, n.threads[a.t], col);
    MovedShift(s.shared, th.local, Moving(th).0, Moving(th).1, col);
    hide Sum;
    Shift(s.shared.At(col) + Sum(s.threads, col) - s.recorded[col],
          n.shared.At(col) + Sum(n.threads, col) - n.recorded[col]);
  }

  lemma StartBalance(s: State, a: Action, col: nat)
    requires Shaped(s) && a.StartFlush? && Enabled(s, a) && col <= TOTAL && Balanced(s, col)
    ensures Shaped(Next(s, a)) && Balanced(Next(s, a), col)
  {
    SumUpdate(s.threads, a.t, Next(s, a).threads[a.t], col);
  }

  lemma SmallNext(s: State, a: Action)
    requires Shaped(s) && Enabled(s, a) && SmallTotal(s.threads[a.t])
    ensures SmallTotal(Next(s, a).threads[a.t])
  {
  }

  /** Every step of every thread keeps the balance of every column. */
  lemma InvNext(s: State, a: Action)
    requires Inv(s) && Enabled(s, a)
    ensures Inv(Next(s, a)) && |Next(s, a).threads| == |s.threads|
  {
    assert a.t < |s.threads|;
    var n := Next(s, a);
    assert n.threads == s.threads[a.t := n.threads[a.t]];
    hide Balanced, Enabled, SmallTotal, Next;
    forall col | 0 <= col <= TOTAL ensures Shaped(n) && Balanced(n, col) {
      match a {
        case Record(_, _) => NotedBalance(s, a, col);
        case StartFlush(_) => StartBalance(s, a, col);
        case Go(_) => MovedBalance(s, a, col);
      }
    }
    SmallNext(s, a);
  }

  predicate Runs(s: State, actions: seq<Action>)
    decreases |actions|
  {
    actions == [] || (Shaped(s) && Enabled(s, actions[0]) && Runs(Next(s, actions[0]), actions[1..]))
  }

  function End(s: State, actions: seq<Action>): State
    requires Runs(s, actions)
    decreases |actions|
  {
    if actions == [] then s else End(Next(s, actions[0]), actions[1..])
  }

  lemma {:induction false} InvRun(s: State, actions: seq<Action>)
    requires Inv(s) && Runs(s, actions)
    ensures Inv(End(s, actions)) && |End(s, actions).threads| == |s.threads|
    decreases |actions|
  {
    hide Inv, Next, Enabled;
    if actions != [] {
      InvNext(s, actions[0]);
      InvRun(Next(s, actions[0]), actions[1..]);
    }
  }

  const NOTHING: Counts := Counts([0, 0, 0, 0, 0, 0, 0, 0, 0, 0, 0, 0, 0, 0], 0)

  function Initial(n: nat): State {
    State(NOTHING, seq(n, _ => Thread(Idle, NOTHING)), seq(TOTAL + 1, _ => 0))
  }

  lemma {:induction false} NothingSums(threads: seq<Thread>, col: nat)
    requires col <= TOTAL && forall t :: 0 <= t < |threads| ==> threads[t].local.At(col) == 0
    ensures Sum(threads, col) == 0
    decreases |threads|
  {
    if threads != [] {
      NothingSums(threads[..|threads| - 1], col);
    }
  }

  lemma InitialInv(n: nat)
    ensures Inv(Initial(n))
  {
    forall col | 0 <= col <= TOTAL ensures Balanced(Initial(n), col) {
      NothingSums(Initial(n).threads, col);
    }
  }

  // ---- the main results ------------------------------------------------------------

  lemma SameWord(x: int, y: int)
    ensures (x - y) % TWO64 == 0 <==> WrapU64(x) == WrapU64(y)
  {
  }

  /** Conservation. However calls interleave, the shared count and the local counts of all
      threads add up to the number recorded modulo 2^64, for every type and for the total; and
      between calls a thread's local total is at most 63. */
  lemma CountsConserved(n: nat, actions: seq<Action>, col: nat)
    requires Runs(Initial(n), actions) && col <= TOTAL
    ensures
      var s := End(Initial(n), actions);
      && Shaped(s) && |s.threads| == n
      && WrapU64(s.shared.At(col) + Sum(s.threads, col)) == WrapU64(s.recorded[col])
      && forall t :: 0 <= t < n && s.threads[t].pc.Idle? ==> s.threads[t].local.total < FLUSH_BATCH
  {
    hide Runs, End, Sum, WrapU64;
    InitialInv(n);
    InvRun(Initial(n), actions);
    var s := End(Initial(n), actions);
    assert Balanced(s, col);
    SameWord(s.shared.At(col) + Sum(s.threads, col), s.recorded[col]);
  }

  /** After every thread has flushed, the shared counters alone are exact modulo 2^64. */
  lemma FlushedIsExact(n: nat, actions: seq<Action>, col: nat)
    requires Runs(Initial(n), actions) && col <= TOTAL
    requires forall t :: 0 <= t < |End(Initial(n), actions).threads| ==> End(Initial(n), actions).threads[t].local.At(col) == 0
    ensures Shaped(End(Initial(n), actions))
    ensures End(Initial(n), actions).shared.At(col) == WrapU64(End(Initial(n), actions).recorded[col])
  {
    hide Runs, End, Sum, Inv, Shaped;
    CountsConserved(n, actions, col);
    NothingSums(End(Initial(n), actions).threads, col);
  }

  /** `command_count` on thread `t` is the recorded number exactly when the local counts of the
      other threads cancel out: it does not add them up, though its comment says so. */
  lemma CommandCountIs(n: nat, actions: seq<Action>, t: nat, c: nat)
    requires Runs(Initial(n), actions) && c < NUM_COMMAND_TYPES && t < |End(Initial(n), actions).threads|
    ensures
      var s := End(Initial(n), actions);
      var own := s.threads[t].local.At(c);
      && Shaped(s)
      && (Add(s.shared.At(c), own) == WrapU64(s.recorded[c]) <==> (Sum(s.threads, c) - own) % TWO64 == 0)
  {
    hide Runs, End, Sum, Inv;
    CountsConserved(n, actions, c);
    var s := End(Initial(n), actions);
    var own := s.threads[t].local.At(c);
    CancelWord(s.shared.At(c), own, Sum(s.threads, c) - own, s.recorded[c]);
  }

  lemma CancelWord(g: Word, own: Word, others: int, recorded: int)
    requires WrapU64(g + (own + others)) == WrapU64(recorded)
    ensures Add(g, own) == WrapU64(recorded) <==> others % TWO64 == 0
  {
    SameWord(g + (own + others), recorded);
    SameWord(g + own, recorded);
    assert Add(g, own) == WrapU64(g + own);
    hide WrapU64;
    var d := g + own - recorded;
    assert d + others == g + (own + others) - recorded;
  }

  /** The smallest run where it is wrong: one thread has counted a command, and another one asks
      for the count and is told zero. */
  lemma CommandCountMisses(c: nat)
    requires c < NUM_COMMAND_TYPES
    ensures
      var run := [Record(0, c)];
      && Runs(Initial(2), run)
      && var s := End(Initial(2), run);
         Shaped(s) && |s.threads| == 2 && s.recorded[c] == 1 && Add(s.shared.At(c), s.threads[1].local.At(c)) == 0
  {
    var s := Initial(2);
    assert Shaped(s) && Enabled(s, Record(0, c));
    var t := Next(s, Record(0, c));
    hide Next;
    assert [Record(0, c)][1..] == [];
    assert Runs(t, []) && End(t, []) == t;
  }

  /** A local per-type count wraps below zero exactly when the command that completes a batch is
      not the only type in it. */
  lemma BatchBorrows(g: Counts, l: Counts, c: nat)
    requires c < NUM_COMMAND_TYPES && l.total == FLUSH_BATCH - 1 && l.At(c) < FLUSH_BATCH
    ensures
      var (g', l') := RecordState(g, l, c);
      && l'.total == 0
      && g'.At(c) == Add(g.At(c), FLUSH_BATCH)
      && (l'.At(c) >= TWO63 <==> l.At(c) < FLUSH_BATCH - 1)
      && (l.At(c) < FLUSH_BATCH - 1 ==> l'.At(c) == TWO64 - (FLUSH_BATCH - 1 - l.At(c)))
  {
  }

  /** A flush empties every local column into the shared one. */
  lemma {:induction false} FlushEmpties(g: Counts, l: Counts, n: nat, col: nat)
    requires n <= NUM_COMMAND_TYPES && col <= TOTAL
    ensures
      var (g', l') := FlushState(g, l, n);
      if col < n || col == TOTAL then g'.At(col) == Add(g.At(col), l.At(col)) && l'.At(col) == 0
      else g'.At(col) == g.At(col) && l'.At(col) == l.At(col)
  {
    if n > 0 {
      FlushEmpties(g, l, n - 1, col);
    }
  }

  /** One `record_command` adds one to its type and to the total, whether or not it crosses a
      batch boundary, and nothing to any other column. */
  lemma RecordConserves(g: Counts, l: Counts, c: nat, col: nat)
    requires c < NUM_COMMAND_TYPES && col <= TOTAL
    ensures
      var (g', l') := RecordState(g, l, c);
      WrapU64(g'.At(col) + l'.At(col)) == WrapU64(g.At(col) + l.At(col) + (if col == c || col == TOTAL then 1 else 0))
  {
    hide Moved, Noted, WrapU64;
    var l1 := Noted(l, c);
    var one := if col == c || col == TOTAL then 1 else 0;
    var was := g.At(col) + l.At(col) + one;
    NotedShift(l, c, col);
    Shift(0, g.At(col) + l1.At(col) - was);
    if l1.total % FLUSH_BATCH == 0 {
      var (g2, l2) := Moved(g, l1, TOTAL, FLUSH_BATCH);
      var (g3, l3) := Moved(g2, l2, c, FLUSH_BATCH);
      MovedShift(g, l1, TOTAL, FLUSH_BATCH, col);
      MovedShift(g2, l2, c, FLUSH_BATCH, col);
      Shift(g.At(col) + l1.At(col) - was, g2.At(col) + l2.At(col) - was);
      Shift(g2.At(col) + l2.At(col) - was, g3.At(col) + l3.At(col) - was);
    }
    var (g', l') := RecordState(g, l, c);
    SameWord(g'.At(col) + l'.At(col), was);
  }

  lemma NotedShift(l: Counts, c: nat, col: nat)
    requires c < NUM_COMMAND_TYPES && col <= TOTAL
    ensures
      var d := Noted(l, c).At(col) - l.At(col) - (if col == c || col == TOTAL then 1 else 0);
      d == 0 || d == -TWO64
  {
  }

  // ---- a call by itself is its steps ------------------------------------------------

  /** With no other thread in between, the steps of a recording are `record_command`. */
  lemma SoloRecord(s: State, t: nat, c: nat)
    requires Inv(s) && t < |s.threads| && s.threads[t].pc.Idle? && c < NUM_COMMAND_TYPES
    ensures
      var s1 := Next(s, Record(t, c));
      var (g, l) := RecordState(s.shared, s.threads[t].local, c);
      if s1.threads[t].pc.Idle? then s1.shared == g && s1.threads[t].local == l
      else
        && Shaped(s1) && Enabled(s1, Go(t))
        && var s2 := Next(s1, Go(t));
           Shaped(s2) && Enabled(s2, Go(t))
           && var s3 := Next(s2, Go(t));
              s3.shared == g && s3.threads[t] == Thread(Idle, l)
  {
    hide Noted, Moved;
  }

  /** The first `n + 1` steps of a flush by thread `t`. */
  function FlushSteps(t: nat, n: nat): (r: seq<Action>)
    ensures |r| == n + 1 && forall j :: 0 <= j <= n ==> r[j] == Go(t)
  {
    if n == 0 then [Go(t)] else FlushSteps(t, n - 1) + [Go(t)]
  }

  lemma {:induction false} RunsSnoc(s: State, actions: seq<Action>, a: Action)
    requires Runs(s, actions) && Shaped(End(s, actions)) && Enabled(End(s, actions), a)
    ensures Runs(s, actions + [a]) && End(s, actions + [a]) == Next(End(s, actions), a)
    decreases |actions|
  {
    hide Next, Enabled, Shaped;
    if actions == [] {
      assert actions + [a] == [a] && [a][1..] == [];
    } else {
      assert (actions + [a])[1..] == actions[1..] + [a];
      RunsSnoc(Next(s, actions[0]), actions[1..], a);
    }
  }

  /** After the total and `n` types the counters are those of the flush so far. */
  lemma {:induction false} SoloFlushed(s: State, t: nat, n: nat)
    requires Shaped(s) && t < |s.threads| && s.threads[t].pc.FlushTotal? && n <= NUM_COMMAND_TYPES
    ensures Runs(s, FlushSteps(t, n))
    ensures
      var (g, l) := FlushState(s.shared, s.threads[t].local, n);
      var pc := if n < NUM_COMMAND_TYPES then FlushType(n) else Idle;
      End(s, FlushSteps(t, n)) == s.(shared := g, threads := s.threads[t := Thread(pc, l)])
  {
    hide Moved;
    if n == 0 {
      assert FlushSteps(t, n) == [Go(t)] && [Go(t)][1..] == [];
    } else {
      SoloFlushed(s, t, n - 1);
      RunsSnoc(s, FlushSteps(t, n - 1), Go(t));
    }
  }

  /** With no other thread in between, the steps of a flush are `flush_all`: every local column
      of the thread moves, and nothing else does. */
  lemma SoloFlush(s: State, t: nat)
    requires Shaped(s) && t < |s.threads| && s.threads[t].pc.Idle?
    ensures
      var s1 := Next(s, StartFlush(t));
      var (g, l) := FlushState(s.shared, s.threads[t].local, NUM_COMMAND_TYPES);
      && Runs(s1, FlushSteps(t, NUM_COMMAND_TYPES))
      && End(s1, FlushSteps(t, NUM_COMMAND_TYPES)) == s.(shared := g, threads := s.threads[t := Thread(Idle, l)])
  {
    hide Moved, Runs, End, FlushState, FlushSteps;
    SoloFlushed(Next(s, StartFlush(t)), t, NUM_COMMAND_TYPES);
  }
}
