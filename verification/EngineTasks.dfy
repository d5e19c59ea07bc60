/** The engine shared by many tasks: each call on the concurrent map is one atomic step and
    tasks interleave between calls. */
module EngineTasks {
  import opened Bytes
  import opened Domain
  import opened Engine
  import EngineRuns

  /** What a task will insert: the entry it was given, or a fresh counter stamped on insertion. */
  datatype New = Given(entry: ValueEntry) | Counter

  function Made(n: New, now: Instant): ValueEntry {
    match n
    case Given(e) => e
    case Counter => NewEntry(ONE, now)
  }

  /** The call on the map that a task makes next. */
  datatype Pc =
    | Idle
    | SetContains(key: Key, what: New)               // set: contains_key
    | EvictLen(key: Key, what: New)                  // evict_one_if_needed: len
    | EvictIter(key: Key, what: New)                 // evict_one_if_needed: iterate and choose
    | EvictRemove(key: Key, what: New, victim: Key)  // evict_one_if_needed: remove
    | LenCheck(key: Key, what: New)                  // set, incr: len against the limit
    | Insert(key: Key, what: New)                    // set, incr: insert
    | IncrEntry(key: Key)                            // incr: entry
    | IncrLen(key: Key)                              // incr on a vacant entry: len
    | DelIf(key: Key)                                // del: remove_if not expired
    | Look(key: Key)                                 // get, exists, ttl_secs: get
    | ExpireLook(key: Key, seconds: nat)             // expire: get_mut
    | RemoveExpired(key: Key)                        // remove_if expired
    | Sweep                                          // retain not expired
    | Clear
  {
    predicate Starts() {
      SetContains? || IncrEntry? || DelIf? || Look? || ExpireLook? || Sweep? || Clear?
    }
  }

  /** The map, the latest clock reading, the tasks and the answers of `incr` so far. */
  datatype State = State(max: nat, m: Store, now: Instant, tasks: seq<Pc>, counted: seq<(Key, int)>)

  /** A task makes its next call at `now`. For the eviction scan, `pick` is the key it settles
      on: any key or none, whatever the iterator happens to see. */
  datatype Action = Start(i: nat, op: Pc) | Go(i: nat, now: Instant, pick: Option<Key>)

  function Emptied(m: Store, k: Key): Store { m - {k} }

  /** The map after the call. */
  function Mapped(s: State, pc: Pc, now: Instant): Store {
    var m := s.m;
    match pc
    case EvictRemove(_, _, v) => Emptied(m, v)
    case Insert(k, n) => m[k := Made(n, now)]
    case IncrEntry(k) =>
      if k in m && m[k].IsExpiredAt(now) then Emptied(m, k)
      else if k in m then
        (match ParseI64(m[k].data)
         case None => m
         case Some(v) => m[k := m[k].(data := ItoaInt(WrapI64(v + 1)))])
      else if s.max == 0 then m[k := NewEntry(ONE, now)]
      else m
    case DelIf(k) => if LiveAt(m, k, now) then Emptied(m, k) else m
    case ExpireLook(k, secs) => if LiveAt(m, k, now) then m[k := m[k].(expiresAt := Some(now + secs * SECOND))] else m
    case RemoveExpired(k) => if k in m && m[k].IsExpiredAt(now) then Emptied(m, k) else m
    case Sweep => Live(m, now)
    case Clear => map[]
    case _ => m
  }

  /** Where the task goes on. */
  function Onward(s: State, pc: Pc, now: Instant, pick: Option<Key>): Pc {
    var m := s.m;
    match pc
    case SetContains(k, n) => if s.max == 0 || k in m then Insert(k, n) else EvictLen(k, n)
    case EvictLen(k, n) => if |m| < s.max then LenCheck(k, n) else EvictIter(k, n)
    case EvictIter(k, n) => if pick.None? then LenCheck(k, n) else EvictRemove(k, n, pick.value)
    case EvictRemove(k, n, _) => LenCheck(k, n)
    case LenCheck(k, n) => if s.max > 0 && |m| >= s.max then Idle else Insert(k, n)
    case IncrEntry(k) =>
      if k in m && m[k].IsExpiredAt(now) then LenCheck(k, Counter)
      else if k !in m && s.max > 0 then IncrLen(k)
      else Idle
    case IncrLen(k) => if |m| >= s.max then EvictLen(k, Counter) else Insert(k, Counter)
    case Look(k) => if k in m && m[k].IsExpiredAt(now) then RemoveExpired(k) else Idle
    case ExpireLook(k, _) => if k in m && m[k].IsExpiredAt(now) then RemoveExpired(k) else Idle
    case _ => Idle
  }

  /** What an `incr` that completes with this call returns. */
  function Counted(s: State, pc: Pc, now: Instant): seq<(Key, int)> {
    match pc
    case IncrEntry(k) =>
      if k in s.m && !s.m[k].IsExpiredAt(now) && ParseI64(s.m[k].data).Some?
      then [(k, WrapI64(ParseI64(s.m[k].data).value + 1))]
      else if k !in s.m && s.max == 0 then [(k, 1)]
      else []
    case Insert(k, Counter) => [(k, 1)]
    case _ => []
  }

  predicate Enabled(s: State, a: Action) {
    a.i < |s.tasks| &&
    match a
    case Start(i, op) => s.tasks[i].Idle? && op.Starts()
    case Go(i, now, _) => !s.tasks[i].Idle? && s.now <= now
  }

  function Next(s: State, a: Action): State
    requires Enabled(s, a)
  {
    match a
    case Start(i, op) => s.(tasks := s.tasks[i := op])
    case Go(i, now, pick) =>
      var pc := s.tasks[i];
      State(s.max, Mapped(s, pc, now), now, s.tasks[i := Onward(s, pc, now, pick)], s.counted + Counted(s, pc, now))
  }

  predicate Runs(s: State, actions: seq<Action>)
    decreases |actions|
  {
    actions == [] || (Enabled(s, actions[0]) && Runs(Next(s, actions[0]), actions[1..]))
  }

  function End(s: State, actions: seq<Action>): State
    requires Runs(s, actions)
    decreases |actions|
  {
    if actions == [] then s else End(Next(s, actions[0]), actions[1..])
  }

  function Initial(max: nat, m: Store, now: Instant, n: nat): State {
    State(max, m, now, seq(n, _ => Idle), [])
  }

  // ---- the key limit ---------------------------------------------------------------

  /** The keys of tasks that are cleared to insert. */
  function Cleared(tasks: seq<Pc>): set<Key> {
    set i | 0 <= i < |tasks| && tasks[i].Insert? :: tasks[i].key
  }

  /** The keys in the map together with those about to be in it. */
  function Claimed(s: State): set<Key> {
    s.m.Keys + Cleared(s.tasks)
  }

  lemma {:induction false} ClearedSize(tasks: seq<Pc>)
    ensures |Cleared(tasks)| <= |tasks|
    decreases |tasks|
  {
    if tasks != [] {
      var n := |tasks| - 1;
      ClearedSize(tasks[..n]);
      var last := if tasks[n].Insert? then {tasks[n].key} else {};
      assert Cleared(tasks) == Cleared(tasks[..n]) + last;
    }
  }

  lemma ClearedMove(tasks: seq<Pc>, i: nat, pc: Pc)
    requires i < |tasks|
    ensures Cleared(tasks[i := pc]) <= Cleared(tasks) + (if pc.Insert? then {pc.key} else {})
    ensures tasks[i].Insert? ==> tasks[i].key in Cleared(tasks)
  {
  }

  /** Only an insert adds a key, and it is the inserting task's. */
  lemma CallKeys(s: State, pc: Pc, now: Instant)
    requires s.max > 0
    ensures Mapped(s, pc, now).Keys <= s.m.Keys + (if pc.Insert? then {pc.key} else {})
  {
    hide ParseI64, ItoaInt, WrapI64;
  }

  /** A task is cleared to insert when it sees its key in the map or the map below the limit. */
  lemma CallClears(s: State, pc: Pc, now: Instant, pick: Option<Key>)
    requires s.max > 0 && Onward(s, pc, now, pick).Insert?
    ensures Mapped(s, pc, now) == s.m
    ensures Onward(s, pc, now, pick).key in s.m || |s.m| < s.max
  {
  }

  predicate WithinClaims(s: State) {
    |Claimed(s)| <= s.max + |s.tasks| - 1
  }

  lemma CallKeepsClaims(s: State, a: Action)
    requires s.max > 0 && WithinClaims(s) && Enabled(s, a)
    ensures WithinClaims(Next(s, a)) && Next(s, a).max == s.max && |Next(s, a).tasks| == |s.tasks|
  {
    hide Mapped, Onward, Counted, Cleared;
    var t := Next(s, a);
    ClearedMove(s.tasks, a.i, t.tasks[a.i]);
    if a.Go? {
      CallKeys(s, s.tasks[a.i], a.now);
      if t.tasks[a.i].Insert? {
        CallClears(s, s.tasks[a.i], a.now, a.pick);
      }
    }
    hide Next, Enabled;
    if t.m == s.m && |s.m| < s.max {
      ClearedSize(t.tasks);
      UnionSize(t.m.Keys, Cleared(t.tasks));
    } else {
      EngineRuns.SubsetSize(Claimed(t), Claimed(s));
    }
  }

  lemma UnionSize(a: set<Key>, b: set<Key>)
    ensures |a + b| <= |a| + |b|
  {
  }

  /** The capacity bound: with T tasks, no reachable map has more than max_keys + T - 1 entries. */
  lemma {:induction false} CapacityBound(s: State, actions: seq<Action>)
    requires s.max > 0 && WithinClaims(s) && Runs(s, actions)
    ensures |End(s, actions).m| <= s.max + |s.tasks| - 1
    decreases |actions|
  {
    hide Next, Enabled, WithinClaims;
    if actions == [] {
      ClaimsCoverMap(s);
    } else {
      CallKeepsClaims(s, actions[0]);
      CapacityBound(Next(s, actions[0]), actions[1..]);
    }
  }

  lemma ClaimsCoverMap(s: State)
    requires WithinClaims(s)
    ensures |s.m| <= s.max + |s.tasks| - 1
  {
    EngineRuns.SubsetSize(s.m.Keys, Claimed(s));
  }

  lemma CapacityFromStart(max: nat, m: Store, now: Instant, n: nat, actions: seq<Action>)
    requires max > 0 && n > 0 && |m| <= max && Runs(Initial(max, m, now, n), actions)
    ensures |End(Initial(max, m, now, n), actions).m| <= max + n - 1
  {
    var s := Initial(max, m, now, n);
    assert Claimed(s) == m.Keys;
    CapacityBound(s, actions);
  }

  // ---- the bound is reached ------------------------------------------------------

  lemma {:induction false} RunsAppend(s: State, a: seq<Action>, b: seq<Action>)
    requires Runs(s, a) && Runs(End(s, a), b)
    ensures Runs(s, a + b) && End(s, a + b) == End(End(s, a), b)
    decreases |a|
  {
    hide Next, Enabled;
    if a == [] {
      assert a + b == b;
    } else {
      assert (a + b)[1..] == a[1..] + b;
      RunsAppend(Next(s, a[0]), a[1..], b);
    }
  }

  lemma RunsOne(s: State, a: Action)
    requires Enabled(s, a)
    ensures Runs(s, [a]) && End(s, [a]) == Next(s, a)
  {
    hide Next, Enabled;
    assert [a][1..] == [];
  }

  /** Task `j` is idle from `j` on and cleared to insert `keys[j]` before. */
  predicate ClearedUpTo(tasks: seq<Pc>, keys: seq<Key>, what: New, j: nat) {
    |tasks| == |keys| && j <= |tasks| &&
    forall i :: 0 <= i < |tasks| ==> tasks[i] == if i < j then Insert(keys[i], what) else Idle
  }

  /** `set` of an absent key with room left, up to but not including the insert. */
  function Clearing(i: nat, k: Key, what: New, now: Instant): seq<Action> {
    [Start(i, SetContains(k, what)), Go(i, now, None), Go(i, now, None), Go(i, now, None)]
  }

  lemma ClearOne(s: State, i: nat, k: Key, what: New)
    requires i < |s.tasks| && s.tasks[i].Idle? && k !in s.m && 0 < s.max && |s.m| < s.max
    ensures Runs(s, Clearing(i, k, what, s.now))
    ensures End(s, Clearing(i, k, what, s.now)) == s.(tasks := s.tasks[i := Insert(k, what)])
  {
    var s1 := s.(tasks := s.tasks[i := SetContains(k, what)]);
    var s2 := s.(tasks := s.tasks[i := EvictLen(k, what)]);
    var s3 := s.(tasks := s.tasks[i := LenCheck(k, what)]);
    var s4 := s.(tasks := s.tasks[i := Insert(k, what)]);
    var go := Go(i, s.now, None);
    assert Next(s, Start(i, SetContains(k, what))) == s1;
    assert Next(s1, go) == s2 by { assert s.counted + [] == s.counted; }
    assert Next(s2, go) == s3 by { assert s.counted + [] == s.counted; }
    assert Next(s3, go) == s4 by { assert s.counted + [] == s.counted; }
    hide Next, Enabled;
    RunsOne(s, Start(i, SetContains(k, what)));
    RunsOne(s1, go);
    RunsOne(s2, go);
    RunsOne(s3, go);
    RunsAppend(s2, [go], [go]);
    RunsAppend(s1, [go], [go] + [go]);
    RunsAppend(s, [Start(i, SetContains(k, what))], [go] + ([go] + [go]));
    assert [Start(i, SetContains(k, what))] + ([go] + ([go] + [go])) == Clearing(i, k, what, s.now);
  }

  lemma {:induction false} ClearSome(s: State, keys: seq<Key>, what: New, j: nat) returns (actions: seq<Action>)
    requires ClearedUpTo(s.tasks, keys, what, 0) && j <= |keys|
    requires 0 < s.max && |s.m| < s.max && forall i :: 0 <= i < |keys| ==> keys[i] !in s.m
    ensures Runs(s, actions) && End(s, actions).m == s.m && End(s, actions).max == s.max
    ensures ClearedUpTo(End(s, actions).tasks, keys, what, j)
  {
    hide Runs, End;
    if j == 0 {
      actions := [];
      RunsNone(s);
    } else {
      var before := ClearSome(s, keys, what, j - 1);
      var t := End(s, before);
      ClearOne(t, j - 1, keys[j - 1], what);
      actions := before + Clearing(j - 1, keys[j - 1], what, t.now);
      RunsAppend(s, before, Clearing(j - 1, keys[j - 1], what, t.now));
    }
  }

  lemma RunsNone(s: State)
    ensures Runs(s, []) && End(s, []) == s
  {
  }

  /** From any map one short of the limit and any distinct absent keys, one per task, there is
      a run that goes over the limit by all the tasks but one. */
  lemma BoundIsTight(max: nat, m: Store, now: Instant, keys: seq<Key>, value: Bytes) returns (actions: seq<Action>)
    requires |m| == max - 1
    requires forall i :: 0 <= i < |keys| ==> keys[i] !in m
    requires forall i, j :: 0 <= i < j < |keys| ==> keys[i] != keys[j]
    ensures Runs(Initial(max, m, now, |keys|), actions)
    ensures |End(Initial(max, m, now, |keys|), actions).m| == max + |keys| - 1
  {
    hide Runs, End;
    var s := Initial(max, m, now, |keys|);
    var what := Given(NewEntry(value, now));
    var clears := ClearSome(s, keys, what, |keys|);
    var t := End(s, clears);
    var inserts := InsertSome(t, keys, what, |keys|);
    actions := clears + inserts;
    RunsAppend(s, clears, inserts);
  }

  lemma {:induction false} InsertSome(s: State, keys: seq<Key>, what: New, j: nat) returns (actions: seq<Action>)
    requires ClearedUpTo(s.tasks, keys, what, |keys|) && j <= |keys|
    requires forall i :: 0 <= i < |keys| ==> keys[i] !in s.m
    requires forall i, j :: 0 <= i < j < |keys| ==> keys[i] != keys[j]
    ensures Runs(s, actions)
    ensures |End(s, actions).tasks| == |keys| && forall i :: j <= i < |keys| ==> End(s, actions).tasks[i] == Insert(keys[i], what)
    ensures |End(s, actions).m| == |s.m| + j && forall i :: j <= i < |keys| ==> keys[i] !in End(s, actions).m
  {
    hide Runs, End;
    if j == 0 {
      actions := [];
      RunsNone(s);
    } else {
      var before := InsertSome(s, keys, what, j - 1);
      var t := End(s, before);
      var go := Go(j - 1, t.now, None);
      actions := before + [go];
      RunsOne(t, go);
      RunsAppend(s, before, [go]);
      MapAddSize(t.m, keys[j - 1], Made(what, t.now));
    }
  }

  // ---- who may touch a key -------------------------------------------------------

  /** The call is one that is meant to change key `k`: an insert, an increment, a deletion, an
      eviction or a new deadline for it, or a clear. Look-ups, lazy removal and sweeps are not. */
  predicate Writes(pc: Pc, k: Key) {
    match pc
    case Insert(j, _) => j == k
    case IncrEntry(j) => j == k
    case DelIf(j) => j == k
    case EvictRemove(_, _, v) => v == k
    case ExpireLook(j, _) => j == k
    case Clear => true
    case _ => false
  }

  predicate WritesNow(s: State, a: Action, k: Key) {
    a.Go? && a.i < |s.tasks| && Writes(s.tasks[a.i], k)
  }

  /** Any other call leaves the key as it is, or removes it when it is expired at that moment. */
  lemma OnlyWritersChange(s: State, pc: Pc, now: Instant, k: Key)
    requires !Writes(pc, k)
    ensures
      var e := EntryAt(Mapped(s, pc, now), k);
      e == EntryAt(s.m, k) || (e.None? && k in s.m && s.m[k].IsExpiredAt(now))
  {
    hide ParseI64, ItoaInt, WrapI64;
  }

  /** The clock readings of a run stay before the entry's deadline. */
  predicate Unexpired(e: ValueEntry, actions: seq<Action>) {
    forall i :: 0 <= i < |actions| && actions[i].Go? ==> !e.IsExpiredAt(actions[i].now)
  }

  /** No call in the run is meant to change `k`. */
  predicate LeftAlone(s: State, actions: seq<Action>, k: Key)
    requires Runs(s, actions)
    decreases |actions|
  {
    actions == [] || (!WritesNow(s, actions[0], k) && LeftAlone(Next(s, actions[0]), actions[1..], k))
  }

  /** Safety of keys: whatever look-ups, lazy removals and sweeps interleave, an entry that is
      left alone and unexpired survives the run unchanged, and an absent key stays absent. So a
      `set` that lands between the expiry check and the lazy removal is not lost. */
  lemma {:induction false} LiveEntriesSurvive(s: State, actions: seq<Action>, k: Key)
    requires Runs(s, actions) && LeftAlone(s, actions, k)
    requires k in s.m ==> Unexpired(s.m[k], actions)
    ensures EntryAt(End(s, actions).m, k) == EntryAt(s.m, k)
    decreases |actions|
  {
    hide Mapped, Onward, Counted;
    if actions != [] {
      var a := actions[0];
      if a.Go? {
        OnlyWritersChange(s, s.tasks[a.i], a.now, k);
      }
      var t := Next(s, a);
      hide Next, Enabled;
      if k in s.m {
        assert Unexpired(t.m[k], actions[1..]) by {
          assert forall i :: 0 <= i < |actions[1..]| ==> actions[1..][i] == actions[i + 1];
        }
      }
      LiveEntriesSurvive(t, actions[1..], k);
    }
  }

  /** A stale lazy removal: the look-up saw an expired entry, then another task's `set` landed.
      The removal leaves the new entry alone unless that one is expired itself. */
  lemma StaleRemovalIsHarmless(s: State, i: nat, now: Instant, k: Key)
    requires i < |s.tasks| && s.tasks[i] == RemoveExpired(k) && s.now <= now
    ensures
      var t := Next(s, Go(i, now, None));
      && (LiveAt(s.m, k, now) ==> t.m == s.m)
      && (!LiveAt(s.m, k, now) ==> t.m == s.m - {k})
      && forall j :: j != k ==> EntryAt(t.m, j) == EntryAt(s.m, j)
  {
  }

  // ---- increments -----------------------------------------------------------------

  /** The `incr` answers for one key, in order. */
  function AnswersFor(counted: seq<(Key, int)>, k: Key): seq<int> {
    if counted == [] then []
    else
      var n := |counted| - 1;
      AnswersFor(counted[..n], k) + (if counted[n].0 == k then [counted[n].1] else [])
  }

  /** v+1, ..., v+n. */
  function Consecutive(v: int, n: nat): (r: seq<int>)
    ensures |r| == n
    ensures forall i :: 0 <= i < n ==> r[i] == v + 1 + i
  {
    seq(n, i => v + 1 + i)
  }

  /** The only calls in the run that are meant to change `k` are increments of it. */
  predicate OnlyIncremented(s: State, actions: seq<Action>, k: Key)
    requires Runs(s, actions)
    decreases |actions|
  {
    actions == [] ||
    ((WritesNow(s, actions[0], k) ==> s.tasks[actions[0].i].IncrEntry?)
     && OnlyIncremented(Next(s, actions[0]), actions[1..], k))
  }

  /** How many increments of `k` the run performs. */
  function Increments(s: State, actions: seq<Action>, k: Key): nat
    requires Runs(s, actions)
    decreases |actions|
  {
    if actions == [] then 0
    else (if WritesNow(s, actions[0], k) then 1 else 0) + Increments(Next(s, actions[0]), actions[1..], k)
  }

  /** `k` holds the integer `v`. */
  predicate HoldsInt(m: Store, k: Key, v: int) {
    k in m && ParseI64(m[k].data) == Some(v)
  }

  lemma AnswersSnoc(counted: seq<(Key, int)>, k: Key, x: (Key, int))
    ensures AnswersFor(counted + [x], k) == AnswersFor(counted, k) + (if x.0 == k then [x.1] else [])
  {
    assert (counted + [x])[..|counted|] == counted;
  }

  /** One increment of a live integer adds one and answers with the new value. */
  lemma IncrementCall(s: State, now: Instant, k: Key, v: int)
    requires HoldsInt(s.m, k, v) && !s.m[k].IsExpiredAt(now) && -TWO63 <= v < TWO63 - 1
    ensures
      var m := Mapped(s, IncrEntry(k), now);
      && HoldsInt(m, k, v + 1) && m[k].expiresAt == s.m[k].expiresAt
      && Counted(s, IncrEntry(k), now) == [(k, v + 1)]
  {
    ParseI64ItoaInt(v + 1);
    hide ParseI64, ItoaInt;
  }

  /** Any other call leaves a live integer alone and answers no increment of it. */
  lemma OtherCall(s: State, pc: Pc, now: Instant, k: Key)
    requires !Writes(pc, k) && k in s.m && !s.m[k].IsExpiredAt(now)
    ensures
      var m := Mapped(s, pc, now);
      && k in m && m[k] == s.m[k]
      && AnswersFor(s.counted + Counted(s, pc, now), k) == AnswersFor(s.counted, k)
  {
    OnlyWritersChange(s, pc, now, k);
    var c := Counted(s, pc, now);
    if c == [] {
      assert s.counted + c == s.counted;
    } else {
      hide ParseI64, WrapI64;
      assert |c| == 1 && c[0].0 != k;
      AnswersSnoc(s.counted, k, c[0]);
      assert c == [c[0]];
    }
  }

  /** One action, seen from a live integer that is only incremented. */
  lemma CountingStep(s: State, a: Action, k: Key, v: int)
    requires Enabled(s, a) && HoldsInt(s.m, k, v) && -TWO63 <= v
    requires a.Go? ==> !s.m[k].IsExpiredAt(a.now)
    requires WritesNow(s, a, k) ==> s.tasks[a.i].IncrEntry? && v < TWO63 - 1
    ensures
      var t := Next(s, a);
      var n := if WritesNow(s, a, k) then 1 else 0;
      && HoldsInt(t.m, k, v + n) && t.m[k].expiresAt == s.m[k].expiresAt
      && AnswersFor(t.counted, k) == AnswersFor(s.counted, k) + Consecutive(v, n)
  {
    hide Mapped, Onward, Counted, ParseI64, AnswersFor, Consecutive;
    ConsecutiveSmall(AnswersFor(s.counted, k), v);
    if WritesNow(s, a, k) {
      IncrementCall(s, a.now, k, v);
      AnswersSnoc(s.counted, k, (k, v + 1));
    } else if a.Go? {
      OtherCall(s, s.tasks[a.i], a.now, k);
    }
  }

  lemma ConsecutiveSmall(before: seq<int>, v: int)
    ensures before + Consecutive(v, 0) == before && Consecutive(v, 1) == [v + 1]
  {
  }

  /** n increments of a live integer that nothing else writes, by any tasks in any interleaving,
      add exactly n and return the n consecutive values after the old one, each once. */
  lemma {:induction false} IncrementsCount(s: State, actions: seq<Action>, k: Key, v: int)
    requires Runs(s, actions) && OnlyIncremented(s, actions, k)
    requires HoldsInt(s.m, k, v) && Unexpired(s.m[k], actions)
    requires -TWO63 <= v && v + Increments(s, actions, k) < TWO63
    ensures
      var n := Increments(s, actions, k);
      && HoldsInt(End(s, actions).m, k, v + n)
      && AnswersFor(End(s, actions).counted, k) == AnswersFor(s.counted, k) + Consecutive(v, n)
    decreases |actions|
  {
    hide Next, Enabled, HoldsInt, AnswersFor, WritesNow, Unexpired, Consecutive;
    if actions == [] {
      ConsecutiveJoin(AnswersFor(s.counted, k), v, 0, 0);
    } else {
      var a, rest := actions[0], actions[1..];
      KeyOfInt(s.m, k, v);
      UnexpiredNow(s.m[k], actions);
      CountingStep(s, a, k, v);
      var t := Next(s, a);
      var n := if WritesNow(s, a, k) then 1 else 0;
      KeyOfInt(t.m, k, v + n);
      UnexpiredLater(s.m[k], t.m[k], actions);
      IncrementsCount(t, rest, k, v + n);
      ConsecutiveJoin(AnswersFor(s.counted, k), v, n, Increments(t, rest, k));
    }
  }

  lemma ConsecutiveJoin(before: seq<int>, v: int, n: nat, m: nat)
    ensures (before + Consecutive(v, n)) + Consecutive(v + n, m) == before + Consecutive(v, n + m)
    ensures before + Consecutive(v, 0) == before
  {
  }

  lemma KeyOfInt(m: Store, k: Key, v: int)
    requires HoldsInt(m, k, v)
    ensures k in m
  {
  }

  lemma UnexpiredNow(e: ValueEntry, actions: seq<Action>)
    requires Unexpired(e, actions) && actions != []
    ensures actions[0].Go? ==> !e.IsExpiredAt(actions[0].now)
  {
  }

  lemma UnexpiredLater(e: ValueEntry, f: ValueEntry, actions: seq<Action>)
    requires Unexpired(e, actions) && e.expiresAt == f.expiresAt && actions != []
    ensures Unexpired(f, actions[1..])
  {
    assert forall i :: 0 <= i < |actions[1..]| ==> actions[1..][i] == actions[i + 1];
  }

  lemma RunsFour(s: State, a: seq<Action>, s1: State, s2: State, s3: State, s4: State)
    requires |a| == 4
    requires Enabled(s, a[0]) && Next(s, a[0]) == s1 && Enabled(s1, a[1]) && Next(s1, a[1]) == s2
    requires Enabled(s2, a[2]) && Next(s2, a[2]) == s3 && Enabled(s3, a[3]) && Next(s3, a[3]) == s4
    ensures Runs(s, a) && End(s, a) == s4
  {
    hide Next, Enabled, Runs, End;
    RunsOne(s, a[0]);
    RunsOne(s1, a[1]);
    RunsOne(s2, a[2]);
    RunsOne(s3, a[3]);
    RunsAppend(s2, [a[2]], [a[3]]);
    RunsAppend(s1, [a[1]], [a[2]] + [a[3]]);
    RunsAppend(s, [a[0]], [a[1]] + ([a[2]] + [a[3]]));
    assert [a[0]] + ([a[1]] + ([a[2]] + [a[3]])) == a;
  }

  /** The deadline matters: when the entry is expired, removal and insert are two calls, and two
      increments can both answer 1 and leave 1 behind. */
  lemma ExpiredIncrementIsLost(m: Store, k: Key, now: Instant)
    requires k in m && m[k].IsExpiredAt(now)
    ensures
      var s := State(0, m, now, [IncrEntry(k), IncrEntry(k)], []);
      var actions := [Go(0, now, None), Go(1, now, None), Go(0, now, None), Go(0, now, None)];
      && Runs(s, actions)
      && End(s, actions).tasks == [Idle, Idle]
      && End(s, actions).counted == [(k, 1), (k, 1)]
      && k in End(s, actions).m && End(s, actions).m[k].data == ONE
  {
    hide Runs, End;
    var one := NewEntry(ONE, now);
    var s := State(0, m, now, [IncrEntry(k), IncrEntry(k)], []);
    var m1 := m - {k};
    var s1 := State(0, m1, now, [LenCheck(k, Counter), IncrEntry(k)], []);
    var s2 := State(0, m1[k := one], now, [LenCheck(k, Counter), Idle], [(k, 1)]);
    var s3 := State(0, m1[k := one], now, [Insert(k, Counter), Idle], [(k, 1)]);
    var s4 := State(0, m1[k := one][k := one], now, [Idle, Idle], [(k, 1), (k, 1)]);
    RunsFour(s, [Go(0, now, None), Go(1, now, None), Go(0, now, None), Go(0, now, None)], s1, s2, s3, s4);
  }

  /** When it does count: if no call between the removal and the insert is meant to change the
      key, the key is still absent at the insert, and the increment leaves and answers 1. */
  lemma ExpiredIncrementCounts(s: State, i: nat, now: Instant, k: Key, between: seq<Action>, later: Instant)
    requires i < |s.tasks| && s.tasks[i] == IncrEntry(k) && s.now <= now
    requires k in s.m && s.m[k].IsExpiredAt(now)
    requires
      var s1 := Next(s, Go(i, now, None));
      Runs(s1, between) && LeftAlone(s1, between, k)
    requires
      var s2 := End(Next(s, Go(i, now, None)), between);
      i < |s2.tasks| && s2.tasks[i] == Insert(k, Counter) && s2.now <= later
    ensures
      var s2 := End(Next(s, Go(i, now, None)), between);
      var s3 := Next(s2, Go(i, later, None));
      && k !in s2.m
      && k in s3.m && s3.m[k] == NewEntry(ONE, later)
      && s3.counted == s2.counted + [(k, 1)]
  {
    var s1 := Next(s, Go(i, now, None));
    assert k !in s1.m;
    LiveEntriesSurvive(s1, between, k);
  }

  // ---- a task by itself --------------------------------------------------------------

  /** How many calls a task can still make. */
  function CallsLeft(pc: Pc): nat {
    match pc
    case Idle => 0
    case Insert(_, _) => 1
    case LenCheck(_, _) => 2
    case EvictRemove(_, _, _) => 3
    case EvictIter(_, _) => 4
    case EvictLen(_, _) => 5
    case SetContains(_, _) => 6
    case IncrLen(_) => 6
    case IncrEntry(_) => 7
    case Look(_) => 2
    case ExpireLook(_, _) => 2
    case _ => 1
  }

  lemma CallsDecrease(s: State, pc: Pc, now: Instant, pick: Option<Key>)
    requires !pc.Idle?
    ensures CallsLeft(Onward(s, pc, now, pick)) < CallsLeft(pc)
  {
  }

  /** Task `i` makes all its remaining calls and nobody else makes one. */
  function Alone(s: State, i: nat, now: Instant, pick: Option<Key>): State
    requires i < |s.tasks| && s.now <= now
    decreases CallsLeft(s.tasks[i])
  {
    if s.tasks[i].Idle? then s
    else
      CallsDecrease(s, s.tasks[i], now, pick);
      Alone(Next(s, Go(i, now, pick)), i, now, pick)
  }

  /** That is a run of the task's steps. */
  lemma {:induction false} AloneRuns(s: State, i: nat, now: Instant, pick: Option<Key>) returns (actions: seq<Action>)
    requires i < |s.tasks| && s.now <= now
    ensures Runs(s, actions) && End(s, actions) == Alone(s, i, now, pick)
    ensures forall a :: a in actions ==> a == Go(i, now, pick)
    ensures Alone(s, i, now, pick).tasks == s.tasks[i := Idle]
    decreases CallsLeft(s.tasks[i])
  {
    var go := Go(i, now, pick);
    if s.tasks[i].Idle? {
      actions := [];
    } else {
      CallsDecrease(s, s.tasks[i], now, pick);
      hide Mapped, Onward, Counted;
      var rest := AloneRuns(Next(s, go), i, now, pick);
      actions := [go] + rest;
      assert actions[1..] == rest;
    }
  }

  /** The engine with one task changed and the rest as it was. */
  function With(s: State, i: nat, m: Store, pc: Pc, now: Instant, more: seq<(Key, int)>): State
    requires i < |s.tasks|
  {
    State(s.max, m, now, s.tasks[i := pc], s.counted + more)
  }

  lemma AloneStep(s: State, i: nat, m: Store, pc: Pc, at: Instant, now: Instant, pick: Option<Key>)
    requires i < |s.tasks| && at <= now && !pc.Idle?
    ensures
      var t := With(s, i, m, pc, at, []);
      Alone(t, i, now, pick) ==
        Alone(With(s, i, Mapped(t, pc, now), Onward(t, pc, now, pick), now, Counted(t, pc, now)), i, now, pick)
  {
    var t := With(s, i, m, pc, at, []);
    hide Mapped, Onward, Counted;
    var u := With(s, i, Mapped(t, pc, now), Onward(t, pc, now, pick), now, Counted(t, pc, now));
    assert s.counted + [] == s.counted;
    assert Next(t, Go(i, now, pick)) == u;
  }

  lemma AloneDone(s: State, i: nat, m: Store, now: Instant, more: seq<(Key, int)>, pick: Option<Key>)
    requires i < |s.tasks|
    ensures Alone(With(s, i, m, Idle, now, more), i, now, pick) == With(s, i, m, Idle, now, more)
  {
  }

  /** From the length test on. */
  lemma AloneLenCheck(s: State, i: nat, m: Store, k: Key, n: New, now: Instant, pick: Option<Key>)
    requires i < |s.tasks|
    ensures
      Alone(With(s, i, m, LenCheck(k, n), now, []), i, now, pick) ==
        if s.max > 0 && |m| >= s.max then With(s, i, m, Idle, now, [])
        else AloneInserted(s, i, m, k, n, now)
  {
    AloneStep(s, i, m, LenCheck(k, n), now, now, pick);
    if s.max > 0 && |m| >= s.max {
      AloneDone(s, i, m, now, [], pick);
    } else {
      AloneInsert(s, i, m, k, n, now, now, pick);
    }
  }

  function AloneInserted(s: State, i: nat, m: Store, k: Key, n: New, now: Instant): State
    requires i < |s.tasks|
  {
    With(s, i, m[k := Made(n, now)], Idle, now, if n.Counter? then [(k, 1)] else [])
  }

  lemma AloneInsert(s: State, i: nat, m: Store, k: Key, n: New, at: Instant, now: Instant, pick: Option<Key>)
    requires i < |s.tasks| && at <= now
    ensures Alone(With(s, i, m, Insert(k, n), at, []), i, now, pick) == AloneInserted(s, i, m, k, n, now)
  {
    AloneStep(s, i, m, Insert(k, n), at, now, pick);
    AloneDone(s, i, m[k := Made(n, now)], now, if n.Counter? then [(k, 1)] else [], pick);
  }

  /** From the eviction's length test on. */
  lemma AloneEvict(s: State, i: nat, m: Store, k: Key, n: New, order: seq<Key>, now: Instant)
    requires i < |s.tasks| && s.max > 0
    ensures
      var m1 := EvictState(m, s.max, order, now);
      Alone(With(s, i, m, EvictLen(k, n), now, []), i, now, Victim(m, order, now)) ==
        if |m1| >= s.max then With(s, i, m1, Idle, now, [])
        else AloneInserted(s, i, m1, k, n, now)
  {
    hide Victim;
    var pick := Victim(m, order, now);
    AloneStep(s, i, m, EvictLen(k, n), now, now, pick);
    if |m| >= s.max {
      AloneStep(s, i, m, EvictIter(k, n), now, now, pick);
      if pick.Some? {
        AloneStep(s, i, m, EvictRemove(k, n, pick.value), now, now, pick);
      }
    }
    hide Alone, With;
    AloneLenCheck(s, i, EvictState(m, s.max, order, now), k, n, now, pick);
  }

  /** What the engine's own operation makes of the map. */
  function Called(s: State, op: Pc, order: seq<Key>, now: Instant): Store
    requires op.Starts()
  {
    match op
    case SetContains(k, n) => SetState(s.m, s.max, k, Made(n, now), order, now).0
    case IncrEntry(k) => IncrState(s.m, s.max, k, order, now, now).0
    case DelIf(k) => DelState(s.m, k, now).0
    case Look(k) => LazyRemove(s.m, k, now, now)
    case ExpireLook(k, secs) => ExpireState(s.m, k, secs, now, now)
    case Sweep => Live(s.m, now)
    case Clear => map[]
  }

  /** What it answers, for an increment. */
  function CalledCount(s: State, op: Pc, order: seq<Key>, now: Instant): seq<(Key, int)> {
    match op
    case IncrEntry(k) =>
      (match IncrState(s.m, s.max, k, order, now, now).1
       case Done(v) => [(k, v)]
       case Fault(_) => [])
    case _ => []
  }

  lemma AloneSet(s: State, i: nat, k: Key, e: ValueEntry, order: seq<Key>, now: Instant)
    requires i < |s.tasks| && s.now <= now
    ensures
      Alone(With(s, i, s.m, SetContains(k, Given(e)), s.now, []), i, now, Victim(s.m, order, now)) ==
        With(s, i, SetState(s.m, s.max, k, e, order, now).0, Idle, now, [])
  {
    var pick := Victim(s.m, order, now);
    AloneStep(s, i, s.m, SetContains(k, Given(e)), s.now, now, pick);
    hide Alone, Victim, EvictState;
    if s.max == 0 || k in s.m {
      AloneInsert(s, i, s.m, k, Given(e), now, now, pick);
    } else {
      AloneEvict(s, i, s.m, k, Given(e), order, now);
    }
  }

  lemma AloneIncr(s: State, i: nat, k: Key, order: seq<Key>, now: Instant)
    requires i < |s.tasks| && s.now <= now
    ensures
      var op := IncrEntry(k);
      Alone(With(s, i, s.m, op, s.now, []), i, now, Victim(s.m, order, now)) ==
        With(s, i, IncrState(s.m, s.max, k, order, now, now).0, Idle, now, CalledCount(s, op, order, now))
  {
    hide ParseI64, ItoaInt, WrapI64;
    var pick := Victim(s.m, order, now);
    var op := IncrEntry(k);
    AloneStep(s, i, s.m, op, s.now, now, pick);
    hide Alone, Victim;
    if k in s.m && s.m[k].IsExpiredAt(now) {
      AloneLenCheck(s, i, s.m - {k}, k, Counter, now, pick);
    } else if k in s.m || s.max == 0 {
      var t := With(s, i, s.m, op, s.now, []);
      AloneDone(s, i, Mapped(t, op, now), now, Counted(t, op, now), pick);
      EvictNoop(s.m, s.max, order, now);
    } else {
      AloneVacant(s, i, k, order, now);
    }
  }

  lemma AloneVacant(s: State, i: nat, k: Key, order: seq<Key>, now: Instant)
    requires i < |s.tasks| && k !in s.m && s.max > 0
    ensures
      var m1 := EvictState(s.m, s.max, order, now);
      Alone(With(s, i, s.m, IncrLen(k), now, []), i, now, Victim(s.m, order, now)) ==
        if |m1| >= s.max then With(s, i, m1, Idle, now, [])
        else AloneInserted(s, i, m1, k, Counter, now)
  {
    var pick := Victim(s.m, order, now);
    AloneStep(s, i, s.m, IncrLen(k), now, now, pick);
    hide Alone, Victim;
    if |s.m| >= s.max {
      AloneEvict(s, i, s.m, k, Counter, order, now);
    } else {
      EvictNoop(s.m, s.max, order, now);
      AloneInsert(s, i, s.m, k, Counter, now, now, pick);
    }
  }

  lemma AloneOnce(s: State, i: nat, op: Pc, order: seq<Key>, now: Instant, pick: Option<Key>)
    requires i < |s.tasks| && s.now <= now && (op.DelIf? || op.Sweep? || op.Clear?)
    ensures
      Alone(With(s, i, s.m, op, s.now, []), i, now, pick) == With(s, i, Called(s, op, order, now), Idle, now, [])
  {
    AloneStep(s, i, s.m, op, s.now, now, pick);
    hide Alone;
    AloneDone(s, i, Called(s, op, order, now), now, [], pick);
  }

  lemma AloneRemove(s: State, i: nat, m: Store, k: Key, now: Instant, pick: Option<Key>)
    requires i < |s.tasks| && k in m && m[k].IsExpiredAt(now)
    ensures Alone(With(s, i, m, RemoveExpired(k), now, []), i, now, pick) == With(s, i, m - {k}, Idle, now, [])
  {
    AloneStep(s, i, m, RemoveExpired(k), now, now, pick);
    hide Alone;
    AloneDone(s, i, m - {k}, now, [], pick);
  }

  lemma AloneLook(s: State, i: nat, op: Pc, order: seq<Key>, now: Instant, pick: Option<Key>)
    requires i < |s.tasks| && s.now <= now && (op.Look? || op.ExpireLook?)
    ensures
      Alone(With(s, i, s.m, op, s.now, []), i, now, pick) == With(s, i, Called(s, op, order, now), Idle, now, [])
  {
    AloneStep(s, i, s.m, op, s.now, now, pick);
    hide Alone;
    if op.key in s.m && s.m[op.key].IsExpiredAt(now) {
      AloneRemove(s, i, s.m, op.key, now, pick);
      assert Called(s, op, order, now) == s.m - {op.key};
    } else {
      AloneDone(s, i, Called(s, op, order, now), now, [], pick);
    }
  }

  /** The calls of one task with nobody in between are the engine's operation: any operation,
      any map, any limit, any iteration order. The other tasks are where they were. */
  lemma AloneIsEngine(s: State, i: nat, op: Pc, order: seq<Key>, now: Instant)
    requires Enabled(s, Start(i, op)) && s.now <= now && (op.SetContains? ==> op.what.Given?)
    ensures
      Alone(Next(s, Start(i, op)), i, now, Victim(s.m, order, now)) ==
        State(s.max, Called(s, op, order, now), now, s.tasks, s.counted + CalledCount(s, op, order, now))
  {
    hide Alone, Victim, SetState, IncrState, DelState, LazyRemove, ExpireState, Live;
    assert s.counted + [] == s.counted;
    assert Next(s, Start(i, op)) == With(s, i, s.m, op, s.now, []);
    assert s.tasks[i := Idle] == s.tasks;
    if op.SetContains? {
      AloneSet(s, i, op.key, op.what.entry, order, now);
    } else if op.IncrEntry? {
      AloneIncr(s, i, op.key, order, now);
    } else if op.Look? || op.ExpireLook? {
      AloneLook(s, i, op, order, now, Victim(s.m, order, now));
    } else {
      AloneOnce(s, i, op, order, now, Victim(s.m, order, now));
    }
  }
}
