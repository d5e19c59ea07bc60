/** Whole runs of engine operations, one after the other: they answer as a plain map whose
    entries vanish at their deadlines, and they keep the key limit. */
module EngineRuns {
  import opened Bytes
  import opened Domain
  import opened Engine

  datatype Op =
    | OGet(key: Key)
    | OSet(key: Key, entry: ValueEntry)
    | ODel(key: Key)
    | OIncr(key: Key)
    | OExists(key: Key)
    | OTtl(key: Key)
    | OExpire(key: Key, seconds: nat)
    | OMget(keys: seq<Key>)
    | OKeys
    | OClear
    | OSweep

  /** An operation with its two clock readings and the iteration order it would see. */
  datatype Call = Call(op: Op, t1: Instant, t2: Instant, order: seq<Key>)

  datatype Answer =
    | AEntry(entry: Option<ValueEntry>)
    | AEntries(entries: seq<Option<ValueEntry>>)
    | ASet(set_: Outcome<()>)
    | AIncr(incr: Outcome<int>)
    | AFlag(flag: bool)
    | ANumber(number: int)
    | AKeys(keys: set<Key>)
    | ANothing

  function LookupAll(m: Store, keys: seq<Key>, now: Instant): seq<Option<ValueEntry>> {
    seq(|keys|, i requires 0 <= i < |keys| => Lookup(m, keys[i], now))
  }

  /** One operation of the engine. */
  function Step(m: Store, max: nat, c: Call): (Store, Answer) {
    match c.op
    case OGet(k) => (LazyRemove(m, k, c.t1, c.t2), AEntry(Lookup(m, k, c.t1)))
    case OSet(k, e) => var (m', r) := SetState(m, max, k, e, c.order, c.t1); (m', ASet(r))
    case ODel(k) => var (m', r) := DelState(m, k, c.t1); (m', AFlag(r))
    case OIncr(k) => var (m', r) := IncrState(m, max, k, c.order, c.t1, c.t2); (m', AIncr(r))
    case OExists(k) => (LazyRemove(m, k, c.t1, c.t2), AFlag(LiveAt(m, k, c.t1)))
    case OTtl(k) => (LazyRemove(m, k, c.t1, c.t2), ANumber(TtlAnswer(m, k, c.t2)))
    case OExpire(k, s) => (ExpireState(m, k, s, c.t1, c.t2), AFlag(LiveAt(m, k, c.t1)))
    case OMget(ks) => (m, AEntries(LookupAll(m, ks, c.t1)))
    case OKeys => (m, AKeys(Live(m, c.t1).Keys))
    case OClear => (map[], ANothing)
    case OSweep => (Live(m, c.t1), ANothing)
  }

  // ---- the abstract map -----------------------------------------------------

  /** The same operation on a map that forgets nothing by itself: an entry past its deadline
      is simply not seen. Reads and the sweep change nothing. */
  function AbsStep(a: Store, c: Call): (Store, Answer) {
    var seen := Live(a, c.t1);
    match c.op
    case OGet(k) => (a, AEntry(if k in seen then Some(seen[k]) else None))
    case OSet(k, e) => (a[k := e], ASet(Done(())))
    case ODel(k) => (a - {k}, AFlag(k in seen))
    case OIncr(k) => AbsIncr(a, seen, k, c.t2)
    case OExists(k) => (a, AFlag(k in seen))
    case OTtl(k) => (a, ANumber(AbsTtl(Live(a, c.t2), k, c.t2)))
    case OExpire(k, s) =>
      (if k in seen then a[k := seen[k].(expiresAt := Some(c.t2 + s * SECOND))] else a, AFlag(k in seen))
    case OMget(ks) =>
      (a, AEntries(seq(|ks|, i requires 0 <= i < |ks| => if ks[i] in seen then Some(seen[ks[i]]) else None)))
    case OKeys => (a, AKeys(seen.Keys))
    case OClear => (map[], ANothing)
    case OSweep => (a, ANothing)
  }

  function AbsIncr(a: Store, seen: Store, k: Key, now: Instant): (Store, Answer) {
    if k !in seen then (a[k := NewEntry(ONE, now)], AIncr(Done(1)))
    else
      match ParseI64(seen[k].data)
      case None => (a, AIncr(Fault(NotAnInteger(k))))
      case Some(v) => (a[k := seen[k].(data := ItoaInt(WrapI64(v + 1)))], AIncr(Done(WrapI64(v + 1))))
  }

  function AbsTtl(seen: Store, k: Key, now: Instant): int
    requires forall j :: j in seen ==> !seen[j].IsExpiredAt(now)
  {
    if k !in seen then -2
    else if seen[k].expiresAt.None? then -1
    else (seen[k].expiresAt.value - now) / SECOND
  }

  // ---- refinement -----------------------------------------------------------

  lemma LiveLater(m: Store, a: Store, t: Instant, u: Instant)
    requires Live(m, t) == Live(a, t) && t <= u
    ensures Live(m, u) == Live(a, u)
  {
    forall k
      ensures k in Live(m, u) <==> k in Live(a, u)
      ensures k in Live(m, u) ==> Live(m, u)[k] == Live(a, u)[k]
    {
      assert k in Live(m, u) ==> k in Live(m, t) && Live(m, t)[k] == m[k];
      assert k in Live(a, u) ==> k in Live(a, t) && Live(a, t)[k] == a[k];
      if k in Live(m, t) {
        assert Live(a, t)[k] == a[k] == m[k];
      }
    }
  }

  /** What agreement means for one key. */
  lemma SameView(m: Store, a: Store, t: Instant, k: Key)
    requires Live(m, t) == Live(a, t)
    ensures LiveAt(m, k, t) <==> k in Live(a, t)
    ensures LiveAt(m, k, t) <==> LiveAt(a, k, t)
    ensures LiveAt(m, k, t) ==> k in a && m[k] == a[k] == Live(a, t)[k]
  {
    assert LiveAt(m, k, t) <==> k in Live(m, t);
    assert LiveAt(a, k, t) <==> k in Live(a, t);
    if LiveAt(m, k, t) {
      assert Live(m, t)[k] == Live(a, t)[k];
    }
  }

  /** Dropping an expired entry is invisible; so is writing the same entry on both sides. */
  lemma LiveRemoveExpired(m: Store, k: Key, t: Instant)
    requires k !in m || m[k].IsExpiredAt(t)
    ensures Live(m - {k}, t) == Live(m, t)
  {
  }

  lemma LivePut(m: Store, a: Store, k: Key, e: ValueEntry, t: Instant)
    requires Live(m, t) == Live(a, t)
    ensures Live(m[k := e], t) == Live(a[k := e], t)
  {
    var lm, la := Live(m[k := e], t), Live(a[k := e], t);
    forall j
      ensures j in lm <==> j in la
      ensures j in lm ==> lm[j] == la[j]
    {
      SameView(m, a, t, j);
    }
  }

  lemma LiveDrop(m: Store, a: Store, k: Key, t: Instant)
    requires Live(m, t) == Live(a, t)
    ensures Live(m - {k}, t) == Live(a - {k}, t)
  {
    var lm, la := Live(m - {k}, t), Live(a - {k}, t);
    forall j
      ensures j in lm <==> j in la
      ensures j in lm ==> lm[j] == la[j]
    {
      SameView(m, a, t, j);
    }
  }

  /** Each operation answers as the abstract map does and keeps the two in agreement. */
  lemma StepRefines(m: Store, a: Store, c: Call)
    requires c.t1 <= c.t2 && Live(m, c.t1) == Live(a, c.t1)
    ensures Step(m, 0, c).1 == AbsStep(a, c).1
    ensures Live(Step(m, 0, c).0, c.t2) == Live(AbsStep(a, c).0, c.t2)
  {
    LiveLater(m, a, c.t1, c.t2);
    hide Live, Lookup, LiveAt, LazyRemove, TtlAnswer, AbsTtl, ExpireState, DelState, IncrState, AbsIncr, LookupAll;
    match c.op {
      case OGet(k) => ReadRefines(m, a, k, c.t1, c.t2);
      case OExists(k) => ReadRefines(m, a, k, c.t1, c.t2);
      case OTtl(k) => ReadRefines(m, a, k, c.t1, c.t2);
      case OSet(k, e) => LivePut(m, a, k, e, c.t2);
      case ODel(k) => DelRefines(m, a, k, c);
      case OIncr(k) => IncrRefines(m, a, k, c);
      case OExpire(k, s) => ExpireRefines(m, a, k, s, c);
      case OMget(ks) => MgetRefines(m, a, ks, c);
      case OSweep => LiveOfLive(m, c.t1, c.t2);
      case _ =>
    }
  }

  lemma LiveOfLive(m: Store, t1: Instant, t2: Instant)
    requires t1 <= t2
    ensures Live(Live(m, t1), t2) == Live(m, t2)
  {
    LiveLater(Live(m, t1), m, t1, t2);
  }

  lemma DelRefines(m: Store, a: Store, k: Key, c: Call)
    requires c.op == ODel(k)
    requires c.t1 <= c.t2 && Live(m, c.t1) == Live(a, c.t1) && Live(m, c.t2) == Live(a, c.t2)
    ensures Step(m, 0, c).1 == AbsStep(a, c).1
    ensures Live(Step(m, 0, c).0, c.t2) == Live(AbsStep(a, c).0, c.t2)
  {
    SameView(m, a, c.t1, k);
    LiveDrop(m, a, k, c.t2);
    if !LiveAt(m, k, c.t1) {
      LiveRemoveExpired(m, k, c.t2);
    }
  }

  lemma ExpireRefines(m: Store, a: Store, k: Key, s: nat, c: Call)
    requires c.op == OExpire(k, s)
    requires c.t1 <= c.t2 && Live(m, c.t1) == Live(a, c.t1) && Live(m, c.t2) == Live(a, c.t2)
    ensures Step(m, 0, c).1 == AbsStep(a, c).1
    ensures Live(Step(m, 0, c).0, c.t2) == Live(AbsStep(a, c).0, c.t2)
  {
    ReadRefines(m, a, k, c.t1, c.t2);
    if LiveAt(m, k, c.t1) {
      LivePut(m, a, k, m[k].(expiresAt := Some(c.t2 + s * SECOND)), c.t2);
    }
  }

  lemma MgetRefines(m: Store, a: Store, ks: seq<Key>, c: Call)
    requires c.op == OMget(ks)
    requires c.t1 <= c.t2 && Live(m, c.t1) == Live(a, c.t1) && Live(m, c.t2) == Live(a, c.t2)
    ensures Step(m, 0, c).1 == AbsStep(a, c).1
    ensures Live(Step(m, 0, c).0, c.t2) == Live(AbsStep(a, c).0, c.t2)
  {
    forall i | 0 <= i < |ks|
      ensures LookupAll(m, ks, c.t1)[i] == if ks[i] in Live(a, c.t1) then Some(Live(a, c.t1)[ks[i]]) else None
    {
      SameView(m, a, c.t1, ks[i]);
    }
  }

  lemma ReadRefines(m: Store, a: Store, k: Key, t1: Instant, t2: Instant)
    requires t1 <= t2 && Live(m, t1) == Live(a, t1) && Live(m, t2) == Live(a, t2)
    ensures Lookup(m, k, t1) == if k in Live(a, t1) then Some(Live(a, t1)[k]) else None
    ensures LiveAt(m, k, t1) <==> k in Live(a, t1)
    ensures LiveAt(m, k, t1) ==> m[k] == Live(a, t1)[k]
    ensures TtlAnswer(m, k, t2) == AbsTtl(Live(a, t2), k, t2)
    ensures Live(LazyRemove(m, k, t1, t2), t2) == Live(a, t2)
  {
    SameView(m, a, t1, k);
    SameView(m, a, t2, k);
    if LazyRemove(m, k, t1, t2) != m {
      LiveRemoveExpired(m, k, t2);
    }
  }

  lemma IncrRefines(m: Store, a: Store, k: Key, c: Call)
    requires c.op == OIncr(k)
    requires c.t1 <= c.t2 && Live(m, c.t1) == Live(a, c.t1) && Live(m, c.t2) == Live(a, c.t2)
    ensures Step(m, 0, c).1 == AbsStep(a, c).1
    ensures Live(Step(m, 0, c).0, c.t2) == Live(AbsStep(a, c).0, c.t2)
  {
    hide ParseI64, ItoaInt, WrapI64;
    SameView(m, a, c.t1, k);
    if LiveAt(m, k, c.t1) {
      var v := ParseI64(m[k].data);
      if v.Some? {
        LivePut(m, a, k, m[k].(data := ItoaInt(WrapI64(v.value + 1))), c.t2);
      }
    } else {
      LivePut(m, a, k, NewEntry(ONE, c.t2), c.t2);
      if k in m {
        assert (m - {k})[k := NewEntry(ONE, c.t2)] == m[k := NewEntry(ONE, c.t2)];
      }
    }
  }

  /** A monotone clock over the whole run. */
  predicate Timed(calls: seq<Call>, t: Instant) {
    if calls == [] then true
    else t <= calls[0].t1 <= calls[0].t2 && Timed(calls[1..], calls[0].t2)
  }

  function Run(m: Store, max: nat, calls: seq<Call>): (Store, seq<Answer>)
    decreases |calls|
  {
    if calls == [] then (m, []) else
    var (m1, x) := Step(m, max, calls[0]);
    var (m2, xs) := Run(m1, max, calls[1..]);
    (m2, [x] + xs)
  }

  function AbsRun(a: Store, calls: seq<Call>): (Store, seq<Answer>)
    decreases |calls|
  {
    if calls == [] then (a, []) else
    var (a1, x) := AbsStep(a, calls[0]);
    var (a2, xs) := AbsRun(a1, calls[1..]);
    (a2, [x] + xs)
  }

  function EndTime(calls: seq<Call>, t: Instant): Instant {
    if calls == [] then t else calls[|calls| - 1].t2
  }

  /** The engine without a key limit answers every run as the abstract map does. Lazy
      removal and sweeping show only in the size of the map, which is never below the
      number of live entries and equals it right after a sweep. */
  lemma {:induction false} TtlRefinement(m: Store, a: Store, calls: seq<Call>, t: Instant)
    requires Timed(calls, t) && Live(m, t) == Live(a, t)
    ensures Run(m, 0, calls).1 == AbsRun(a, calls).1
    ensures
      var (m', a', u) := (Run(m, 0, calls).0, AbsRun(a, calls).0, EndTime(calls, t));
      && Live(m', u) == Live(a', u)
      && (forall now: Instant :: u <= now ==> |Live(a', now)| <= |m'|)
      && (forall now: Instant :: u <= now ==> |Live(m', now)| == |Live(a', now)|)
    decreases |calls|
  {
    hide Step, AbsStep;
    if calls == [] {
      forall now: Instant | t <= now
        ensures |Live(a, now)| <= |m| && |Live(m, now)| == |Live(a, now)|
      {
        LiveLater(m, a, t, now);
        LiveSize(m, now);
      }
    } else {
      var c := calls[0];
      LiveLater(m, a, t, c.t1);
      StepRefines(m, a, c);
      TtlRefinement(Step(m, 0, c).0, AbsStep(a, c).0, calls[1..], c.t2);
    }
  }

  lemma LiveSize(m: Store, now: Instant)
    ensures |Live(m, now)| <= |m|
  {
    SubsetSize(Live(m, now).Keys, m.Keys);
  }

  lemma {:induction false} SubsetSize(a: set<Key>, b: set<Key>)
    requires a <= b
    ensures |a| <= |b|
    decreases a
  {
    if a != {} {
      var x :| x in a;
      SubsetSize(a - {x}, b - {x});
    }
  }

  /** Right after a sweep the size is the number of live entries of the abstract map. */
  lemma SweepMakesLenExact(m: Store, a: Store, c: Call)
    requires c.op == OSweep && Live(m, c.t1) == Live(a, c.t1)
    ensures |Step(m, 0, c).0| == |Live(a, c.t1)|
  {
  }

  // ---- the key limit ----------------------------------------------------------

  /** Every call saw an order of the map it ran on. */
  predicate Ordered(m: Store, max: nat, calls: seq<Call>)
    decreases |calls|
  {
    if calls == [] then true
    else Enumerates(calls[0].order, m) && Ordered(Step(m, max, calls[0]).0, max, calls[1..])
  }

  lemma StepWithinLimit(m: Store, max: nat, c: Call)
    requires max > 0 && |m| <= max && Enumerates(c.order, m)
    ensures |Step(m, max, c).0| <= max
  {
    hide SetState, IncrState, LazyRemove, ExpireState, Live, DelState;
    match c.op {
      case OSet(k, e) => SetExact(m, max, k, e, c.order, c.t1);
      case OIncr(k) => IncrExact(m, max, k, c.order, c.t1, c.t2);
      case OSweep => LiveSize(m, c.t1);
      case OExpire(k, s) => ShrinkingSizes(m, k, s, c.t1, c.t2);
      case OGet(k) => ShrinkingSizes(m, k, 0, c.t1, c.t2);
      case OExists(k) => ShrinkingSizes(m, k, 0, c.t1, c.t2);
      case OTtl(k) => ShrinkingSizes(m, k, 0, c.t1, c.t2);
      case ODel(k) => ShrinkingSizes(m, k, 0, c.t1, c.t2);
      case _ =>
    }
  }

  lemma ShrinkingSizes(m: Store, k: Key, s: nat, t1: Instant, t2: Instant)
    ensures |LazyRemove(m, k, t1, t2)| <= |m|
    ensures |ExpireState(m, k, s, t1, t2)| <= |m|
    ensures |DelState(m, k, t1).0| <= |m|
  {
    if k in m {
      MapRemoveSize(m, k);
      MapAddSize(m, k, m[k].(expiresAt := Some(t2 + s * SECOND)));
    }
  }

  /** Run one operation at a time from within the limit, the map never outgrows it. */
  lemma {:induction false} LimitHolds(m: Store, max: nat, calls: seq<Call>)
    requires max > 0 && |m| <= max && Ordered(m, max, calls)
    ensures |Run(m, max, calls).0| <= max
    decreases |calls|
  {
    hide Step;
    if calls != [] {
      StepWithinLimit(m, max, calls[0]);
      LimitHolds(Step(m, max, calls[0]).0, max, calls[1..]);
    }
  }
}
