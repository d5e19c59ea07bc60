/** The storage engine: a map whose entries carry deadlines, with lazy removal, a sweeper,
    a key limit and sampled eviction. Clock readings and the iteration order of the
    concurrent map are inputs. */
module Engine {
  import opened Bytes
  import opened Domain

  type Store = map<Key, ValueEntry>

  datatype EngineError = NotAnInteger(key: Key) | OutOfMemory

  datatype Outcome<+T> = Done(value: T) | Fault(error: EngineError)

  const ONE: Bytes := [49]

  // ---- what the operations mean ---------------------------------------------

  predicate LiveAt(m: Store, k: Key, now: Instant) {
    k in m && !m[k].IsExpiredAt(now)
  }

  /** The key's entry, if any. */
  function EntryAt(m: Store, k: Key): Option<ValueEntry> {
    if k in m then Some(m[k]) else None
  }

  /** The entries that have not reached their deadline. */
  function Live(m: Store, now: Instant): Store {
    map k | k in m && !m[k].IsExpiredAt(now) :: m[k]
  }

  /** `remove_if(key, is_expired)` after a first test at `t1` said the entry is expired. */
  function LazyRemove(m: Store, k: Key, t1: Instant, t2: Instant): Store {
    if k in m && m[k].IsExpiredAt(t1) && m[k].IsExpiredAt(t2) then m - {k} else m
  }

  function Lookup(m: Store, k: Key, now: Instant): Option<ValueEntry> {
    if LiveAt(m, k, now) then Some(m[k]) else None
  }

  /** The remaining whole seconds, -1 without a deadline, -2 without a live entry. */
  function TtlAnswer(m: Store, k: Key, now: Instant): int {
    if !LiveAt(m, k, now) then -2
    else if m[k].expiresAt.None? then -1
    else (m[k].expiresAt.value - now) / SECOND
  }

  function ExpireState(m: Store, k: Key, seconds: nat, t1: Instant, t2: Instant): Store {
    if LiveAt(m, k, t1) then m[k := m[k].(expiresAt := Some(t2 + seconds * SECOND))]
    else LazyRemove(m, k, t1, t2)
  }

  // ---- eviction -------------------------------------------------------------

  /** An order in which the map's iterator may visit its keys. */
  predicate Enumerates(order: seq<Key>, m: Store) {
    && (forall i :: 0 <= i < |order| ==> order[i] in m)
    && (forall k :: k in m ==> k in order)
    && (forall i, j :: 0 <= i < j < |order| ==> order[i] != order[j])
  }

  /** The live keys of `order`, in that order. */
  function LiveKeys(m: Store, order: seq<Key>, now: Instant): (r: seq<Key>)
    ensures forall i :: 0 <= i < |r| ==> LiveAt(m, r[i], now)
  {
    if order == [] then []
    else
      var r := LiveKeys(m, order[..|order| - 1], now);
      var k := order[|order| - 1];
      if LiveAt(m, k, now) then r + [k] else r
  }

  /** `LiveKeys` keeps exactly the live keys, each once when the order has no repetition. */
  lemma {:induction false} LiveKeysAre(m: Store, order: seq<Key>, now: Instant)
    ensures forall k :: k in LiveKeys(m, order, now) <==> k in order && LiveAt(m, k, now)
    ensures (forall i, j :: 0 <= i < j < |order| ==> order[i] != order[j])
        ==> forall i, j :: 0 <= i < j < |LiveKeys(m, order, now)| ==> LiveKeys(m, order, now)[i] != LiveKeys(m, order, now)[j]
  {
    if order != [] {
      var n := |order| - 1;
      LiveKeysAre(m, order[..n], now);
      assert order == order[..n] + [order[n]];
    }
  }

  /** Unknown creation times come first. */
  predicate Older(a: Option<Instant>, b: Option<Instant>) {
    b.Some? && (a.None? || a.value < b.value)
  }

  /** The first of the oldest keys in a sample. */
  function FirstOldest(m: Store, sample: seq<Key>): (r: Option<Key>)
    requires forall i :: 0 <= i < |sample| ==> sample[i] in m
    ensures r.None? <==> sample == []
    ensures r.Some? ==> r.value in m && r.value in sample
  {
    if sample == [] then None
    else
      var n := |sample| - 1;
      var r := FirstOldest(m, sample[..n]);
      if r.None? || Older(m[sample[n]].createdAt, m[r.value].createdAt) then Some(sample[n]) else r
  }

  /** Strictly older than every earlier key of the sample, no younger than any later one. */
  predicate IsFirstOldest(m: Store, sample: seq<Key>, j: nat)
    requires j < |sample| && forall i :: 0 <= i < |sample| ==> sample[i] in m
  {
    && (forall i :: 0 <= i < j ==> Older(m[sample[j]].createdAt, m[sample[i]].createdAt))
    && (forall i :: j <= i < |sample| ==> !Older(m[sample[i]].createdAt, m[sample[j]].createdAt))
  }

  lemma {:induction false} FirstOldestIs(m: Store, sample: seq<Key>) returns (j: nat)
    requires sample != [] && forall i :: 0 <= i < |sample| ==> sample[i] in m
    ensures j < |sample| && FirstOldest(m, sample) == Some(sample[j]) && IsFirstOldest(m, sample, j)
  {
    var n := |sample| - 1;
    var init := sample[..n];
    assert forall i :: 0 <= i < n ==> init[i] == sample[i];
    if init == [] {
      j := 0;
    } else {
      j := FirstOldestIs(m, init);
      assert FirstOldest(m, init) == Some(sample[j]);
      if Older(m[sample[n]].createdAt, m[sample[j]].createdAt) {
        j := n;
      }
    }
  }

  function FirstFive(s: seq<Key>): seq<Key> {
    if |s| <= 5 then s else s[..5]
  }

  /** The key that `evict_one_if_needed` removes from a full map. */
  function Victim(m: Store, order: seq<Key>, now: Instant): (r: Option<Key>)
    ensures r.Some? ==> LiveAt(m, r.value, now)
    ensures r.None? <==> LiveKeys(m, order, now) == []
  {
    FirstOldest(m, FirstFive(LiveKeys(m, order, now)))
  }

  function EvictState(m: Store, max: nat, order: seq<Key>, now: Instant): (r: Store)
    ensures |r| <= |m|
  {
    if max == 0 || |m| < max then m else
    match Victim(m, order, now)
    case None => m
    case Some(k) =>
      assert (m - {k}).Keys == m.Keys - {k};
      m - {k}
  }

  lemma EvictNoop(m: Store, max: nat, order: seq<Key>, now: Instant)
    ensures max == 0 || |m| < max ==> EvictState(m, max, order, now) == m
  {
  }

  // ---- writes ---------------------------------------------------------------

  function SetState(m: Store, max: nat, k: Key, e: ValueEntry, order: seq<Key>, now: Instant): (Store, Outcome<()>) {
    if max > 0 && k !in m then
      var m1 := EvictState(m, max, order, now);
      if |m1| >= max then (m1, Fault(OutOfMemory)) else (m1[k := e], Done(()))
    else (m[k := e], Done(()))
  }

  function DelState(m: Store, k: Key, now: Instant): (Store, bool) {
    if LiveAt(m, k, now) then (m - {k}, true) else (m, false)
  }

  function IncrState(m: Store, max: nat, k: Key, order: seq<Key>, t1: Instant, t2: Instant): (Store, Outcome<int>) {
    if k in m then
      if m[k].IsExpiredAt(t1) then
        var m1 := m - {k};
        if max > 0 && |m1| >= max then (m1, Fault(OutOfMemory)) else (m1[k := NewEntry(ONE, t2)], Done(1))
      else
        match ParseI64(m[k].data)
        case None => (m, Fault(NotAnInteger(k)))
        case Some(v) =>
          var n := WrapI64(v + 1);
          (m[k := m[k].(data := ItoaInt(n))], Done(n))
    else
      var m1 := EvictState(m, max, order, t1);
      if max > 0 && |m1| >= max then (m1, Fault(OutOfMemory)) else (m1[k := NewEntry(ONE, t2)], Done(1))
  }

  // ---- dumping --------------------------------------------------------------

  datatype DumpItem = DumpItem(key: Key, value: Bytes, ttlMs: int)

  /** Remaining whole milliseconds; -1 also for a remainder that rounds down to nothing. */
  function DumpTtl(e: ValueEntry, now: Instant): int
    requires !e.IsExpiredAt(now)
  {
    if e.expiresAt.None? then -1
    else
      var ms := WrapI64((e.expiresAt.value - now) / MILLI);
      if ms > 0 then ms else -1
  }

  function Dump(m: Store, order: seq<Key>, now: Instant): (r: seq<DumpItem>)
    ensures |r| == |LiveKeys(m, order, now)|
    ensures forall i :: 0 <= i < |r| ==>
      var k := LiveKeys(m, order, now)[i];
      r[i] == DumpItem(k, m[k].data, DumpTtl(m[k], now))
  {
    var ks := LiveKeys(m, order, now);
    seq(|ks|, i requires 0 <= i < |ks| => DumpItem(ks[i], m[ks[i]].data, DumpTtl(m[ks[i]], now)))
  }

  // ---- the engine object ----------------------------------------------------

  class DashMapEngine {
    var map_: Store
    const maxKeys: nat

    constructor (maxKeys: nat)
      ensures map_ == map[] && this.maxKeys == maxKeys
    {
      map_ := map[];
      this.maxKeys := maxKeys;
    }

    /** `sweep_expired`. */
    method SweepExpired(now: Instant)
      modifies this
      ensures map_ == Live(old(map_), now)
    {
      map_ := map k | k in map_ && !map_[k].IsExpiredAt(now) :: map_[k];
    }

    /** `evict_one_if_needed`: sample up to five live entries, drop the first oldest. */
    method EvictOneIfNeeded(order: seq<Key>, now: Instant)
      requires maxKeys > 0 ==> Enumerates(order, map_)
      modifies this
      ensures map_ == EvictState(old(map_), maxKeys, order, now)
    {
      hide LiveKeys, FirstOldest;
      if maxKeys == 0 || |map_| < maxKeys {
        return;
      }
      NoKeys(map_, now);
      assert order[..0] == [];
      var oldestKey: Option<Key> := None;
      var oldestTime: Option<Instant> := None;
      var sampled := 0;
      ghost var live: seq<Key> := [];
      var i := 0;
      while i < |order|
        invariant 0 <= i <= |order|
        invariant map_ == old(map_)
        invariant live == LiveKeys(map_, order[..i], now)
        invariant sampled == |live| < 5
        invariant forall j :: 0 <= j < |live| ==> live[j] in map_
        invariant oldestKey == FirstOldest(map_, live)
        invariant oldestKey.Some? ==> oldestTime == map_[oldestKey.value].createdAt
      {
        LiveKeysSnoc(map_, order, i, now);
        var e := map_[order[i]];
        if !e.IsExpiredAt(now) {
          FirstOldestSnoc(map_, live, order[i]);
          live := live + [order[i]];
          if oldestKey.None? || Older(e.createdAt, oldestTime) {
            oldestKey := Some(order[i]);
            oldestTime := e.createdAt;
          }
          sampled := sampled + 1;
          if sampled >= 5 {
            i := i + 1;
            break;
          }
        }
        i := i + 1;
      }
      SampleIsFirstFive(map_, order, i, now);
      if oldestKey.Some? {
        map_ := map_ - {oldestKey.value};
      }
    }

    /** `get`: the test at `t1`, the conditional removal at `t2`. */
    method Get(key: Key, t1: Instant, t2: Instant) returns (r: Option<ValueEntry>)
      modifies this
      ensures r == Lookup(old(map_), key, t1)
      ensures map_ == LazyRemove(old(map_), key, t1, t2)
    {
      if key !in map_ {
        return None;
      }
      var entry := map_[key];
      if entry.IsExpiredAt(t1) {
        RemoveIfExpired(key, t2);
        return None;
      }
      return Some(entry);
    }

    method RemoveIfExpired(key: Key, now: Instant)
      modifies this
      ensures map_ == if key in old(map_) && old(map_)[key].IsExpiredAt(now) then old(map_) - {key} else old(map_)
    {
      if key in map_ && map_[key].IsExpiredAt(now) {
        map_ := map_ - {key};
      }
    }

    /** `set`. */
    method Set(key: Key, value: ValueEntry, order: seq<Key>, now: Instant) returns (r: Outcome<()>)
      requires maxKeys > 0 ==> Enumerates(order, map_)
      modifies this
      ensures (map_, r) == SetState(old(map_), maxKeys, key, value, order, now)
    {
      if maxKeys > 0 && key !in map_ {
        EvictOneIfNeeded(order, now);
        if |map_| >= maxKeys {
          return Fault(OutOfMemory);
        }
      }
      map_ := map_[key := value];
      return Done(());
    }

    /** `del`: an expired entry is left in place and reported absent. */
    method Del(key: Key, now: Instant) returns (r: bool)
      modifies this
      ensures (map_, r) == DelState(old(map_), key, now)
    {
      if key in map_ && !map_[key].IsExpiredAt(now) {
        map_ := map_ - {key};
        return true;
      }
      return false;
    }

    /** `incr`. */
    method Incr(key: Key, order: seq<Key>, t1: Instant, t2: Instant) returns (r: Outcome<int>)
      requires maxKeys > 0 ==> Enumerates(order, map_)
      modifies this
      ensures (map_, r) == IncrState(old(map_), maxKeys, key, order, t1, t2)
    {
      EvictNoop(map_, maxKeys, order, t1);
      hide EvictState, ParseI64, ItoaInt, WrapI64;
      if key in map_ {
        if map_[key].IsExpiredAt(t1) {
          map_ := map_ - {key};
          if maxKeys > 0 && |map_| >= maxKeys {
            return Fault(OutOfMemory);
          }
          map_ := map_[key := NewEntry(ONE, t2)];
          return Done(1);
        }
        var val := ParseI64(map_[key].data);
        if val.None? {
          return Fault(NotAnInteger(key));
        }
        var newVal := WrapI64(val.value + 1);
        map_ := map_[key := map_[key].(data := ItoaInt(newVal))];
        return Done(newVal);
      }
      if maxKeys > 0 && |map_| >= maxKeys {
        EvictOneIfNeeded(order, t1);
        if |map_| >= maxKeys {
          return Fault(OutOfMemory);
        }
      }
      map_ := map_[key := NewEntry(ONE, t2)];
      return Done(1);
    }

    method Len() returns (n: nat)
      ensures n == |map_|
    {
      return |map_|;
    }

    /** `exists`. */
    method Exists(key: Key, t1: Instant, t2: Instant) returns (r: bool)
      modifies this
      ensures r == LiveAt(old(map_), key, t1)
      ensures map_ == LazyRemove(old(map_), key, t1, t2)
    {
      if key !in map_ {
        return false;
      }
      if map_[key].IsExpiredAt(t1) {
        RemoveIfExpired(key, t2);
        return false;
      }
      return true;
    }

    /** `ttl_secs`: the entry may expire between its two clock readings. */
    method TtlSecs(key: Key, t1: Instant, t2: Instant) returns (r: int)
      requires t1 <= t2
      modifies this
      ensures r == TtlAnswer(old(map_), key, t2)
      ensures map_ == LazyRemove(old(map_), key, t1, t2)
    {
      if key !in map_ {
        return -2;
      }
      var entry := map_[key];
      if entry.IsExpiredAt(t1) {
        RemoveIfExpired(key, t2);
        return -2;
      }
      if entry.expiresAt.None? {
        return -1;
      }
      if entry.expiresAt.value <= t2 {
        return -2;
      }
      return (entry.expiresAt.value - t2) / SECOND;
    }

    /** `expire`. */
    method Expire(key: Key, seconds: nat, t1: Instant, t2: Instant) returns (r: bool)
      modifies this
      ensures r == LiveAt(old(map_), key, t1)
      ensures map_ == ExpireState(old(map_), key, seconds, t1, t2)
    {
      if key !in map_ {
        return false;
      }
      if map_[key].IsExpiredAt(t1) {
        RemoveIfExpired(key, t2);
        return false;
      }
      map_ := map_[key := map_[key].(expiresAt := Some(t2 + seconds * SECOND))];
      return true;
    }

    method Clear()
      modifies this
      ensures map_ == map[]
    {
      map_ := map[];
    }

    /** `keys`. */
    method Keys(order: seq<Key>, now: Instant) returns (r: seq<Key>)
      requires Enumerates(order, map_)
      ensures r == LiveKeys(map_, order, now)
    {
      r := [];
      for i := 0 to |order|
        invariant r == LiveKeys(map_, order[..i], now)
      {
        assert order[..i + 1][..i] == order[..i];
        if !map_[order[i]].IsExpiredAt(now) {
          r := r + [order[i]];
        }
      }
      assert order[..|order|] == order;
    }

    /** `mget`: one clock reading for all keys, and no removal. */
    method Mget(keys: seq<Key>, now: Instant) returns (r: seq<Option<ValueEntry>>)
      ensures |r| == |keys|
      ensures forall i :: 0 <= i < |keys| ==> r[i] == Lookup(map_, keys[i], now)
    {
      r := [];
      for i := 0 to |keys|
        invariant |r| == i
        invariant forall j :: 0 <= j < i ==> r[j] == Lookup(map_, keys[j], now)
      {
        r := r + [Lookup(map_, keys[i], now)];
      }
    }

    /** `dump_entries`. */
    method DumpEntries(order: seq<Key>, now: Instant) returns (items: seq<DumpItem>, count: nat)
      requires Enumerates(order, map_)
      ensures items == Dump(map_, order, now) && count == |items|
    {
      items, count := [], 0;
      for i := 0 to |order|
        invariant items == Dump(map_, order[..i], now) && count == |items|
      {
        assert order[..i + 1][..i] == order[..i];
        var e := map_[order[i]];
        if !e.IsExpiredAt(now) {
          items := items + [DumpItem(order[i], e.data, DumpTtl(e, now))];
          count := count + 1;
        }
      }
      assert order[..|order|] == order;
    }
  }

  lemma NoKeys(m: Store, now: Instant)
    ensures LiveKeys(m, [], now) == []
    ensures FirstOldest(m, []) == None
  {
  }

  lemma LiveKeysSnoc(m: Store, order: seq<Key>, i: nat, now: Instant)
    requires i < |order|
    ensures LiveKeys(m, order[..i + 1], now)
         == LiveKeys(m, order[..i], now) + (if LiveAt(m, order[i], now) then [order[i]] else [])
  {
    assert order[..i + 1][..i] == order[..i];
  }

  lemma FirstOldestSnoc(m: Store, sample: seq<Key>, k: Key)
    requires k in m && forall i :: 0 <= i < |sample| ==> sample[i] in m
    ensures
      var r := FirstOldest(m, sample);
      FirstOldest(m, sample + [k])
        == if r.None? || Older(m[k].createdAt, m[r.value].createdAt) then Some(k) else r
  {
    assert (sample + [k])[..|sample|] == sample;
  }

  lemma {:induction false} LiveKeysPrefix(m: Store, order: seq<Key>, i: nat, now: Instant)
    requires i <= |order|
    ensures LiveKeys(m, order[..i], now) <= LiveKeys(m, order, now)
    decreases |order| - i
  {
    if i == |order| {
      assert order[..i] == order;
    } else {
      assert order[..i + 1][..i] == order[..i];
      LiveKeysPrefix(m, order, i + 1, now);
    }
  }

  /** A scan that stops at five live keys, or at the end, has seen the first five. */
  lemma SampleIsFirstFive(m: Store, order: seq<Key>, i: nat, now: Instant)
    requires i <= |order|
    requires |LiveKeys(m, order[..i], now)| <= 5
    requires i < |order| ==> |LiveKeys(m, order[..i], now)| == 5
    ensures FirstFive(LiveKeys(m, order, now)) == LiveKeys(m, order[..i], now)
  {
    if i == |order| {
      assert order[..i] == order;
    } else {
      LiveKeysPrefix(m, order, i, now);
    }
  }

  // ---- eviction exactness -----------------------------------------------------

  lemma MapRemoveSize(m: Store, k: Key)
    requires k in m
    ensures |m - {k}| == |m| - 1
  {
    assert (m - {k}).Keys == m.Keys - {k};
    assert |m.Keys - {k}| == |m.Keys| - 1;
  }

  lemma MapAddSize(m: Store, k: Key, e: ValueEntry)
    ensures |m[k := e]| == if k in m then |m| else |m| + 1
  {
    assert m[k := e].Keys == m.Keys + {k};
    if k in m {
      assert m.Keys + {k} == m.Keys;
    }
  }

  /** No entry is live: what makes eviction powerless. */
  predicate NoneLive(m: Store, now: Instant) {
    forall k :: k in m ==> m[k].IsExpiredAt(now)
  }

  /** Within the limit, `set` fails exactly when the key is absent, the map is full and no
      entry is live, and then nothing changes; otherwise the key holds the new value, the
      limit still holds and at most one other key, a live one, is gone. */
  lemma SetExact(m: Store, max: nat, k: Key, e: ValueEntry, order: seq<Key>, now: Instant)
    requires max > 0 && |m| <= max && Enumerates(order, m)
    ensures
      var (m', r) := SetState(m, max, k, e, order, now);
      && |m'| <= max
      && (r == Fault(OutOfMemory) <==> k !in m && |m| == max && NoneLive(m, now))
      && (r.Fault? ==> m' == m)
      && (r.Done? ==> k in m' && m'[k] == e)
      && (r.Done? ==> forall j :: j in m' && j != k ==> j in m && m'[j] == m[j])
      && (r.Done? && k !in m && |m| == max ==>
            Victim(m, order, now).Some? && m'.Keys == m.Keys - {Victim(m, order, now).value} + {k})
      && (r.Done? && (k in m || |m| < max) ==> m' == m[k := e])
  {
    if k in m || |m| < max {
      SetWithRoom(m, max, k, e, order, now);
    } else {
      SetWhenFull(m, max, k, e, order, now);
    }
    hide SetState, Victim;
  }

  lemma SetWithRoom(m: Store, max: nat, k: Key, e: ValueEntry, order: seq<Key>, now: Instant)
    requires max > 0 && |m| <= max && (k in m || |m| < max)
    ensures SetState(m, max, k, e, order, now) == (m[k := e], Done(())) && |m[k := e]| <= max
  {
    EvictNoop(m, max, order, now);
    hide EvictState;
    MapAddSize(m, k, e);
  }

  lemma SetWhenFull(m: Store, max: nat, k: Key, e: ValueEntry, order: seq<Key>, now: Instant)
    requires max > 0 && |m| == max && k !in m && Enumerates(order, m)
    ensures NoneLive(m, now) ==> SetState(m, max, k, e, order, now) == (m, Fault(OutOfMemory))
    ensures !NoneLive(m, now) ==>
      var v := Victim(m, order, now);
      && v.Some? && v.value in m
      && SetState(m, max, k, e, order, now) == ((m - {v.value})[k := e], Done(()))
      && (m - {v.value})[k := e].Keys == m.Keys - {v.value} + {k}
      && |(m - {v.value})[k := e]| == max
  {
    EvictExact(m, max, order, now);
    hide Victim, EvictState;
    if !NoneLive(m, now) {
      MapAddSize(m - {Victim(m, order, now).value}, k, e);
    }
  }

  /** What eviction does to a map within the limit. */
  lemma EvictExact(m: Store, max: nat, order: seq<Key>, now: Instant)
    requires max > 0 && |m| <= max && Enumerates(order, m)
    ensures
      var m1 := EvictState(m, max, order, now);
      && (|m| < max ==> m1 == m)
      && (|m| == max && NoneLive(m, now) ==> m1 == m)
      && (|m| == max && !NoneLive(m, now) ==>
            var v := Victim(m, order, now);
            v.Some? && v.value in m && m1 == m - {v.value} && m1.Keys == m.Keys - {v.value} && |m1| == max - 1)
  {
    hide Victim;
    VictimExists(m, order, now);
    if |m| == max && !NoneLive(m, now) {
      MapRemoveSize(m, Victim(m, order, now).value);
    }
  }

  lemma VictimExists(m: Store, order: seq<Key>, now: Instant)
    requires Enumerates(order, m)
    ensures Victim(m, order, now).None? <==> NoneLive(m, now)
    ensures Victim(m, order, now).Some? ==> Victim(m, order, now).value in m
  {
    LiveKeysAre(m, order, now);
    var live := LiveKeys(m, order, now);
    if live != [] {
      assert live[0] in live;
    }
  }

  /** The victim is the first minimum by creation time among the first five live entries
      that the iterator visits. */
  lemma VictimIsFirstOldest(m: Store, order: seq<Key>, now: Instant) returns (j: nat)
    requires Enumerates(order, m) && Victim(m, order, now).Some?
    ensures
      var sample := FirstFive(LiveKeys(m, order, now));
      j < |sample| && Victim(m, order, now) == Some(sample[j]) && IsFirstOldest(m, sample, j)
  {
    j := FirstOldestIs(m, FirstFive(LiveKeys(m, order, now)));
  }

  /** `incr` keeps the limit and runs out of memory in the same single situation. */
  lemma IncrExact(m: Store, max: nat, k: Key, order: seq<Key>, t1: Instant, t2: Instant)
    requires max > 0 && |m| <= max && Enumerates(order, m)
    ensures
      var (m', r) := IncrState(m, max, k, order, t1, t2);
      && |m'| <= max
      && (r == Fault(OutOfMemory) <==> k !in m && |m| == max && NoneLive(m, t1))
  {
    EvictExact(m, max, order, t1);
    hide Victim, EvictState;
    if k in m {
      MapRemoveSize(m, k);
      MapAddSize(m - {k}, k, NewEntry(ONE, t2));
      if ParseI64(m[k].data).Some? {
        MapAddSize(m, k, m[k].(data := ItoaInt(WrapI64(ParseI64(m[k].data).value + 1))));
      }
    } else {
      MapAddSize(EvictState(m, max, order, t1), k, NewEntry(ONE, t2));
    }
  }
}
