/** `replay_aof`: the log drives the engine. The i-th record is applied at `clock(i)`. */
module Replay {
  import opened Bytes
  import opened Domain
  import opened Engine
  import EngineRuns
  import opened AofCodec

  type Clock = nat -> Instant

  function Always(t: Instant): Clock {
    i => t
  }

  /** The pairs of an MSET, set one after the other. */
  function PutAll(m: Store, ps: seq<(Key, Bytes)>, now: Instant): Store {
    if ps == [] then m
    else
      var n := |ps| - 1;
      PutAll(m, ps[..n], now)[ps[n].0 := NewEntry(ps[n].1, now)]
  }

  /** What a record does to an engine without a key limit. */
  function ApplyTo(m: Store, c: Command, now: Instant): Store {
    match c
    case Set(k, v, ttl) => m[k := SetEntry(v, ttl, now)]
    case Del(k) => DelState(m, k, now).0
    case Incr(k) => IncrState(m, 0, k, [], now, now).0
    case Expire(k, s) => ExpireState(m, k, s, now, now)
    case FlushDb => map[]
    case Mset(ps) => PutAll(m, ps, now)
    case _ => m
  }

  function Replayed(m: Store, cs: seq<Command>, clock: Clock): Store {
    if cs == [] then m
    else
      var n := |cs| - 1;
      ApplyTo(Replayed(m, cs[..n], clock), cs[n], clock(n))
  }

  lemma ReplayedNil(m: Store, clock: Clock)
    ensures Replayed(m, [], clock) == m
  {
  }

  lemma ReplayedSnoc(m: Store, cs: seq<Command>, c: Command, clock: Clock)
    ensures Replayed(m, cs + [c], clock) == ApplyTo(Replayed(m, cs, clock), c, clock(|cs|))
  {
    assert (cs + [c])[..|cs|] == cs;
  }

  lemma PutAllSnoc(m: Store, ps: seq<(Key, Bytes)>, p: (Key, Bytes), now: Instant)
    ensures PutAll(m, ps + [p], now) == PutAll(m, ps, now)[p.0 := NewEntry(p.1, now)]
  {
    assert (ps + [p])[..|ps|] == ps;
  }

  // ---- engines with a key limit -----------------------------------------------

  /** The iteration order of the map at the j-th scan of the i-th record. */
  type Scans = (nat, nat, Store) -> seq<Key>

  ghost predicate Enumerating(scan: Scans) {
    forall i: nat, j: nat, m: Store :: Enumerates(scan(i, j, m), m)
  }

  function PutAllWithin(m: Store, max: nat, ps: seq<(Key, Bytes)>, now: Instant, scan: Scans, i: nat): Store {
    if ps == [] then m
    else
      var n := |ps| - 1;
      var m1 := PutAllWithin(m, max, ps[..n], now, scan, i);
      SetState(m1, max, ps[n].0, NewEntry(ps[n].1, now), scan(i, n, m1), now).0
  }

  /** What the i-th record does to an engine with the limit `max`: writes that run out of memory
      are skipped. */
  function ApplyWithin(m: Store, max: nat, c: Command, now: Instant, scan: Scans, i: nat): Store {
    match c
    case Set(k, v, ttl) => SetState(m, max, k, SetEntry(v, ttl, now), scan(i, 0, m), now).0
    case Del(k) => DelState(m, k, now).0
    case Incr(k) => IncrState(m, max, k, scan(i, 0, m), now, now).0
    case Expire(k, s) => ExpireState(m, k, s, now, now)
    case FlushDb => map[]
    case Mset(ps) => PutAllWithin(m, max, ps, now, scan, i)
    case _ => m
  }

  function ReplayedWithin(m: Store, max: nat, cs: seq<Command>, clock: Clock, scan: Scans): Store {
    if cs == [] then m
    else
      var n := |cs| - 1;
      ApplyWithin(ReplayedWithin(m, max, cs[..n], clock, scan), max, cs[n], clock(n), scan, n)
  }

  lemma ReplayedWithinSnoc(m: Store, max: nat, cs: seq<Command>, c: Command, clock: Clock, scan: Scans)
    ensures ReplayedWithin(m, max, cs + [c], clock, scan)
         == ApplyWithin(ReplayedWithin(m, max, cs, clock, scan), max, c, clock(|cs|), scan, |cs|)
  {
    hide ApplyWithin;
    assert (cs + [c])[..|cs|] == cs;
  }

  lemma PutAllWithinSnoc(m: Store, max: nat, ps: seq<(Key, Bytes)>, p: (Key, Bytes), now: Instant, scan: Scans, i: nat)
    ensures
      var m1 := PutAllWithin(m, max, ps, now, scan, i);
      PutAllWithin(m, max, ps + [p], now, scan, i) == SetState(m1, max, p.0, NewEntry(p.1, now), scan(i, |ps|, m1), now).0
  {
    hide SetState;
    assert (ps + [p])[..|ps|] == ps;
  }

  /** Without a limit the scans do not matter. */
  lemma {:induction false} PutAllUnlimited(m: Store, ps: seq<(Key, Bytes)>, now: Instant, scan: Scans, i: nat)
    ensures PutAllWithin(m, 0, ps, now, scan, i) == PutAll(m, ps, now)
    decreases |ps|
  {
    if ps != [] {
      PutAllUnlimited(m, ps[..|ps| - 1], now, scan, i);
    }
  }

  lemma ApplyUnlimited(m: Store, c: Command, now: Instant, scan: Scans, i: nat)
    ensures ApplyWithin(m, 0, c, now, scan, i) == ApplyTo(m, c, now)
  {
    hide ParseI64, ItoaInt;
    if c.Mset? {
      PutAllUnlimited(m, c.pairs, now, scan, i);
    }
  }

  lemma {:induction false} ReplayedUnlimited(m: Store, cs: seq<Command>, clock: Clock, scan: Scans)
    ensures ReplayedWithin(m, 0, cs, clock, scan) == Replayed(m, cs, clock)
    decreases |cs|
  {
    hide ApplyWithin, ApplyTo;
    if cs != [] {
      var n := |cs| - 1;
      ReplayedUnlimited(m, cs[..n], clock, scan);
      ApplyUnlimited(Replayed(m, cs[..n], clock), cs[n], clock(n), scan, n);
    }
  }

  lemma {:induction false} PutAllWithinLimit(m: Store, max: nat, ps: seq<(Key, Bytes)>, now: Instant, scan: Scans, i: nat)
    requires max > 0 && |m| <= max && Enumerating(scan)
    ensures |PutAllWithin(m, max, ps, now, scan, i)| <= max
    decreases |ps|
  {
    hide SetState, Enumerates;
    if ps != [] {
      var n := |ps| - 1;
      PutAllWithinLimit(m, max, ps[..n], now, scan, i);
      var m1 := PutAllWithin(m, max, ps[..n], now, scan, i);
      SetExact(m1, max, ps[n].0, NewEntry(ps[n].1, now), scan(i, n, m1), now);
    }
  }

  /** A replay keeps the limit of its engine, whatever the log holds. */
  lemma {:induction false} ReplayKeepsLimit(m: Store, max: nat, cs: seq<Command>, clock: Clock, scan: Scans)
    requires max > 0 && |m| <= max && Enumerating(scan)
    ensures |ReplayedWithin(m, max, cs, clock, scan)| <= max
    decreases |cs|
  {
    hide SetState, IncrState, ExpireState, DelState, Enumerates, PutAllWithin;
    if cs != [] {
      var n := |cs| - 1;
      ReplayKeepsLimit(m, max, cs[..n], clock, scan);
      var m1, now := ReplayedWithin(m, max, cs[..n], clock, scan), clock(n);
      match cs[n] {
        case Set(k, v, ttl) => SetExact(m1, max, k, SetEntry(v, ttl, now), scan(n, 0, m1), now);
        case Incr(k) => IncrExact(m1, max, k, scan(n, 0, m1), now, now);
        case Mset(ps) => PutAllWithinLimit(m1, max, ps, now, scan, n);
        case Del(k) => EngineRuns.ShrinkingSizes(m1, k, 0, now, now);
        case Expire(k, s) => EngineRuns.ShrinkingSizes(m1, k, s, now, now);
        case _ =>
      }
    }
  }

  // ---- the replay loop ------------------------------------------------------------

  /** `replay_aof` on the bytes of a log. */
  method ReplayAof(engine: DashMapEngine, data: Bytes, clock: Clock, scan: Scans) returns (replayed: nat)
    requires engine.maxKeys > 0 ==> Enumerating(scan)
    modifies engine
    ensures engine.map_ == ReplayedWithin(old(engine.map_), engine.maxKeys, ReadLog(data, 0), clock, scan)
    ensures replayed == |ReadLog(data, 0)|
  {
    hide ReadRecord, ReadMset, ApplyWithin, ReadLog, Enumerating;
    var pos: nat := 0;
    replayed := 0;
    ghost var done: seq<Command> := [];
    assert done + ReadLog(data, 0) == ReadLog(data, 0);
    while pos < |data|
      invariant pos <= |data|
      invariant ReadLog(data, 0) == done + ReadLog(data, pos)
      invariant engine.map_ == ReplayedWithin(old(engine.map_), engine.maxKeys, done, clock, scan)
      invariant replayed == |done|
      decreases |data| - pos
    {
      ReadLogStep(data, pos);
      assert done + [] == done;
      var next := ReplayOne(engine, data, pos, clock(replayed), scan, replayed);
      if next.None? {
        return;
      }
      ghost var c := ReadRecord(data, pos).command;
      ReplayedWithinSnoc(old(engine.map_), engine.maxKeys, done, c, clock, scan);
      assert done + ([c] + ReadLog(data, next.value)) == (done + [c]) + ReadLog(data, next.value);
      done := done + [c];
      pos := next.value;
      replayed := replayed + 1;
    }
    ReadLogEnd(data);
    assert done + [] == done;
  }

  /** One round of the replay loop; None leaves the loop. */
  method ReplayOne(engine: DashMapEngine, data: Bytes, pos: nat, now: Instant, scan: Scans, i: nat) returns (next: Option<nat>)
    requires pos < |data| && (engine.maxKeys > 0 ==> Enumerating(scan))
    modifies engine
    ensures
      match ReadRecord(data, pos)
      case Stop => next == None && engine.map_ == old(engine.map_)
      case Apply(c, p) => next == Some(p) && engine.map_ == ApplyWithin(old(engine.map_), engine.maxKeys, c, now, scan, i)
  {
    hide ReadSet, ReadField, ReadExpire, ReadPairs, SetState, IncrState, ExpireState, DelState, FromLe, PutAllWithin, Enumerates;
    var op := data[pos];
    if op == CMD_SET {
      var s := TakeSet(data, pos + 1);
      match s {
        case Stop => return None;
        case Apply(c, p) =>
          SetIsSet(data, pos + 1);
          var _ := engine.Set(c.key, SetEntry(c.value, c.ttl, now), scan(i, 0, engine.map_), now);
          return Some(p);
      }
    } else if op == CMD_DEL {
      var f := TakeField(data, pos + 1, 2);
      if f.Torn? {
        return None;
      }
      var _ := engine.Del(f.value, now);
      return Some(f.next);
    } else if op == CMD_INCR {
      var f := TakeField(data, pos + 1, 2);
      if f.Torn? {
        return None;
      }
      var _ := engine.Incr(f.value, scan(i, 0, engine.map_), now, now);
      return Some(f.next);
    } else if op == CMD_EXPIRE {
      var s := TakeExpire(data, pos + 1);
      match s {
        case Stop => return None;
        case Apply(c, p) =>
          ExpireIsExpire(data, pos + 1);
          var _ := engine.Expire(c.key, c.seconds, now, now);
          return Some(p);
      }
    } else if op == CMD_FLUSHDB {
      engine.Clear();
      return Some(pos + 1);
    } else if op == CMD_MSET {
      if pos + 3 > |data| {
        return None;
      }
      var count := FromLe(data[pos + 1..pos + 3]);
      var p := ReplayPairs(engine, data, pos + 3, count, now, scan, i);
      return Some(p);
    } else {
      return None;
    }
  }

  lemma SetIsSet(data: Bytes, pos: nat)
    requires pos <= |data|
    ensures ReadSet(data, pos).Apply? ==> ReadSet(data, pos).command.Set?
  {
    hide ReadField;
  }

  lemma ExpireIsExpire(data: Bytes, pos: nat)
    requires pos <= |data|
    ensures ReadExpire(data, pos).Apply? ==> ReadExpire(data, pos).command.Expire?
  {
    hide ReadField;
  }

  /** The pair loop of an MSET record: a torn pair ends this loop only. */
  method ReplayPairs(engine: DashMapEngine, data: Bytes, start: nat, count: nat, now: Instant, scan: Scans, i: nat) returns (pos: nat)
    requires start <= |data| && (engine.maxKeys > 0 ==> Enumerating(scan))
    modifies engine
    ensures pos == ReadPairs(data, start, count).1
    ensures engine.map_ == PutAllWithin(old(engine.map_), engine.maxKeys, ReadPairs(data, start, count).0, now, scan, i)
  {
    hide ReadField, SetState, Enumerates;
    pos := start;
    ghost var done: seq<(Key, Bytes)> := [];
    assert done + ReadPairs(data, start, count).0 == ReadPairs(data, start, count).0;
    for j := 0 to count
      invariant pos <= |data| && |done| == j
      invariant ReadPairs(data, start, count).0 == done + ReadPairs(data, pos, count - j).0
      invariant ReadPairs(data, start, count).1 == ReadPairs(data, pos, count - j).1
      invariant engine.map_ == PutAllWithin(old(engine.map_), engine.maxKeys, done, now, scan, i)
    {
      assert done + [] == done;
      var k := TakeField(data, pos, 2);
      if k.Torn? {
        pos := k.at;
        return;
      }
      var v := TakeField(data, k.next, 4);
      if v.Torn? {
        pos := v.at;
        return;
      }
      PutAllWithinSnoc(old(engine.map_), engine.maxKeys, done, (k.value, v.value), now, scan, i);
      var _ := engine.Set(k.value, NewEntry(v.value, now), scan(i, j, engine.map_), now);
      ghost var rest := ReadPairs(data, v.next, count - j - 1).0;
      assert done + ([(k.value, v.value)] + rest) == (done + [(k.value, v.value)]) + rest;
      done := done + [(k.value, v.value)];
      pos := v.next;
    }
    assert done + [] == done;
  }

  // ---- any cut of a log -------------------------------------------------------

  /** How many whole records the first `n` bytes of a log hold. */
  function WholeRecords(cs: seq<Command>, n: nat): (m: nat)
    requires forall i :: 0 <= i < |cs| ==> IsWrite(cs[i])
    ensures m <= |cs|
  {
    if cs == [] || n < |Entry(cs[0])| then 0 else 1 + WholeRecords(cs[1..], n - |Entry(cs[0])|)
  }

  lemma {:induction false} LogAppend(a: seq<Command>, b: seq<Command>)
    requires forall i :: 0 <= i < |a| ==> IsWrite(a[i])
    requires forall i :: 0 <= i < |b| ==> IsWrite(b[i])
    ensures Log(a + b) == Log(a) + Log(b)
  {
    hide Entry;
    if a == [] {
      assert a + b == b;
    } else {
      assert (a + b)[1..] == a[1..] + b;
      LogAppend(a[1..], b);
    }
  }

  /** The first `n` bytes are `m` whole records and `kept` bytes of the next. */
  predicate CutsAt(cs: seq<Command>, n: nat, m: nat)
    requires forall i :: 0 <= i < |cs| ==> IsWrite(cs[i])
    requires n <= |Log(cs)| && m <= |cs|
  {
    var kept := n - |Log(cs[..m])|;
    && 0 <= kept && (m == |cs| ==> kept == 0) && (m < |cs| ==> kept < |Entry(cs[m])|)
    && Log(cs)[..n] == Log(cs[..m]) + (if m < |cs| then Entry(cs[m])[..kept] else [])
  }

  lemma CutsLater(cs: seq<Command>, n: nat, k: nat)
    requires (forall i :: 0 <= i < |cs| ==> IsWrite(cs[i])) && cs != []
    requires |Entry(cs[0])| <= n <= |Log(cs)| && k < |cs|
    requires CutsAt(cs[1..], n - |Entry(cs[0])|, k)
    ensures CutsAt(cs, n, k + 1)
  {
    hide Entry, Log;
    LogStep(cs, k);
    var e, rest, first := Entry(cs[0]), Log(cs[1..]), Log(cs[1..][..k]);
    var t: Bytes := if k < |cs[1..]| then Entry(cs[1..][k])[..n - |e| - |first|] else [];
    CutAlgebra(e, rest, first, t, n);
    assert k + 1 < |cs| ==> cs[1..][k] == cs[k + 1];
  }

  lemma LogStep(cs: seq<Command>, k: nat)
    requires (forall i :: 0 <= i < |cs| ==> IsWrite(cs[i])) && k < |cs|
    ensures Log(cs) == Entry(cs[0]) + Log(cs[1..])
    ensures Log(cs[..k + 1]) == Entry(cs[0]) + Log(cs[1..][..k])
  {
    hide Entry;
    assert cs[..k + 1][1..] == cs[1..][..k];
  }

  lemma CutAlgebra(e: Bytes, rest: Bytes, first: Bytes, t: Bytes, n: nat)
    requires |e| <= n <= |e + rest| && rest[..n - |e|] == first + t
    ensures (e + rest)[..n] == (e + first) + t
  {
    assert (e + rest)[..n] == e + rest[..n - |e|];
  }

  /** A cut log is its whole records and the kept bytes of the next one. */
  lemma {:induction false} CutLog(cs: seq<Command>, n: nat)
    requires forall i :: 0 <= i < |cs| ==> IsWrite(cs[i])
    requires n <= |Log(cs)|
    ensures CutsAt(cs, n, WholeRecords(cs, n))
    decreases |cs|
  {
    hide Entry;
    if cs == [] {
      assert cs[..0] == [];
    } else if n < |Entry(cs[0])| {
      var e, rest := Entry(cs[0]), Log(cs[1..]);
      assert cs[..0] == [];
      assert (e + rest)[..n] == e[..n];
      assert [] + e[..n] == e[..n];
    } else {
      CutLog(cs[1..], n - |Entry(cs[0])|);
      hide CutsAt;
      CutsLater(cs, n, WholeRecords(cs[1..], n - |Entry(cs[0])|));
    }
  }

  /** Torn tail, for every cut: replaying the first `n` bytes of a log leaves the engine as the
      whole records before the cut leave it, and counts exactly those, unless the cut falls
      in an MSET past its pair count, where the count is always too high. */
  lemma TornReplay(m: Store, cs: seq<Command>, n: nat, clock: Clock)
    requires AllEncodable(cs) && n <= |Log(cs)|
    ensures
      var w := WholeRecords(cs, n);
      var kept := n - |Log(cs[..w])|;
      var applied := ReadLog(Log(cs)[..n], 0);
      var misread := w < |cs| && Misread(cs[w], kept);
      && 0 <= kept
      && (!misread ==> applied == cs[..w] && Replayed(m, applied, clock) == Replayed(m, cs[..w], clock))
      && (misread <==> |applied| != w)
  {
    hide Entry, Log, ReadLog, Encodable;
    CutLog(cs, n);
    var w := WholeRecords(cs, n);
    var kept := n - |Log(cs[..w])|;
    if w == |cs| {
      LogRoundTrip(cs[..w]);
      assert Log(cs)[..n] == Log(cs[..w]) + [] == Log(cs[..w]);
    } else {
      TornTail(cs[..w], cs[w], kept);
    }
  }
}
