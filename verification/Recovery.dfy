/** Start-up: load the snapshot, then replay the whole log, which is not cut when a snapshot
    is taken. For logs of TTL-free SET, DEL, MSET and FLUSHDB this restores the live state. */
module Recovery {
  import opened Bytes
  import opened Domain
  import opened Engine
  import opened AofCodec
  import opened Replay
  import opened Snapshot

  // ---- key-wise effects -------------------------------------------------------

  /** What a command does to one key. */
  datatype Effect = Keeps | Puts(value: Bytes) | Drops

  /** TTL-free SET, DEL, MSET and FLUSHDB: each key is overwritten, dropped or left alone. */
  predicate Plain(c: Command) {
    (c.Set? && c.ttl.None?) || c.Del? || c.Mset? || c.FlushDb?
  }

  predicate AllPlain(cs: seq<Command>) {
    forall i :: 0 <= i < |cs| ==> Plain(cs[i])
  }

  function PairEffect(ps: seq<(Key, Bytes)>, k: Key): Effect {
    if ps == [] then Keeps
    else
      var n := |ps| - 1;
      if ps[n].0 == k then Puts(ps[n].1) else PairEffect(ps[..n], k)
  }

  function EffectOn(c: Command, k: Key): Effect {
    match c
    case Set(j, v, _) => if j == k then Puts(v) else Keeps
    case Del(j) => if j == k then Drops else Keeps
    case Mset(ps) => PairEffect(ps, k)
    case FlushDb => Drops
    case _ => Keeps
  }

  /** The effect that decides: the last command that touches the key. */
  function LastEffect(cs: seq<Command>, k: Key): Effect {
    if cs == [] then Keeps
    else
      var n := |cs| - 1;
      var e := EffectOn(cs[n], k);
      if e.Keeps? then LastEffect(cs[..n], k) else e
  }

  function After(e: Effect, before: Option<Bytes>): Option<Bytes> {
    match e
    case Keeps => before
    case Puts(v) => Some(v)
    case Drops => None
  }

  function ValueAt(m: Store, k: Key): Option<Bytes> {
    if k in m then Some(m[k].data) else None
  }

  predicate Permanent(m: Store) {
    forall k :: k in m ==> m[k].expiresAt.None?
  }

  /** The key-value content, without bookkeeping times. */
  function Data(m: Store): map<Key, Bytes> {
    map k | k in m :: m[k].data
  }

  lemma DataIsValues(a: Store, b: Store)
    requires forall k :: ValueAt(a, k) == ValueAt(b, k)
    ensures Data(a) == Data(b)
  {
    forall k
      ensures k in a <==> k in b
      ensures k in a ==> a[k].data == b[k].data
    {
      assert ValueAt(a, k) == ValueAt(b, k);
    }
  }

  lemma {:induction false} PutAllPlain(m: Store, ps: seq<(Key, Bytes)>, now: Instant, k: Key)
    requires Permanent(m)
    ensures Permanent(PutAll(m, ps, now))
    ensures ValueAt(PutAll(m, ps, now), k) == After(PairEffect(ps, k), ValueAt(m, k))
    decreases |ps|
  {
    if ps != [] {
      PutAllPlain(m, ps[..|ps| - 1], now, k);
    }
  }

  lemma ApplyPlain(m: Store, c: Command, now: Instant, k: Key)
    requires Permanent(m) && Plain(c)
    ensures Permanent(ApplyTo(m, c, now))
    ensures ValueAt(ApplyTo(m, c, now), k) == After(EffectOn(c, k), ValueAt(m, k))
  {
    if c.Mset? {
      PutAllPlain(m, c.pairs, now, k);
    }
  }

  /** A plain log decides each key by its last touch, at whatever times it is applied. */
  lemma {:induction false} ReplayedPlain(m: Store, cs: seq<Command>, clock: Clock, k: Key)
    requires Permanent(m) && AllPlain(cs)
    ensures Permanent(Replayed(m, cs, clock))
    ensures ValueAt(Replayed(m, cs, clock), k) == After(LastEffect(cs, k), ValueAt(m, k))
    decreases |cs|
  {
    hide ApplyTo, EffectOn, Plain, ValueAt, Permanent;
    if cs != [] {
      var n := |cs| - 1;
      ReplayedPlain(m, cs[..n], clock, k);
      assert Plain(cs[n]);
      ApplyPlain(Replayed(m, cs[..n], clock), cs[n], clock(n), k);
    }
  }

  lemma LastEffectSnoc(cs: seq<Command>, c: Command, k: Key)
    ensures LastEffect(cs + [c], k) == if EffectOn(c, k).Keeps? then LastEffect(cs, k) else EffectOn(c, k)
  {
    hide EffectOn;
    assert (cs + [c])[..|cs|] == cs;
  }

  lemma {:induction false} LastEffectAppend(a: seq<Command>, b: seq<Command>, k: Key)
    ensures LastEffect(a + b, k) == if LastEffect(b, k).Keeps? then LastEffect(a, k) else LastEffect(b, k)
    decreases |b|
  {
    hide EffectOn;
    if b == [] {
      assert a + b == a;
    } else {
      var n := |b| - 1;
      assert (a + b)[..|a| + n] == a + b[..n];
      LastEffectAppend(a, b[..n], k);
    }
  }

  /** Replaying a plain log over a state that a prefix of it produced changes nothing in the
      outcome: every key of that state is touched again by the log. */
  lemma ReplayOverPrefix(base: Store, first: seq<Command>, second: seq<Command>, c1: Clock, c2: Clock, k: Key)
    requires AllPlain(first) && AllPlain(second) && Permanent(base)
    requires ValueAt(base, k) == After(LastEffect(first, k), None)
    ensures ValueAt(Replayed(base, first + second, c1), k) == ValueAt(Replayed(map[], first + second, c2), k)
  {
    hide Plain, LastEffect, Replayed;
    ReplayedPlain(base, first + second, c1, k);
    ReplayedPlain(map[], first + second, c2, k);
    LastEffectAppend(first, second, k);
  }

  // ---- snapshots of plain states ------------------------------------------------

  lemma {:induction false} PutAllDumpable(m: Store, ps: seq<(Key, Bytes)>, now: Instant)
    requires Dumpable(m) && PairsFit(ps)
    ensures Dumpable(PutAll(m, ps, now))
    decreases |ps|
  {
    if ps != [] {
      PutAllDumpable(m, ps[..|ps| - 1], now);
    }
  }

  lemma {:induction false} ReplayedDumpable(m: Store, cs: seq<Command>, clock: Clock)
    requires Dumpable(m) && AllPlain(cs) && AllEncodable(cs)
    ensures Dumpable(Replayed(m, cs, clock))
    decreases |cs|
  {
    if cs != [] {
      var n := |cs| - 1;
      ReplayedDumpable(m, cs[..n], clock);
      assert Encodable(cs[n]) && Plain(cs[n]);
      ApplyDumpable(Replayed(m, cs[..n], clock), cs[n], clock(n));
    }
  }

  lemma ApplyDumpable(m: Store, c: Command, now: Instant)
    requires Dumpable(m) && Plain(c) && Encodable(c)
    ensures Dumpable(ApplyTo(m, c, now))
  {
    if c.Mset? {
      PutAllDumpable(m, c.pairs, now);
    }
  }

  /** A snapshot of a permanent state reloads as the same content, at any later times. */
  lemma SnapshotKeepsValues(m: Store, order: seq<Key>, now: Instant, clock: Clock, k: Key)
    requires Permanent(m) && Enumerates(order, m)
    ensures
      var cs := DumpCommands(m, order, now);
      var r := Replayed(map[], cs, clock);
      AllPlain(cs) && Permanent(r) && ValueAt(r, k) == ValueAt(m, k)
  {
    hide Replayed, LiveKeys, Enumerates, LastEffect;
    var cs := DumpCommands(m, order, now);
    PermanentDumpPlain(m, order, now);
    DumpReloads(m, order, now, now);
    ReplayedPlain(map[], cs, clock, k);
    ReplayedPlain(map[], cs, Always(now), k);
    var r := Replayed(map[], cs, Always(now));
    assert k in r <==> k in Live(m, now);
  }

  lemma PermanentDumpPlain(m: Store, order: seq<Key>, now: Instant)
    requires Permanent(m)
    ensures AllPlain(DumpCommands(m, order, now))
  {
    hide LiveKeys;
    var ks, cs := LiveKeys(m, order, now), DumpCommands(m, order, now);
    forall i | 0 <= i < |cs|
      ensures Plain(cs[i])
    {
      assert LiveAt(m, ks[i], now);
    }
  }

  // ---- start-up -----------------------------------------------------------------

  /** The state after start-up: the snapshot if it loads, then the log. */
  function StartUpState(snapshot: Option<Bytes>, log: Option<Bytes>, crc: Crc, c1: Clock, c2: Clock): Store {
    var base :=
      if snapshot.Some? && LoadFile(snapshot.value, crc).Some?
      then Replayed(map[], LoadFile(snapshot.value, crc).value, c1) else map[];
    if log.Some? then Replayed(base, ReadLog(log.value, 0), c2) else base
  }

  /** The restore sequence of `main`: an unlimited engine, the snapshot, then the log. A missing
      file counts as empty and a rejected snapshot is skipped. */
  method StartUp(snapshot: Option<Bytes>, log: Option<Bytes>, crc: Crc, c1: Clock, c2: Clock) returns (engine: DashMapEngine)
    ensures fresh(engine) && engine.maxKeys == 0
    ensures engine.map_ == StartUpState(snapshot, log, crc, c1, c2)
  {
    hide LoadFile, ReadLog, Replayed, LoadedWithin, ReplayedWithin;
    engine := new DashMapEngine(0);
    var unused: Scans := (i, j, m) => [];
    if snapshot.Some? {
      var _ := LoadSnapshot(engine, snapshot.value, crc, c1, unused);
      if LoadFile(snapshot.value, crc).Some? {
        LoadedUnlimited(map[], LoadFile(snapshot.value, crc).value, c1, unused);
      }
    }
    if log.Some? {
      ReplayedUnlimited(engine.map_, ReadLog(log.value, 0), c2, unused);
      var _ := ReplayAof(engine, log.value, c2, unused);
    }
  }

  /** A snapshot that is refused leaves start-up as it is from the log alone. */
  lemma RefusedSnapshot(data: Bytes, log: Option<Bytes>, crc: Crc, c1: Clock, c2: Clock)
    requires LoadFile(data, crc) == None
    ensures StartUpState(Some(data), log, crc, c1, c2) == StartUpState(None, log, crc, c1, c2)
  {
    hide LoadFile, Replayed, ReadLog;
  }

  /** In particular one whose trailer is not its checksum. */
  lemma DamagedSnapshotIgnored(payload: Bytes, x: U32, log: Option<Bytes>, crc: Crc, c1: Clock, c2: Clock)
    requires x != crc(payload)
    ensures StartUpState(Some(payload + Le(x, 4)), log, crc, c1, c2) == StartUpState(None, log, crc, c1, c2)
  {
    hide LoadFile, StartUpState;
    BadChecksum(payload, x, crc);
    RefusedSnapshot(payload + Le(x, 4), log, crc, c1, c2);
  }

  /** Recovery. For every plain log and every cut of it, starting from the snapshot taken at
      the cut and the bytes of the whole log restores exactly the live content. */
  lemma RecoveryIsExact(first: seq<Command>, second: seq<Command>, live: Clock,
                        order: seq<Key>, taken: Instant, timestamp: nat, crc: Crc, c1: Clock, c2: Clock)
    requires AllPlain(first) && AllPlain(second) && AllEncodable(first) && AllEncodable(second)
    requires Enumerates(order, Replayed(map[], first, live)) && |Replayed(map[], first, live)| < TWO32
    ensures
      var atCut := Replayed(map[], first, live);
      var dump := DumpCommands(atCut, order, taken);
      && AllSets(dump)
      && var restored := StartUpState(Some(SnapshotFile(dump, timestamp, crc)), Some(Log(first + second)), crc, c1, c2);
         Permanent(restored) && Data(restored) == Data(Replayed(map[], first + second, live))
  {
    hide LoadFile, ReadLog, Replayed, SnapshotFile, Log, DumpCommands, Encodable, Plain, Enumerates, Dumpable, Permanent, LastEffect, ValueAt, Live;
    var atCut := Replayed(map[], first, live);
    var all := first + second;
    var dump := DumpCommands(atCut, order, taken);
    EmptyStore();
    ReplayedPlain(map[], first, live, []);
    ReplayedDumpable(map[], first, live);
    DumpsRestore(atCut, order, taken, taken, timestamp, crc);
    LogRoundTrip(all);
    var base := Replayed(map[], dump, c1);
    var restored := Replayed(base, all, c2);
    SnapshotKeepsValues(atCut, order, taken, c1, []);
    ReplayedPlain(base, all, c2, []);
    forall k
      ensures ValueAt(restored, k) == ValueAt(Replayed(map[], all, live), k)
    {
      SnapshotKeepsValues(atCut, order, taken, c1, k);
      ReplayedPlain(map[], first, live, k);
      ReplayOverPrefix(base, first, second, c2, live, k);
    }
    DataIsValues(restored, Replayed(map[], all, live));
  }

  lemma EmptyStore()
    ensures Permanent(map[]) && Dumpable(map[])
    ensures forall k :: ValueAt(map[], k) == None
  {
  }

  // ---- logs with INCR -----------------------------------------------------------

  /** TTL-free commands: the plain ones and INCR. */
  predicate Lasting(c: Command) {
    Plain(c) || c.Incr?
  }

  predicate AllLasting(cs: seq<Command>) {
    forall i :: 0 <= i < |cs| ==> Lasting(cs[i])
  }

  /** The value of a counter after INCR; a value that is not an integer stays. */
  function NextCount(v: Option<Bytes>): Option<Bytes> {
    match v
    case None => Some(ONE)
    case Some(d) =>
      match ParseI64(d)
      case None => v
      case Some(n) => Some(ItoaInt(WrapI64(n + 1)))
  }

  /** What a lasting command makes of the value of `k`, at whatever time. */
  function ValueStep(v: Option<Bytes>, c: Command, k: Key): Option<Bytes> {
    if c == Incr(k) then NextCount(v) else After(EffectOn(c, k), v)
  }

  function ValueRun(v: Option<Bytes>, cs: seq<Command>, k: Key): Option<Bytes> {
    if cs == [] then v else ValueStep(ValueRun(v, cs[..|cs| - 1], k), cs[|cs| - 1], k)
  }

  lemma ApplyLasting(m: Store, c: Command, now: Instant, k: Key)
    requires Permanent(m) && Lasting(c)
    ensures Permanent(ApplyTo(m, c, now))
    ensures ValueAt(ApplyTo(m, c, now), k) == ValueStep(ValueAt(m, k), c, k)
  {
    if c.Incr? {
      hide ParseI64, ItoaInt, WrapI64;
    } else {
      ApplyPlain(m, c, now, k);
    }
  }

  lemma {:induction false} ReplayedLasting(m: Store, cs: seq<Command>, clock: Clock, k: Key)
    requires Permanent(m) && AllLasting(cs)
    ensures Permanent(Replayed(m, cs, clock))
    ensures ValueAt(Replayed(m, cs, clock), k) == ValueRun(ValueAt(m, k), cs, k)
    decreases |cs|
  {
    hide ApplyTo, ValueStep, Lasting, ValueAt, Permanent;
    if cs != [] {
      var n := |cs| - 1;
      ReplayedLasting(m, cs[..n], clock, k);
      assert Lasting(cs[n]);
      ApplyLasting(Replayed(m, cs[..n], clock), cs[n], clock(n), k);
    }
  }

  /** How many INCRs of `k` a log holds. */
  function Incrs(cs: seq<Command>, k: Key): (n: nat)
    ensures n <= |cs|
  {
    if cs == [] then 0 else Incrs(cs[..|cs| - 1], k) + (if cs[|cs| - 1] == Incr(k) then 1 else 0)
  }

  /** A counter that started from nothing. */
  function Counted(n: nat): Option<Bytes> {
    if n == 0 then None else Some(ItoaInt(n))
  }

  lemma CountedNext(n: nat)
    requires n + 1 < TWO63
    ensures NextCount(Counted(n)) == Counted(n + 1)
  {
    assert Itoa(1) == ONE;
    ParseI64ItoaInt(n);
    hide ParseI64, Itoa;
  }

  lemma CountedInjective(a: nat, b: nat)
    requires a < TWO63 && b < TWO63
    ensures Counted(a) == Counted(b) <==> a == b
  {
    ParseI64ItoaInt(a);
    ParseI64ItoaInt(b);
    hide ParseI64, ItoaInt;
  }

  /** A log that sets or drops `k` somewhere decides it, whatever it held before. */
  lemma {:induction false} ResetDecides(a: Option<Bytes>, b: Option<Bytes>, cs: seq<Command>, k: Key)
    requires !LastEffect(cs, k).Keeps?
    ensures ValueRun(a, cs, k) == ValueRun(b, cs, k)
    decreases |cs|
  {
    hide NextCount;
    var n := |cs| - 1;
    if EffectOn(cs[n], k).Keeps? {
      ResetDecides(a, b, cs[..n], k);
    }
  }

  /** A log that only counts `k` adds its INCRs. */
  lemma {:induction false} CountsUp(v: nat, cs: seq<Command>, k: Key)
    requires LastEffect(cs, k).Keeps? && v + Incrs(cs, k) < TWO63
    ensures ValueRun(Counted(v), cs, k) == Counted(v + Incrs(cs, k))
    decreases |cs|
  {
    hide NextCount, EffectOn, Counted;
    if cs != [] {
      var n := |cs| - 1;
      CountsUp(v, cs[..n], k);
      if cs[n] == Incr(k) {
        CountedNext(v + Incrs(cs[..n], k));
      }
    }
  }

  /** The value of `k` restored over a prefix's snapshot is the live one exactly when the log
      sets or drops `k` somewhere, or no INCR of it precedes the cut. */
  lemma RestoredCount(first: seq<Command>, second: seq<Command>, k: Key)
    requires Incrs(first, k) + Incrs(first + second, k) < TWO63
    ensures
      var all := first + second;
      var exact := ValueRun(ValueRun(None, first, k), all, k) == ValueRun(None, all, k);
      exact <==> (!LastEffect(all, k).Keeps? || Incrs(first, k) == 0)
  {
    hide LastEffect, ValueRun, Incrs, ItoaInt;
    var all := first + second;
    if !LastEffect(all, k).Keeps? {
      ResetDecides(ValueRun(None, first, k), None, all, k);
    } else {
      LastEffectAppend(first, second, k);
      var j, n := Incrs(first, k), Incrs(all, k);
      CountsUp(0, first, k);
      CountsUp(j, all, k);
      CountsUp(0, all, k);
      CountedInjective(j + n, n);
    }
  }

  lemma CounterFits(n: int)
    requires -TWO63 <= n < TWO63
    ensures ValueFits(ItoaInt(n))
  {
    ItoaShort(if n < 0 then -n else n);
  }

  lemma ApplyLastingDumpable(m: Store, c: Command, now: Instant)
    requires Dumpable(m) && Lasting(c) && Encodable(c)
    ensures Dumpable(ApplyTo(m, c, now))
  {
    if c.Incr? {
      CounterFits(1);
      assert Itoa(1) == ONE;
      if c.key in m && ParseI64(m[c.key].data).Some? {
        CounterFits(WrapI64(ParseI64(m[c.key].data).value + 1));
      }
      hide ParseI64, ItoaInt, WrapI64, ValueFits;
    } else {
      ApplyDumpable(m, c, now);
    }
  }

  lemma {:induction false} LastingDumpable(m: Store, cs: seq<Command>, clock: Clock)
    requires Dumpable(m) && AllLasting(cs) && AllEncodable(cs)
    ensures Dumpable(Replayed(m, cs, clock))
    decreases |cs|
  {
    hide Dumpable, Lasting, Encodable, ApplyTo;
    if cs != [] {
      var n := |cs| - 1;
      LastingDumpable(m, cs[..n], clock);
      assert Encodable(cs[n]) && Lasting(cs[n]);
      ApplyLastingDumpable(Replayed(m, cs[..n], clock), cs[n], clock(n));
    }
  }

  /** Start-up from the snapshot of a cut and the whole log gives `k` the value that the log
      leaves on top of its prefix. */
  lemma StartUpValue(first: seq<Command>, second: seq<Command>, live: Clock,
                     order: seq<Key>, taken: Instant, timestamp: nat, crc: Crc, c1: Clock, c2: Clock, k: Key)
    requires AllLasting(first) && AllLasting(second) && AllEncodable(first) && AllEncodable(second)
    requires Enumerates(order, Replayed(map[], first, live)) && |Replayed(map[], first, live)| < TWO32
    ensures
      var dump := DumpCommands(Replayed(map[], first, live), order, taken);
      && AllSets(dump)
      && var restored := StartUpState(Some(SnapshotFile(dump, timestamp, crc)), Some(Log(first + second)), crc, c1, c2);
         ValueAt(restored, k) == ValueRun(ValueRun(None, first, k), first + second, k)
    ensures ValueAt(Replayed(map[], first + second, live), k) == ValueRun(None, first + second, k)
  {
    hide LoadFile, ReadLog, Replayed, SnapshotFile, Log, DumpCommands, Encodable, Lasting, Enumerates, Dumpable, Permanent, ValueRun, ValueAt, Live;
    var atCut := Replayed(map[], first, live);
    var all := first + second;
    var dump := DumpCommands(atCut, order, taken);
    EmptyStore();
    ReplayedLasting(map[], first, live, k);
    ReplayedLasting(map[], all, live, k);
    LastingDumpable(map[], first, live);
    DumpsRestore(atCut, order, taken, taken, timestamp, crc);
    LogRoundTrip(all);
    var base := Replayed(map[], dump, c1);
    SnapshotKeepsValues(atCut, order, taken, c1, k);
    ReplayedLasting(base, all, c2, k);
  }

  /** Recovery with INCR. For every log of TTL-free commands and every cut, and for every key:
      start-up from the snapshot at the cut and the whole log restores the live value exactly
      when the log sets or drops the key somewhere, or no INCR of it precedes the cut. */
  lemma RecoveryWithIncr(first: seq<Command>, second: seq<Command>, live: Clock,
                         order: seq<Key>, taken: Instant, timestamp: nat, crc: Crc, c1: Clock, c2: Clock, k: Key)
    requires AllLasting(first) && AllLasting(second) && AllEncodable(first) && AllEncodable(second)
    requires Enumerates(order, Replayed(map[], first, live)) && |Replayed(map[], first, live)| < TWO32
    requires Incrs(first, k) + Incrs(first + second, k) < TWO63
    ensures
      var all := first + second;
      var dump := DumpCommands(Replayed(map[], first, live), order, taken);
      && AllSets(dump)
      && var restored := StartUpState(Some(SnapshotFile(dump, timestamp, crc)), Some(Log(all)), crc, c1, c2);
         var exact := ValueAt(restored, k) == ValueAt(Replayed(map[], all, live), k);
         exact <==> (!LastEffect(all, k).Keeps? || Incrs(first, k) == 0)
  {
    hide StartUpState, Replayed, SnapshotFile, Log, DumpCommands, Encodable, Lasting, Enumerates, ValueRun, ValueAt, LastEffect, Incrs;
    StartUpValue(first, second, live, order, taken, timestamp, crc, c1, c2, k);
    RestoredCount(first, second, k);
  }

  // ---- snapshots taken while sessions write --------------------------------------------

  /** Whatever mixture of states a dump caught, the log sets or drops every key in it. */
  predicate Covered(dump: seq<Command>, log: seq<Command>) {
    forall i :: 0 <= i < |dump| ==> dump[i].Set? && dump[i].ttl.None? && !LastEffect(log, dump[i].key).Keeps?
  }

  lemma {:induction false} DumpTouches(dump: seq<Command>, log: seq<Command>, k: Key)
    requires Covered(dump, log) && LastEffect(log, k).Keeps?
    ensures LastEffect(dump, k).Keeps?
    decreases |dump|
  {
    if dump != [] {
      assert !LastEffect(log, dump[|dump| - 1].key).Keeps?;
      DumpTouches(dump[..|dump| - 1], log, k);
    }
  }

  lemma CoveredPlain(dump: seq<Command>, log: seq<Command>)
    requires Covered(dump, log)
    ensures AllPlain(dump) && AllLasting(dump) && AllSets(dump)
  {
    hide LastEffect;
  }

  /** Recovery from a snapshot that is not a state of any moment. The snapshotter walks the map
      while sessions write, so the file may hold any values of any of the keys; as long as the
      log, which is never cut, sets or drops each of them, start-up restores exactly the live
      content, INCRs included. */
  lemma RecoveryFromAnyDump(dump: seq<Command>, log: seq<Command>, live: Clock, timestamp: nat, crc: Crc, c1: Clock, c2: Clock)
    requires Covered(dump, log) && AllEncodable(dump) && |dump| < TWO32
    requires AllLasting(log) && AllEncodable(log)
    ensures AllSets(dump)
    ensures
      var restored := StartUpState(Some(SnapshotFile(dump, timestamp, crc)), Some(Log(log)), crc, c1, c2);
      Permanent(restored) && Data(restored) == Data(Replayed(map[], log, live))
  {
    hide LoadFile, ReadLog, Replayed, SnapshotFile, Log, Encodable, Lasting, Plain, Covered, Permanent, ValueRun, ValueAt, LastEffect;
    CoveredPlain(dump, log);
    SnapshotRoundTrip(dump, timestamp, crc);
    LogRoundTrip(log);
    EmptyStore();
    var base := Replayed(map[], dump, c1);
    ReplayedLasting(map[], dump, c1, []);
    ReplayedLasting(base, log, c2, []);
    forall k
      ensures ValueAt(Replayed(base, log, c2), k) == ValueAt(Replayed(map[], log, live), k)
    {
      ReplayedPlain(map[], dump, c1, k);
      ReplayedLasting(base, log, c2, k);
      ReplayedLasting(map[], log, live, k);
      if LastEffect(log, k).Keeps? {
        DumpTouches(dump, log, k);
      } else {
        ResetDecides(ValueAt(base, k), None, log, k);
      }
    }
    DataIsValues(Replayed(base, log, c2), Replayed(map[], log, live));
  }

  function Repeat(c: Command, n: nat): (r: seq<Command>)
    ensures |r| == n
    ensures forall i :: 0 <= i < n ==> r[i] == c
  {
    seq(n, _ => c)
  }

  lemma {:induction false} RepeatedIncrs(k: Key, n: nat)
    ensures Incrs(Repeat(Incr(k), n), k) == n && LastEffect(Repeat(Incr(k), n), k) == Keeps
  {
    if n > 0 {
      RepeatedIncrs(k, n - 1);
      assert Repeat(Incr(k), n)[..n - 1] == Repeat(Incr(k), n - 1);
    }
  }

  /** The failing family at its simplest: with a snapshot taken after `j` of `n` increments,
      start-up from the files counts those `j` twice. */
  lemma IncrementsCountTwice(k: Key, j: nat, n: nat, live: Clock,
                             order: seq<Key>, taken: Instant, timestamp: nat, crc: Crc, c1: Clock, c2: Clock)
    requires 0 < j <= n && j + n < TWO63 && KeyFits(k)
    requires
      var atCut := Replayed(map[], Repeat(Incr(k), j), live);
      Enumerates(order, atCut) && |atCut| < TWO32
    ensures
      var log := Repeat(Incr(k), n);
      var dump := DumpCommands(Replayed(map[], Repeat(Incr(k), j), live), order, taken);
      && AllSets(dump) && AllEncodable(log)
      && ValueAt(Replayed(map[], log, live), k) == Some(ItoaInt(n))
      && var restored := StartUpState(Some(SnapshotFile(dump, timestamp, crc)), Some(Log(log)), crc, c1, c2);
         ValueAt(restored, k) == Some(ItoaInt(j + n))
  {
    hide StartUpState, Replayed, SnapshotFile, Log, DumpCommands, Enumerates, ValueAt, LastEffect, Incrs, ValueRun, ItoaInt;
    var first, second := Repeat(Incr(k), j), Repeat(Incr(k), n - j);
    assert first + second == Repeat(Incr(k), n);
    StartUpValue(first, second, live, order, taken, timestamp, crc, c1, c2, k);
    RepeatedIncrs(k, j);
    RepeatedIncrs(k, n);
    CountsUp(0, first, k);
    CountsUp(0, first + second, k);
    CountsUp(j, first + second, k);
  }
}
