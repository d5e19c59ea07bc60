/** Start-up from a snapshot and the file that the log writer really leaves, with its doubled
    records: the exact condition per key for logs of TTL-free commands, INCR included. */
module RecoveryFile {
  import opened Bytes
  import opened Domain
  import opened Engine
  import opened AofCodec
  import opened Replay
  import opened Snapshot
  import opened Recovery
  import AofWriter
  import Ledgers

  /** How far the restored counter is ahead of the live one, and whether INCR counts at all: on a
      value that is not a number it does nothing. */
  datatype Lead = Lead(gap: int, counts: bool)

  function LeadStep(l: Lead, c: Command, double: bool, k: Key): Lead {
    if c == Incr(k) then (if l.counts && double then Lead(l.gap + 1, true) else l)
    else
      match EffectOn(c, k)
      case Keeps => l
      case Puts(v) => Lead(0, ParseI64(v).Some?)
      case Drops => Lead(0, true)
  }

  /** The lead of `k` after a log, given the INCRs that a snapshot had already counted. */
  function LeadOf(counted: nat, cs: seq<Command>, twice: seq<bool>, k: Key): Lead
    requires |cs| == |twice|
  {
    if cs == [] then Lead(counted, true)
    else
      var n := |cs| - 1;
      LeadStep(LeadOf(counted, cs[..n], twice[..n], k), cs[n], twice[n], k)
  }

  /** Live value and restored value under a lead. */
  predicate Led(p: Option<Bytes>, q: Option<Bytes>, l: Lead) {
    || (p == q && l.gap == 0 && (l.counts <==> (p.None? || ParseI64(p.value).Some?)))
    || (p.None? && l.counts && 0 < l.gap < TWO63 && q == Some(ItoaInt(l.gap)))
    || (p.Some? && q.Some? && l.counts && Ledgers.Canon(p.value) && Ledgers.Drifted(p.value, q.value, l.gap))
  }

  lemma LedShows(p: Option<Bytes>, q: Option<Bytes>, l: Lead)
    requires Led(p, q, l)
    ensures p == q <==> l.gap % TWO64 == 0
  {
    hide ParseI64, ItoaInt, Ledgers.Drifted, Ledgers.Canon;
    if p.Some? && q.Some? && l.counts && Ledgers.Canon(p.value) && Ledgers.Drifted(p.value, q.value, l.gap) {
      Ledgers.DriftShows(p.value, q.value, l.gap);
    }
  }

  /** The copies of an INCR on the restored side. */
  function Copies(q: Option<Bytes>, double: bool): Option<Bytes> {
    if double then NextCount(NextCount(q)) else NextCount(q)
  }

  lemma CopiesCount(q: Option<Bytes>, double: bool)
    ensures
      var n := if double then 2 else 1;
      && (q.None? ==> Copies(q, double) == Some(ItoaInt(n)))
      && (q.Some? && ParseI64(q.value).None? ==> Copies(q, double) == q)
      && (q.Some? && ParseI64(q.value).Some? ==> Copies(q, double) == Some(ItoaInt(WrapI64(ParseI64(q.value).value + n))))
  {
    Ledgers.OneIsOne();
    SmallWrap();
    hide ParseI64, ItoaInt, WrapI64;
    if q.Some? && ParseI64(q.value).Some? {
      var x := ParseI64(q.value).value;
      ParseI64ItoaInt(WrapI64(x + 1));
      Ledgers.WrapAdd(x + 1, 1);
    }
  }

  lemma SmallWrap()
    ensures WrapI64(1) == 1 && WrapI64(2) == 2
  {
  }

  lemma LedIncr(p: Option<Bytes>, q: Option<Bytes>, l: Lead, double: bool)
    requires Led(p, q, l)
    ensures Led(NextCount(p), Copies(q, double), if l.counts && double then Lead(l.gap + 1, true) else l)
  {
    hide ParseI64, ItoaInt, WrapI64, NextCount;
    CopiesCount(q, double);
    CopiesCount(p, false);
    assert Copies(p, false) == NextCount(p);
    var n := if double then 2 else 1;
    if p.None? {
      LedFirst(q, l, double);
    } else if l.counts && q.Some? {
      LedCounts(p.value, q.value, l.gap, n);
    }
  }

  lemma LedFirst(q: Option<Bytes>, l: Lead, double: bool)
    requires Led(None, q, l)
    ensures Led(Some(ItoaInt(1)), Copies(q, double), if l.counts && double then Lead(l.gap + 1, true) else l)
  {
    hide NextCount, Copies, ParseI64, ItoaInt, WrapI64;
    var n := if double then 2 else 1;
    CopiesCount(q, double);
    Ledgers.OneIsOne();
    SmallWrap();
    var g := if q.None? then 0 else l.gap;
    ParseI64ItoaInt(g);
    Ledgers.CountsFrom(g, n);
  }

  lemma LedCounts(p: Bytes, q: Bytes, gap: int, n: nat)
    requires 1 <= n <= 2 && ParseI64(p).Some? && Ledgers.Drifted(p, q, gap)
    ensures ParseI64(q).Some?
    ensures
      var p', q' := ItoaInt(WrapI64(ParseI64(p).value + 1)), ItoaInt(WrapI64(ParseI64(q).value + n));
      Ledgers.Canon(p') && Ledgers.Drifted(p', q', gap + n - 1)
  {
    Ledgers.DriftIncr(p, q, gap, n);
    Ledgers.CanonNext(ParseI64(p).value);
  }

  lemma LedReset(c: Command, l: Lead, double: bool, k: Key, p: Option<Bytes>, q: Option<Bytes>)
    requires c != Incr(k) && !EffectOn(c, k).Keeps?
    ensures Led(After(EffectOn(c, k), p), After(EffectOn(c, k), q), LeadStep(l, c, double, k))
  {
    hide EffectOn, ParseI64;
  }

  lemma SpreadValue(q: Option<Bytes>, cs: seq<Command>, twice: seq<bool>, k: Key)
    requires |cs| == |twice| && cs != []
    ensures
      var n := |cs| - 1;
      var before := ValueRun(q, AofWriter.Spread(cs[..n], twice[..n]), k);
      var once := ValueStep(before, cs[n], k);
      ValueRun(q, AofWriter.Spread(cs, twice), k) == if twice[n] then ValueStep(once, cs[n], k) else once
  {
    hide ValueStep;
    var n := |cs| - 1;
    var rs := AofWriter.Spread(cs[..n], twice[..n]);
    assert (rs + [cs[n]])[..|rs|] == rs;
    if twice[n] {
      var two := rs + [cs[n], cs[n]];
      assert two[..|rs| + 1] == rs + [cs[n]];
    }
  }

  /** One more command, on values that are led. */
  lemma LedStep(p: Option<Bytes>, q: Option<Bytes>, l: Lead, c: Command, double: bool, k: Key)
    requires Led(p, q, l) || (c != Incr(k) && !EffectOn(c, k).Keeps?)
    ensures
      var once := ValueStep(q, c, k);
      Led(ValueStep(p, c, k), if double then ValueStep(once, c, k) else once, LeadStep(l, c, double, k))
  {
    hide EffectOn, NextCount, Led, ParseI64;
    if c == Incr(k) {
      LedIncr(p, q, l, double);
    } else if !EffectOn(c, k).Keeps? {
      LedReset(c, l, double, k, p, q);
    }
  }

  /** Live and restored value of `k` after a log that starts from nothing and from `q`. */
  lemma {:induction false} LogLeads(q: Option<Bytes>, counted: nat, cs: seq<Command>, twice: seq<bool>, k: Key)
    requires |cs| == |twice| && ((q == Counted(counted) && counted < TWO63) || !LastEffect(cs, k).Keeps?)
    ensures Led(ValueRun(None, cs, k), ValueRun(q, AofWriter.Spread(cs, twice), k), LeadOf(counted, cs, twice, k))
    decreases |cs|
  {
    hide ValueStep, LeadStep, EffectOn, Led, Counted;
    if cs == [] {
      CountedLed(counted);
    } else {
      var n := |cs| - 1;
      SpreadValue(q, cs, twice, k);
      var l := LeadOf(counted, cs[..n], twice[..n], k);
      var p, r := ValueRun(None, cs[..n], k), ValueRun(q, AofWriter.Spread(cs[..n], twice[..n]), k);
      IncrKeeps(k);
      if EffectOn(cs[n], k).Keeps? {
        LogLeads(q, counted, cs[..n], twice[..n], k);
      }
      LedStep(p, r, l, cs[n], twice[n], k);
    }
  }

  lemma IncrKeeps(k: Key)
    ensures EffectOn(Incr(k), k).Keeps?
  {
  }

  lemma CountedLed(counted: nat)
    requires counted < TWO63
    ensures Led(None, Counted(counted), Lead(counted, true))
  {
    hide ItoaInt, ParseI64;
  }

  lemma SpreadLasting(cs: seq<Command>, twice: seq<bool>)
    requires |cs| == |twice| && AllLasting(cs)
    ensures AllLasting(AofWriter.Spread(cs, twice))
  {
    hide Lasting;
    if cs != [] {
      SpreadLasting(cs[..|cs| - 1], twice[..|cs| - 1]);
    }
  }

  /** Recovery from the file as it is written. For every log of TTL-free commands, every cut and
      every way of batching: start-up from the snapshot at the cut and the writer's file restores
      the live value of `k` exactly when its lead is zero modulo 2^64. The lead counts the INCRs of
      `k` before the cut, if nothing in the log sets or drops it, and the INCRs of `k` that filled
      a batch since it was last set or dropped. */
  lemma RecoveryFromFile(first: seq<Command>, second: seq<Command>, live: Clock, order: seq<Key>, taken: Instant,
                         timestamp: nat, crc: Crc, c1: Clock, c2: Clock, uses: seq<AofWriter.Use>, k: Key)
    requires AllLasting(first) && AllLasting(second) && AllEncodable(first) && AllEncodable(second)
    requires Enumerates(order, Replayed(map[], first, live)) && |Replayed(map[], first, live)| < TWO32
    requires AofWriter.AllWrites(uses) && AofWriter.Appended(uses) == first + second && Incrs(first, k) < TWO63
    ensures |AofWriter.Doubles(uses)| == |first + second| && AofWriter.AllRecords(AofWriter.Written(uses))
    ensures
      var all := first + second;
      var dump := DumpCommands(Replayed(map[], first, live), order, taken);
      && AllSets(dump)
      && var restored := StartUpState(Some(SnapshotFile(dump, timestamp, crc)), Some(Log(AofWriter.Written(uses))), crc, c1, c2);
         var exact := ValueAt(restored, k) == ValueAt(Replayed(map[], all, live), k);
         exact <==> LeadOf(Incrs(first, k), all, AofWriter.Doubles(uses), k).gap % TWO64 == 0
  {
    hide StartUpState, Replayed, SnapshotFile, Log, DumpCommands, Encodable, Lasting, Enumerates, ValueRun, ValueAt, LastEffect,
         Incrs, LeadOf, AofWriter.Written, AofWriter.Appended, AofWriter.Doubles, AofWriter.Spread, Led;
    var all, twice := first + second, AofWriter.Doubles(uses);
    AofWriter.WrittenIsSpread(uses);
    AofWriter.WrittenRecords(uses);
    SpreadLasting(all, twice);
    AofWriter.SpreadEncodable(all, twice);
    var base := ValueRun(None, first, k);
    FileValue(first, AofWriter.Written(uses), live, order, taken, timestamp, crc, c1, c2, k);
    EmptyStore();
    ReplayedLasting(map[], all, live, k);
    if LastEffect(all, k).Keeps? {
      LastEffectAppend(first, second, k);
      CountsUp(0, first, k);
    }
    LogLeads(base, Incrs(first, k), all, twice, k);
    LedShows(ValueRun(None, all, k), ValueRun(base, AofWriter.Written(uses), k), LeadOf(Incrs(first, k), all, twice, k));
  }

  lemma FileValue(first: seq<Command>, log: seq<Command>, live: Clock, order: seq<Key>, taken: Instant, timestamp: nat, crc: Crc,
                  c1: Clock, c2: Clock, k: Key)
    requires AllLasting(first) && AllLasting(log) && AllEncodable(first) && AllEncodable(log)
    requires Enumerates(order, Replayed(map[], first, live)) && |Replayed(map[], first, live)| < TWO32
    ensures
      var dump := DumpCommands(Replayed(map[], first, live), order, taken);
      && AllSets(dump)
      && var restored := StartUpState(Some(SnapshotFile(dump, timestamp, crc)), Some(Log(log)), crc, c1, c2);
         ValueAt(restored, k) == ValueRun(ValueRun(None, first, k), log, k)
  {
    hide LoadFile, ReadLog, Replayed, SnapshotFile, Log, DumpCommands, Encodable, Lasting, Enumerates, Dumpable, Permanent, ValueRun, ValueAt, Live;
    var atCut := Replayed(map[], first, live);
    var dump := DumpCommands(atCut, order, taken);
    EmptyStore();
    ReplayedLasting(map[], first, live, k);
    LastingDumpable(map[], first, live);
    DumpsRestore(atCut, order, taken, taken, timestamp, crc);
    LogRoundTrip(log);
    SnapshotKeepsValues(atCut, order, taken, c1, k);
    ReplayedLasting(Replayed(map[], dump, c1), log, c2, k);
  }
}
