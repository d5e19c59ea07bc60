/** Keys that a restart changes, one run for each way a ledger can be unsafe. */
module RestartExamples {
  import opened Bytes
  import opened Domain
  import opened Engine
  import opened AofCodec
  import opened Replay
  import Snapshot
  import AofWriter
  import Response
  import opened Dispatcher
  import opened Ledgers
  import opened Restart

  /** The restored entry of `k` after two records on an empty map. */
  lemma RestoredTwo(c1: Command, c2: Command, d1: bool, d2: bool, t: Instant, k: Key)
    ensures
      var notes := [Note(c1, 0, true), Note(c2, 0, true)];
      EntryAt(Replayed(map[], Records(notes, [d1, d2]), Always(t)), k)
        == Restore(Restore(None, c1, k, t, t, d1), c2, k, t, t, d2)
  {
    hide Replayed, Records, Restore, ReadBack;
    ForwardAlways(t);
    RestoredOne(c1, d1, t, k);
    var x, y := Note(c1, 0, true), Note(c2, 0, true);
    RecordsSnoc([x], [d1], y, d2);
    ReplayCopies(map[], Records([x], [d1]), c2, d2, Always(t), k);
    assert [x] + [y] == [x, y] && [d1] + [d2] == [d1, d2];
  }

  lemma RestoredOne(c: Command, double: bool, t: Instant, k: Key)
    ensures
      EntryAt(Replayed(map[], Records([Note(c, 0, true)], [double]), Always(t)), k) == Restore(None, c, k, t, t, double)
  {
    ReplayedNil(map[], Always(t));
    assert Records([], []) == [];
    hide Replayed, Records, Restore, ReadBack;
    ForwardAlways(t);
    var x := Note(c, 0, true);
    RecordsSnoc([], [], x, double);
    ReplayCopies(map[], [], c, double, Always(t), k);
    assert [] + [x] == [x] && [] + [double] == [double];
    assert Records([], []) + (if double then [ReadBack(c), ReadBack(c)] else [ReadBack(c)]) == Records([x], [double]);
  }

  lemma SameRecords(a: seq<Note>, b: seq<Note>, twice: seq<bool>)
    requires |a| == |b| == |twice| && CommandsIn(a) == CommandsIn(b)
    ensures Records(a, twice) == Records(b, twice)
  {
  }

  /** A run of one SET. */
  lemma ServedSet(c: Command, at: Instant, all: bool, scan: Scan, info: Bytes)
    requires c.Set?
    ensures
      var run := [Timed(c, at)];
      && Served(map[], run, scan, info) == map[c.key := SetEntry(c.value, c.ttl, at)]
      && Trail(map[], run, all, scan, info) == [Note(c, at, true)]
  {
    var run := [Timed(c, at)];
    SetReply(c, at, scan, info);
    hide DispatchState, AtOnce;
    assert run[..0] == [];
    assert Served(map[], [], scan, info) == map[] && Trail(map[], [], all, scan, info) == [];
    assert [] + [Note(c, at, true)] == [Note(c, at, true)];
  }

  lemma SetReply(c: Command, at: Instant, scan: Scan, info: Bytes)
    requires c.Set?
    ensures DispatchState(map[], 0, c, AtOnce(at, scan, info)) == (map[c.key := SetEntry(c.value, c.ttl, at)], Response.Ok)
  {
  }

  /** A run of one SET and one more command. */
  lemma ServedTwo(c: Command, at: Instant, y: Timed, all: bool, scan: Scan, info: Bytes)
    requires c.Set?
    ensures
      var run := [Timed(c, at), y];
      var m := map[c.key := SetEntry(c.value, c.ttl, at)];
      && Served(map[], run, scan, info) == DispatchState(m, 0, y.command, AtOnce(y.at, scan, info)).0
      && Trail(map[], run, all, scan, info) == [Note(c, at, true)] + NoteOf(m, y, all, scan, info)
  {
    hide DispatchState, AtOnce, NoteOf;
    var run := [Timed(c, at), y];
    assert run[..1] == [Timed(c, at)];
    ServedSet(c, at, all, scan, info);
  }

  /** An INCR that filled the batch counts twice: SET of another key and INCR, live 1, restored 2
      at every time. */
  lemma DoubledIncrementRestored(c: Command, k: Key, all: bool, scan: Scan, info: Bytes, crc: Snapshot.Crc, t: Instant, u: Instant)
    requires c.Set? && c.key != k && Fits(c) && KeyFits(k) && t <= u
    requires |Entry(c)| < AofWriter.BATCH_SIZE <= |Entry(c)| + |Entry(Incr(k))|
    ensures
      var run := [Timed(c, 0), Timed(Incr(k), 0)];
      var uses := [AofWriter.Append(c), AofWriter.Append(Incr(k))];
      && WritesLog(uses, Trail(map[], run, all, scan, info))
      && View(Served(map[], run, scan, info), k, 0) == Some([49])
      && Restarted(FileOf(uses), crc, t, k, u) == Some([50])
  {
    hide Fits, Entry, FileOf, Restarted, Served, Trail, AofWriter.BATCH_SIZE, AofWriter.Appended, AofWriter.Doubles, AofWriter.AllWrites;
    TwoUses(c, Incr(k));
    LiveOne(c, k, all, scan, info);
    RestoredDouble(c, k, [AofWriter.Append(c), AofWriter.Append(Incr(k))], crc, t, u);
  }

  lemma LiveOne(c: Command, k: Key, all: bool, scan: Scan, info: Bytes)
    requires c.Set? && c.key != k
    ensures
      var run := [Timed(c, 0), Timed(Incr(k), 0)];
      && Trail(map[], run, all, scan, info) == [Note(c, 0, true), Note(Incr(k), 0, true)]
      && View(Served(map[], run, scan, info), k, 0) == Some([49])
  {
    FirstIncr(c, k, scan, info);
    ServedTwo(c, 0, Timed(Incr(k), 0), all, scan, info);
    hide Served, Trail, DispatchState, AtOnce;
    assert [Note(c, 0, true)] + [Note(Incr(k), 0, true)] == [Note(c, 0, true), Note(Incr(k), 0, true)];
  }

  lemma RestoredDouble(c: Command, k: Key, uses: seq<AofWriter.Use>, crc: Snapshot.Crc, t: Instant, u: Instant)
    requires c.Set? && c.key != k && Fits(c) && KeyFits(k) && t <= u
    requires AofWriter.AllWrites(uses) && AofWriter.Appended(uses) == [c, Incr(k)] && AofWriter.Doubles(uses) == [false, true]
    ensures Restarted(FileOf(uses), crc, t, k, u) == Some([50])
  {
    assert Fits(Incr(k));
    hide Fits, FileOf, Restarted, Records, Replayed, Restore, AofWriter.Appended, AofWriter.Doubles, AofWriter.AllWrites;
    var notes := [Note(c, 0, true), Note(Incr(k), 0, true)];
    FitsTwo(c, Incr(k));
    assert CommandsIn(notes) == [c, Incr(k)];
    RestartedIs(uses, notes, crc, t, k, u);
    RestoredTwo(c, Incr(k), false, true, t, k);
    Untouched(None, c, k, t, t, false);
    RestoreFirst(None, k, t, t, true);
    TwoText();
  }

  lemma TwoText()
    ensures ItoaInt(2) == [50]
  {
  }

  lemma FitsTwo(a: Command, b: Command)
    requires Fits(a) && Fits(b) && IsWrite(a) && IsWrite(b)
    ensures AllFit([a, b]) && AllFit([a])
  {
    hide Fits;
  }

  lemma Untouched(b: Option<ValueEntry>, c: Command, k: Key, first: Instant, u: Instant, double: bool)
    requires c.Set? && c.key != k
    ensures Restore(b, c, k, first, u, double) == b
  {
  }

  lemma FirstIncr(c: Command, k: Key, scan: Scan, info: Bytes)
    requires c.Set? && c.key != k
    ensures
      var m := map[c.key := SetEntry(c.value, c.ttl, 0)];
      DispatchState(m, 0, Incr(k), AtOnce(0, scan, info)) == (m[k := NewEntry(ONE, 0)], Response.Integer(1))
  {
    hide ParseI64, ItoaInt;
  }

  lemma TwoUses(a: Command, b: Command)
    requires IsWrite(a) && IsWrite(b) && |Entry(a)| < AofWriter.BATCH_SIZE
    ensures
      var uses := [AofWriter.Append(a), AofWriter.Append(b)];
      && AofWriter.AllWrites(uses) && AofWriter.Appended(uses) == [a, b]
      && AofWriter.Doubles(uses) == [false, |Entry(a)| + |Entry(b)| >= AofWriter.BATCH_SIZE]
  {
    hide Entry, AofWriter.BATCH_SIZE;
    var uses := [AofWriter.Append(a), AofWriter.Append(b)];
    assert uses[..1] == [AofWriter.Append(a)] && uses[..1][..0] == [];
    assert AofWriter.Fill([]) == 0 && AofWriter.Appended([]) == [] && AofWriter.Doubles([]) == [];
    assert AofWriter.Fill(uses[..1]) == |Entry(a)|;
    assert AofWriter.Appended(uses[..1]) == [a] && AofWriter.Doubles(uses[..1]) == [false];
  }

  /** A TTL of zero: the key is never live, and start-up makes it permanent, however the record
      was batched. */
  lemma ZeroTtlReturns(k: Key, v: Bytes, at: Instant, all: bool, uses: seq<AofWriter.Use>, scan: Scan, info: Bytes,
                       crc: Snapshot.Crc, t: Instant, u: Instant)
    requires KeyFits(k) && ValueFits(v) && t <= u
    requires WritesLog(uses, Trail(map[], [Timed(Set(k, v, Some(0)), at)], all, scan, info))
    ensures
      && View(Served(map[], [Timed(Set(k, v, Some(0)), at)], scan, info), k, at) == None
      && Restarted(FileOf(uses), crc, t, k, u) == Some(v)
  {
    hide Served, Trail, FileOf, Restarted, TtlBack, AofWriter.Appended, AofWriter.AllWrites;
    var c := Set(k, v, Some(0));
    ServedSet(c, at, all, scan, info);
    TtlBackPositive(Some(0));
    RestoredSet(c, at, uses, crc, t, u);
  }

  /** The restored entry of a log of one SET, single or double. */
  lemma RestoredSet(c: Command, at: Instant, uses: seq<AofWriter.Use>, crc: Snapshot.Crc, t: Instant, u: Instant)
    requires c.Set? && Fits(c) && WritesLog(uses, [Note(c, at, true)])
    ensures Restarted(FileOf(uses), crc, t, c.key, u) == Shown(Some(SetEntry(c.value, TtlBack(c.ttl), t)), u)
  {
    hide Fits, FileOf, Restarted, Records, Replayed, TtlBack, AofWriter.Appended, AofWriter.Doubles, AofWriter.AllWrites;
    FitsTwo(c, c);
    assert CommandsIn([Note(c, at, true)]) == [c];
    RestartedIs(uses, [Note(c, at, true)], crc, t, c.key, u);
    var d := AofWriter.Doubles(uses);
    assert d == [d[0]];
    SameRecords([Note(c, at, true)], [Note(c, 0, true)], d);
    RestoredOne(c, d[0], t, c.key);
  }

  /** An expired key comes back: SET with a TTL and a GET after it has passed. The client sees
      nothing; right after a restart at any time it sees the value again. */
  lemma ExpiredKeyReturns(k: Key, v: Bytes, d: Duration, all: bool, uses: seq<AofWriter.Use>, scan: Scan, info: Bytes,
                          crc: Snapshot.Crc, t: Instant)
    requires KeyFits(k) && ValueFits(v) && TtlFits(Some(d))
    requires WritesLog(uses, Trail(map[], [Timed(Set(k, v, Some(d)), 0), Timed(Get(k), d)], all, scan, info))
    ensures
      var run := [Timed(Set(k, v, Some(d)), 0), Timed(Get(k), d)];
      && View(Served(map[], run, scan, info), k, d) == None
      && Restarted(FileOf(uses), crc, t, k, t) == Some(v)
  {
    var c := Set(k, v, Some(d));
    ServedTwo(c, 0, Timed(Get(k), d), all, scan, info);
    TtlRead(Some(d));
    hide Served, Trail, TtlField, FromLeI64;
    assert [Note(c, 0, true)] + [] == [Note(c, 0, true)];
    RestoredSet(c, 0, uses, crc, t, t);
  }

  /** A counter that differs: SET to 5 with a TTL and an INCR after it has passed. The live
      counter is 1; a restart gives 6, or 7 if the INCR filled the batch. */
  lemma ExpiredCounterDiffers(k: Key, d: Duration, all: bool, uses: seq<AofWriter.Use>, scan: Scan, info: Bytes,
                              crc: Snapshot.Crc, t: Instant)
    requires KeyFits(k) && TtlFits(Some(d))
    requires WritesLog(uses, Trail(map[], [Timed(Set(k, [53], Some(d)), 0), Timed(Incr(k), d)], all, scan, info))
    ensures
      var run := [Timed(Set(k, [53], Some(d)), 0), Timed(Incr(k), d)];
      && View(Served(map[], run, scan, info), k, d) == Some([49])
      && Restarted(FileOf(uses), crc, t, k, t) in {Some([54]), Some([55])}
  {
    var c := Set(k, [53], Some(d));
    LiveCounter(k, d, scan, info);
    ServedTwo(c, 0, Timed(Incr(k), d), all, scan, info);
    hide Served, Trail, DispatchState, AtOnce, Restarted, FileOf, AofWriter.Appended, AofWriter.Doubles, AofWriter.AllWrites;
    assert [Note(c, 0, true)] + [Note(Incr(k), d, true)] == [Note(c, 0, true), Note(Incr(k), d, true)];
    RestoredCounter(k, d, uses, crc, t);
  }

  lemma LiveCounter(k: Key, d: Duration, scan: Scan, info: Bytes)
    ensures
      var m := map[k := SetEntry([53], Some(d), 0)];
      DispatchState(m, 0, Incr(k), AtOnce(d, scan, info)) == (m[k := NewEntry(ONE, d)], Response.Integer(1))
  {
    hide ParseI64, ItoaInt;
    var m := map[k := SetEntry([53], Some(d), 0)];
    assert (m - {k})[k := NewEntry(ONE, d)] == m[k := NewEntry(ONE, d)];
  }

  lemma RestoredCounter(k: Key, d: Duration, uses: seq<AofWriter.Use>, crc: Snapshot.Crc, t: Instant)
    requires KeyFits(k) && TtlFits(Some(d))
    requires WritesLog(uses, [Note(Set(k, [53], Some(d)), 0, true), Note(Incr(k), d, true)])
    ensures Restarted(FileOf(uses), crc, t, k, t) in {Some([54]), Some([55])}
  {
    hide FileOf, Restarted, Records, Replayed, AofWriter.Appended, AofWriter.Doubles, AofWriter.AllWrites, TtlBack, IncrementedEntry;
    var c := Set(k, [53], Some(d));
    var notes := [Note(c, 0, true), Note(Incr(k), d, true)];
    FitsTwo(c, Incr(k));
    assert CommandsIn(notes) == [c, Incr(k)];
    RestartedIs(uses, notes, crc, t, k, t);
    var f := AofWriter.Doubles(uses);
    assert f == [f[0], f[1]];
    SameRecords(notes, [Note(c, 0, true), Note(Incr(k), 0, true)], f);
    RestoredTwo(c, Incr(k), f[0], f[1], t, k);
    FiveUp(d, t);
  }

  lemma FiveUp(d: Duration, t: Instant)
    requires TtlFits(Some(d))
    ensures
      var e := Some(SetEntry([53], TtlBack(Some(d)), t));
      && Shown(IncrementedEntry(e, t), t) == Some([54])
      && Shown(IncrementedEntry(IncrementedEntry(e, t), t), t) == Some([55])
  {
    TtlRead(Some(d));
    assert TtlBack(Some(d)) == Some(d);
    FiveSixSeven();
    hide TtlBack, ParseI64, ItoaInt, WrapI64;
  }

  lemma FiveSixSeven()
    ensures ParseI64([53]) == Some(5) && ItoaInt(6) == [54] && WrapI64(6) == 6
    ensures ParseI64([54]) == Some(6) && ItoaInt(7) == [55] && WrapI64(7) == 7
  {
    assert DecVal([53]) == 5 by { assert [53][..0] == []; }
    assert DecVal([54]) == 6 by { assert [54][..0] == []; }
  }
}
