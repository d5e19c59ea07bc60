/** Dumps of the engine: the rewritten log (`rewrite_aof`) and the snapshot file
    (`dump_snapshot`, `load_snapshot`). CRC32 is an arbitrary function of the payload. */
module Snapshot {
  import opened Bytes
  import opened Domain
  import opened Engine
  import opened AofCodec
  import opened Replay

  const MAGIC: Bytes := [90, 68, 66, 49]
  const VERSION: byte := 1
  const HEADER_SIZE: nat := 18
  const CRC_SIZE: nat := 4

  type U32 = n: nat | n < TWO32
  type Crc = Bytes -> U32

  // ---- what a dump holds ------------------------------------------------------

  /** The SET that a dumped entry amounts to. */
  function AsSet(d: DumpItem): Command {
    Set(d.key, d.value, if d.ttlMs > 0 then Some(d.ttlMs * MILLI) else None)
  }

  function DumpCommands(m: Store, order: seq<Key>, now: Instant): (cs: seq<Command>)
    ensures |cs| == |Dump(m, order, now)|
    ensures forall i :: 0 <= i < |cs| ==> cs[i] == AsSet(Dump(m, order, now)[i])
  {
    seq(|Dump(m, order, now)|, i requires 0 <= i < |Dump(m, order, now)| => AsSet(Dump(m, order, now)[i]))
  }

  predicate IsDumpTtl(ms: int) {
    ms == -1 || 0 < ms < TWO63
  }

  /** The TTL field written from milliseconds is the one a SET would write. */
  lemma DumpTtlField(d: DumpItem)
    requires IsDumpTtl(d.ttlMs)
    ensures TtlField(AsSet(d).ttl) == LeI64(d.ttlMs)
    ensures TtlFits(AsSet(d).ttl)
  {
    hide LeI64;
    if d.ttlMs > 0 {
      assert (d.ttlMs * MILLI) / MILLI == d.ttlMs && (d.ttlMs * MILLI) % MILLI == 0;
    }
  }

  lemma DumpTtlRange(e: ValueEntry, now: Instant)
    requires !e.IsExpiredAt(now)
    ensures IsDumpTtl(DumpTtl(e, now))
  {
  }

  /** Keys and values that fit their length fields. */
  predicate Dumpable(m: Store) {
    forall k :: k in m ==> KeyFits(k) && ValueFits(m[k].data)
  }

  /** Every dumped entry is written as a SET record, whether or not it fits its fields. */
  lemma DumpIsSets(m: Store, order: seq<Key>, now: Instant)
    ensures AllSets(DumpCommands(m, order, now))
    ensures forall i :: 0 <= i < |Dump(m, order, now)| ==> IsDumpTtl(Dump(m, order, now)[i].ttlMs)
  {
    hide LiveKeys, DumpTtl, IsDumpTtl;
    var ks, ds := LiveKeys(m, order, now), Dump(m, order, now);
    forall i | 0 <= i < |ds|
      ensures IsDumpTtl(ds[i].ttlMs)
    {
      assert LiveAt(m, ks[i], now);
      DumpTtlRange(m[ks[i]], now);
    }
  }

  lemma DumpEncodable(m: Store, order: seq<Key>, now: Instant)
    requires Dumpable(m)
    ensures AllEncodable(DumpCommands(m, order, now))
  {
    hide LiveKeys, DumpTtl, IsDumpTtl, KeyFits, ValueFits, TtlFits;
    DumpIsSets(m, order, now);
    var ks, ds := LiveKeys(m, order, now), Dump(m, order, now);
    forall i | 0 <= i < |ds|
      ensures Encodable(AsSet(ds[i])) && IsWrite(AsSet(ds[i]))
    {
      assert LiveAt(m, ks[i], now);
      DumpTtlField(ds[i]);
    }
  }

  // ---- the rewritten log ------------------------------------------------------

  /** `rewrite_aof`: one SET record per live entry. */
  method RewriteAof(engine: DashMapEngine, order: seq<Key>, now: Instant) returns (file: Bytes, count: nat)
    requires Enumerates(order, engine.map_)
    ensures
      var cs := DumpCommands(engine.map_, order, now);
      && AllSets(cs) && file == Log(cs) && count == |cs|
      && (Dumpable(engine.map_) ==> AllEncodable(cs))
  {
    hide Entry, Dump, LeI64, TtlField, Encodable, Dumpable;
    var items, n := engine.DumpEntries(order, now);
    DumpIsSets(engine.map_, order, now);
    if Dumpable(engine.map_) {
      DumpEncodable(engine.map_, order, now);
    }
    ghost var cs := DumpCommands(engine.map_, order, now);
    file := [];
    assert cs[..0] == [];
    for i := 0 to |items|
      invariant file == Log(cs[..i])
    {
      var d := items[i];
      assert IsDumpTtl(Dump(engine.map_, order, now)[i].ttlMs);
      DumpTtlField(d);
      DumpEntry(d);
      assert cs[..i + 1] == cs[..i] + [cs[i]];
      LogAppend(cs[..i], [cs[i]]);
      LogOne(cs[i]);
      file := file + ([CMD_SET] + KeyField(d.key) + ValueField(d.value) + LeI64(d.ttlMs));
    }
    assert cs[..|cs|] == cs;
    count := n;
  }

  lemma LogOne(c: Command)
    requires IsWrite(c)
    ensures Log([c]) == Entry(c)
  {
    assert Log([c][1..]) == [];
  }

  lemma DumpEntry(d: DumpItem)
    requires TtlField(AsSet(d).ttl) == LeI64(d.ttlMs)
    ensures Entry(AsSet(d)) == [CMD_SET] + KeyField(d.key) + ValueField(d.value) + LeI64(d.ttlMs)
  {
  }

  // ---- the snapshot file ------------------------------------------------------

  function Body(c: Command): Bytes
    requires c.Set?
  {
    KeyField(c.key) + ValueField(c.value) + TtlField(c.ttl)
  }

  predicate AllSets(cs: seq<Command>) {
    forall i :: 0 <= i < |cs| ==> cs[i].Set?
  }

  function Bodies(cs: seq<Command>): Bytes
    requires AllSets(cs)
  {
    if cs == [] then [] else Body(cs[0]) + Bodies(cs[1..])
  }

  function FileHeader(count: nat, timestamp: nat): (r: Bytes)
    ensures |r| == HEADER_SIZE
  {
    MAGIC + [VERSION, 0] + Le(count, 4) + Le(timestamp, 8)
  }

  function SnapshotFile(cs: seq<Command>, timestamp: nat, crc: Crc): Bytes
    requires AllSets(cs)
  {
    var payload := FileHeader(|cs|, timestamp) + Bodies(cs);
    payload + Le(crc(payload), 4)
  }

  lemma {:induction false} BodiesSnoc(cs: seq<Command>, c: Command)
    requires AllSets(cs) && c.Set?
    ensures Bodies(cs + [c]) == Bodies(cs) + Body(c)
  {
    hide Body;
    if cs == [] {
      assert cs + [c] == [c] && [c][1..] == [];
    } else {
      assert (cs + [c])[1..] == cs[1..] + [c];
      BodiesSnoc(cs[1..], c);
    }
  }

  /** `dump_snapshot`: a placeholder count, the entries, the count patched in, the CRC. */
  method DumpSnapshot(engine: DashMapEngine, order: seq<Key>, now: Instant, timestamp: nat, crc: Crc)
    returns (file: Bytes, count: nat)
    requires Enumerates(order, engine.map_)
    ensures
      var cs := DumpCommands(engine.map_, order, now);
      AllSets(cs) && file == SnapshotFile(cs, timestamp, crc) && count == |cs|
  {
    hide Body, Dump, LeI64, TtlField, Encodable, Le, KeyField, ValueField;
    var items, n := engine.DumpEntries(order, now);
    DumpIsSets(engine.map_, order, now);
    ghost var cs := DumpCommands(engine.map_, order, now);
    var buf := FileHeader(0, timestamp);
    assert cs[..0] == [];
    for i := 0 to |items|
      invariant buf == FileHeader(0, timestamp) + Bodies(cs[..i])
    {
      var d := items[i];
      assert IsDumpTtl(Dump(engine.map_, order, now)[i].ttlMs);
      DumpTtlField(d);
      DumpBody(d);
      assert cs[..i + 1] == cs[..i] + [cs[i]];
      BodiesSnoc(cs[..i], cs[i]);
      buf := buf + (KeyField(d.key) + ValueField(d.value) + LeI64(d.ttlMs));
    }
    assert cs[..|cs|] == cs;
    PatchCount(n, timestamp, Bodies(cs));
    buf := buf[..6] + Le(n, 4) + buf[10..];
    file := buf + Le(crc(buf), 4);
    count := n;
  }

  lemma DumpBody(d: DumpItem)
    requires TtlField(AsSet(d).ttl) == LeI64(d.ttlMs)
    ensures Body(AsSet(d)) == KeyField(d.key) + ValueField(d.value) + LeI64(d.ttlMs)
  {
  }

  lemma PatchCount(n: nat, timestamp: nat, rest: Bytes)
    ensures
      var buf := FileHeader(0, timestamp) + rest;
      buf[..6] + Le(n, 4) + buf[10..] == FileHeader(n, timestamp) + rest
  {
    hide Le;
    var buf := FileHeader(0, timestamp) + rest;
    assert buf[..6] == MAGIC + [VERSION, 0];
    assert buf[10..] == Le(timestamp, 8) + rest;
  }

  /** The entry loop of `load_snapshot`, over the payload. */
  function LoadEntries(payload: Bytes, pos: nat, count: nat): (r: seq<Command>)
    requires pos <= |payload|
    ensures |r| <= count
    decreases count
  {
    if count == 0 then [] else
    match ReadSet(payload, pos)
    case Stop => []
    case Apply(c, next) => [c] + LoadEntries(payload, next, count - 1)
  }

  /** What a file loads; None when it is rejected. */
  function LoadFile(data: Bytes, crc: Crc): (r: Option<seq<Command>>) {
    if |data| < HEADER_SIZE + CRC_SIZE then None
    else if data[..4] != MAGIC || data[4] != VERSION then None
    else
      var end := |data| - CRC_SIZE;
      if FromLe(data[end..]) != crc(data[..end]) then None
      else Some(LoadEntries(data[..end], HEADER_SIZE, FromLe(data[6..10])))
  }

  /** The map after loading entries into an engine with the limit `max`, and how many of them
      it took. */
  function LoadedWithin(m: Store, max: nat, cs: seq<Command>, clock: Clock, scan: Scans): (Store, nat)
    requires AllSets(cs)
  {
    if cs == [] then (m, 0)
    else
      var n := |cs| - 1;
      var (m1, count) := LoadedWithin(m, max, cs[..n], clock, scan);
      var (m2, r) := SetState(m1, max, cs[n].key, SetEntry(cs[n].value, cs[n].ttl, clock(n)), scan(n, 0, m1), clock(n));
      (m2, if r.Done? then count + 1 else count)
  }

  /** The map `m` and the count `n` are what loading `cs` into `start` gives. */
  predicate Loaded(m: Store, n: nat, start: Store, max: nat, cs: seq<Command>, clock: Clock, scan: Scans) {
    AllSets(cs) && (m, n) == LoadedWithin(start, max, cs, clock, scan)
  }

  lemma LoadedNone(m: Store, max: nat, clock: Clock, scan: Scans)
    ensures Loaded(m, 0, m, max, [], clock, scan)
  {
  }

  lemma LoadedWithinSnoc(m: Store, max: nat, cs: seq<Command>, c: Command, clock: Clock, scan: Scans)
    requires AllSets(cs) && c.Set?
    ensures
      var (m1, count) := LoadedWithin(m, max, cs, clock, scan);
      var (m2, r) := SetState(m1, max, c.key, SetEntry(c.value, c.ttl, clock(|cs|)), scan(|cs|, 0, m1), clock(|cs|));
      LoadedWithin(m, max, cs + [c], clock, scan) == (m2, if r.Done? then count + 1 else count)
  {
    hide SetState;
    assert (cs + [c])[..|cs|] == cs;
  }

  /** Without a limit every entry is taken, as a replay of its SET would. */
  lemma {:induction false} LoadedUnlimited(m: Store, cs: seq<Command>, clock: Clock, scan: Scans)
    requires AllSets(cs)
    ensures LoadedWithin(m, 0, cs, clock, scan) == (Replayed(m, cs, clock), |cs|)
    decreases |cs|
  {
    if cs != [] {
      LoadedUnlimited(m, cs[..|cs| - 1], clock, scan);
    }
  }

  /** `load_snapshot`; None is an error, which leaves the engine alone. */
  method LoadSnapshot(engine: DashMapEngine, data: Bytes, crc: Crc, clock: Clock, scan: Scans) returns (loaded: Option<nat>)
    requires engine.maxKeys > 0 ==> Enumerating(scan)
    modifies engine
    ensures
      match LoadFile(data, crc)
      case None => loaded == None && engine.map_ == old(engine.map_)
      case Some(cs) =>
        loaded.Some? && Loaded(engine.map_, loaded.value, old(engine.map_), engine.maxKeys, cs, clock, scan)
  {
    hide LoadEntries, FromLe, Loaded, Enumerating;
    if |data| < HEADER_SIZE + CRC_SIZE {
      return None;
    }
    if data[..4] != MAGIC || data[4] != VERSION {
      return None;
    }
    var end := |data| - CRC_SIZE;
    if FromLe(data[end..]) != crc(data[..end]) {
      return None;
    }
    var n := LoadLoop(engine, data[..end], FromLe(data[6..10]), clock, scan);
    loaded := Some(n);
  }

  /** The entry loop of `load_snapshot`: a torn entry ends it. */
  method LoadLoop(engine: DashMapEngine, payload: Bytes, count: nat, clock: Clock, scan: Scans) returns (loaded: nat)
    requires HEADER_SIZE <= |payload| && (engine.maxKeys > 0 ==> Enumerating(scan))
    modifies engine
    ensures
      var cs := LoadEntries(payload, HEADER_SIZE, count);
      Loaded(engine.map_, loaded, old(engine.map_), engine.maxKeys, cs, clock, scan)
  {
    hide ReadSet, Enumerating, Loaded;
    LoadedNone(engine.map_, engine.maxKeys, clock, scan);
    LoadEntriesStep(payload, HEADER_SIZE, count);
    hide LoadEntries;
    var pos: nat := HEADER_SIZE;
    loaded := 0;
    ghost var done: seq<Command> := [];
    ghost var all := LoadEntries(payload, HEADER_SIZE, count);
    assert done + all == all;
    for i := 0 to count
      invariant pos <= |payload| && |done| == i
      invariant all == done + LoadEntries(payload, pos, count - i)
      invariant Loaded(engine.map_, loaded, old(engine.map_), engine.maxKeys, done, clock, scan)
    {
      LoadEntriesStep(payload, pos, count - i);
      assert done + [] == done;
      var s := TakeSet(payload, pos);
      if s.Stop? {
        break;
      }
      SetIsSet(payload, pos);
      var c := s.command;
      loaded := LoadEntry(engine, c, clock, scan, i, loaded, old(engine.map_), done);
      ghost var rest := LoadEntries(payload, s.next, count - i - 1);
      assert done + ([c] + rest) == (done + [c]) + rest;
      done := done + [c];
      pos := s.next;
      LoadEntriesStep(payload, pos, count - i - 1);
    }
    assert done + [] == done;
  }

  /** One loaded entry; one that the limit refuses is not counted. */
  method LoadEntry(engine: DashMapEngine, c: Command, clock: Clock, scan: Scans, i: nat, before: nat, ghost start: Store, ghost done: seq<Command>)
    returns (loaded: nat)
    requires (engine.maxKeys > 0 ==> Enumerating(scan)) && c.Set? && |done| == i
    requires Loaded(engine.map_, before, start, engine.maxKeys, done, clock, scan)
    modifies engine
    ensures Loaded(engine.map_, loaded, start, engine.maxKeys, done + [c], clock, scan)
  {
    hide SetState, Enumerates, LoadedWithin;
    LoadedWithinSnoc(start, engine.maxKeys, done, c, clock, scan);
    var r := engine.Set(c.key, SetEntry(c.value, c.ttl, clock(i)), scan(i, 0, engine.map_), clock(i));
    loaded := if r.Done? then before + 1 else before;
  }

  lemma LoadEntriesStep(payload: Bytes, pos: nat, count: nat)
    requires pos <= |payload|
    ensures count == 0 ==> LoadEntries(payload, pos, count) == []
    ensures count > 0 ==>
      match ReadSet(payload, pos)
      case Stop => LoadEntries(payload, pos, count) == []
      case Apply(c, next) => LoadEntries(payload, pos, count) == [c] + LoadEntries(payload, next, count - 1)
  {
    hide ReadSet;
  }

  // ---- round trip -------------------------------------------------------------

  lemma BodyRead(a: Bytes, c: Command, z: Bytes)
    requires c.Set? && Encodable(c)
    ensures ReadSet(a + Body(c) + z, |a|) == Apply(c, |a| + |Body(c)|)
  {
    hide ReadSet, KeyField, ValueField, TtlField, FromLeI64;
    SetRead(a, c.key, c.value, c.ttl, z);
    TtlRead(c.ttl);
  }

  /** The header's count decides how many entries are taken, and a count past the end takes those
      that are there. */
  lemma {:induction false} CountedEntries(a: Bytes, cs: seq<Command>, n: nat)
    requires AllSets(cs) && AllEncodable(cs)
    ensures LoadEntries(a + Bodies(cs), |a|, n) == if n <= |cs| then cs[..n] else cs
    decreases |cs|
  {
    hide Body, ReadSet, Encodable, LoadEntries, KeyFits, ValueFits;
    var data := a + Bodies(cs);
    LoadEntriesStep(data, |a|, n);
    if cs == [] {
      assert data == a;
      NothingToRead(a);
    } else if n > 0 {
      assert Encodable(cs[0]);
      BodyRead(a, cs[0], Bodies(cs[1..]));
      assert data == a + Body(cs[0]) + Bodies(cs[1..]);
      CountedEntries(a + Body(cs[0]), cs[1..], n - 1);
      assert data == (a + Body(cs[0])) + Bodies(cs[1..]);
      assert [cs[0]] + cs[1..] == cs;
      assert n <= |cs| ==> [cs[0]] + cs[1..][..n - 1] == cs[..n];
    }
  }

  lemma NothingToRead(a: Bytes)
    ensures ReadSet(a, |a|) == Stop
  {
  }

  /** A snapshot file loads exactly the entries that were dumped. */
  lemma SnapshotRoundTrip(cs: seq<Command>, timestamp: nat, crc: Crc)
    requires AllSets(cs) && AllEncodable(cs) && |cs| < TWO32
    ensures LoadFile(SnapshotFile(cs, timestamp, crc), crc) == Some(cs)
  {
    hide Le, FromLe, Bodies, LoadEntries, Encodable;
    var h := FileHeader(|cs|, timestamp);
    var payload := h + Bodies(cs);
    var data := SnapshotFile(cs, timestamp, crc);
    var end := |data| - CRC_SIZE;
    assert end == |payload|;
    assert data[..end] == payload;
    assert data[end..] == Le(crc(payload), 4);
    LeExact248(crc(payload));
    assert data[..4] == MAGIC;
    assert data[4] == VERSION;
    assert data[6..10] == Le(|cs|, 4);
    LeExact248(|cs|);
    CountedEntries(h, cs, |cs|);
    assert cs[..|cs|] == cs;
  }

  // ---- files that are refused -----------------------------------------------------

  /** A file loads if and only if it is long enough, starts with "ZDB1" and version 1, and its
      last four bytes are the checksum of the rest. */
  lemma LoadsExactly(data: Bytes, crc: Crc)
    ensures
      LoadFile(data, crc).Some? <==>
        && |data| >= 22 && data[0] == 90 && data[1] == 68 && data[2] == 66 && data[3] == 49 && data[4] == 1
        && FromLe(data[|data| - 4..]) == crc(data[..|data| - 4])
  {
    hide LoadEntries, FromLe;
    if |data| >= 22 {
      assert data[..4] == [data[0], data[1], data[2], data[3]];
    }
  }

  /** A trailer other than the checksum refuses any payload. */
  lemma BadChecksum(payload: Bytes, x: U32, crc: Crc)
    requires x != crc(payload)
    ensures LoadFile(payload + Le(x, 4), crc) == None
  {
    hide LoadEntries, FromLe, Le;
    var data := payload + Le(x, 4);
    LeExact248(x);
    assert data[..|data| - 4] == payload && data[|data| - 4..] == Le(x, 4);
    LoadsExactly(data, crc);
  }

  /** A dump whose payload was altered to one with another checksum is refused. */
  lemma DamagedDump(cs: seq<Command>, timestamp: nat, crc: Crc, altered: Bytes)
    requires AllSets(cs)
    requires crc(altered) != crc(FileHeader(|cs|, timestamp) + Bodies(cs))
    ensures LoadFile(altered + SnapshotFile(cs, timestamp, crc)[|FileHeader(|cs|, timestamp) + Bodies(cs)|..], crc) == None
  {
    hide LoadFile, Bodies, FileHeader, Le;
    var payload := FileHeader(|cs|, timestamp) + Bodies(cs);
    assert (payload + Le(crc(payload), 4))[|payload|..] == Le(crc(payload), 4);
    BadChecksum(altered, crc(payload), crc);
  }

  /** A file cut below its shortest length is refused. */
  lemma ShortFile(data: Bytes, n: nat, crc: Crc)
    requires n <= |data| && n < 22
    ensures LoadFile(data[..n], crc) == None
  {
    hide LoadEntries, FromLe;
  }

  // ---- the dumped state and the loaded state -----------------------------------

  /** What a dumped entry becomes when it is loaded at `t`. */
  function Reloaded(e: ValueEntry, dumpedAt: Instant, t: Instant): ValueEntry
    requires !e.IsExpiredAt(dumpedAt)
  {
    var ms := DumpTtl(e, dumpedAt);
    ValueEntry(e.data, if ms > 0 then Some(t + ms * MILLI) else None, Some(t))
  }

  /** Which deadline a reloaded entry has: none stays none, the remaining time is rounded down
      to whole milliseconds, and an entry with less than one millisecond left becomes permanent. */
  lemma ReloadedDeadline(e: ValueEntry, dumpedAt: Instant, t: Instant)
    requires !e.IsExpiredAt(dumpedAt)
    ensures
      var r := Reloaded(e, dumpedAt, t);
      && (e.expiresAt.None? ==> r.expiresAt == None)
      && (e.expiresAt.Some? ==>
            var left := e.expiresAt.value - dumpedAt;
            && (left < MILLI ==> r.expiresAt == None)
            && (MILLI <= left && left / MILLI < TWO63 ==> r.expiresAt == Some(t + left / MILLI * MILLI)))
  {
  }

  /** The entries of `ks` as they are reloaded. */
  function ReloadedKeys(m: Store, ks: seq<Key>, now: Instant, t: Instant): Store
    requires forall k :: k in ks ==> LiveAt(m, k, now)
  {
    map k | k in ks :: assert LiveAt(m, k, now); Reloaded(m[k], now, t)
  }

  lemma ReloadedSnoc(m: Store, ks: seq<Key>, k: Key, now: Instant, t: Instant)
    requires (forall j :: j in ks ==> LiveAt(m, j, now)) && LiveAt(m, k, now)
    ensures ReloadedKeys(m, ks + [k], now, t) == ReloadedKeys(m, ks, now, t)[k := Reloaded(m[k], now, t)]
  {
    hide Reloaded;
  }

  lemma ApplyDumped(r: Store, m: Store, k: Key, now: Instant, t: Instant)
    requires LiveAt(m, k, now)
    ensures ApplyTo(r, AsSet(DumpItem(k, m[k].data, DumpTtl(m[k], now))), t) == r[k := Reloaded(m[k], now, t)]
  {
    hide DumpTtl;
  }

  lemma {:induction false} ReplaySets(m: Store, order: seq<Key>, now: Instant, t: Instant, i: nat)
    requires i <= |LiveKeys(m, order, now)|
    ensures forall k :: k in LiveKeys(m, order, now)[..i] ==> LiveAt(m, k, now)
    ensures Replayed(map[], DumpCommands(m, order, now)[..i], Always(t))
         == ReloadedKeys(m, LiveKeys(m, order, now)[..i], now, t)
  {
    hide DumpTtl, LiveKeys, ApplyTo, AsSet, Reloaded;
    LiveKeysAre(m, order, now);
    var ks, cs := LiveKeys(m, order, now), DumpCommands(m, order, now);
    if i > 0 {
      ReplaySets(m, order, now, t, i - 1);
      assert cs[..i] == cs[..i - 1] + [cs[i - 1]];
      assert ks[..i] == ks[..i - 1] + [ks[i - 1]];
      hide ReloadedKeys, Replayed, DumpCommands;
      ReplayedSnoc(map[], cs[..i - 1], cs[i - 1], Always(t));
      ReloadedSnoc(m, ks[..i - 1], ks[i - 1], now, t);
      ApplyDumped(ReloadedKeys(m, ks[..i - 1], now, t), m, ks[i - 1], now, t);
    }
  }

  /** Loading a dump taken at `now` into an empty engine at `t` gives exactly the keys live at
      `now`, with the same bytes and the deadlines of `Reloaded`. */
  lemma DumpReloads(m: Store, order: seq<Key>, now: Instant, t: Instant)
    requires Enumerates(order, m)
    ensures
      var cs := DumpCommands(m, order, now);
      var r := Replayed(map[], cs, Always(t));
      && r.Keys == Live(m, now).Keys
      && |cs| == |Live(m, now)|
      && (forall k :: k in r ==> k in m && !m[k].IsExpiredAt(now) && r[k] == Reloaded(m[k], now, t))
  {
    hide DumpTtl, LiveKeys, Replayed, Reloaded;
    var ks := LiveKeys(m, order, now);
    LiveKeysAre(m, order, now);
    ReplaySets(m, order, now, t, |ks|);
    assert ks[..|ks|] == ks;
    assert DumpCommands(m, order, now)[..|ks|] == DumpCommands(m, order, now);
    DistinctSize(ks, Live(m, now).Keys);
  }

  lemma {:induction false} DistinctSize(ks: seq<Key>, s: set<Key>)
    requires forall i, j :: 0 <= i < j < |ks| ==> ks[i] != ks[j]
    requires forall k :: k in s <==> k in ks
    ensures |s| == |ks|
    decreases |ks|
  {
    if ks == [] {
      assert s == {};
    } else {
      var n := |ks| - 1;
      assert ks == ks[..n] + [ks[n]];
      DistinctSize(ks[..n], s - {ks[n]});
    }
  }

  /** Compaction and snapshot round trips. Replaying the rewritten log and loading the snapshot
      file both restore the live entries of `m`; every dumped entry is counted once. */
  lemma DumpsRestore(m: Store, order: seq<Key>, now: Instant, t: Instant, timestamp: nat, crc: Crc)
    requires Enumerates(order, m) && Dumpable(m) && |m| < TWO32
    ensures
      var cs := DumpCommands(m, order, now);
      && AllEncodable(cs) && AllSets(cs) && |cs| == |Live(m, now)|
      && ReadLog(Log(cs), 0) == cs
      && LoadFile(SnapshotFile(cs, timestamp, crc), crc) == Some(cs)
      && var r := Replayed(map[], cs, Always(t));
         r.Keys == Live(m, now).Keys
         && (forall k :: k in r ==> k in m && !m[k].IsExpiredAt(now) && r[k] == Reloaded(m[k], now, t))
  {
    hide DumpCommands, Reloaded, ReadLog, Log, LoadFile, SnapshotFile, Encodable, Replayed;
    var cs := DumpCommands(m, order, now);
    DumpEncodable(m, order, now);
    DumpReloads(m, order, now, t);
    LiveNoLarger(m, now);
    LogRoundTrip(cs);
    SnapshotRoundTrip(cs, timestamp, crc);
  }

  lemma LiveNoLarger(m: Store, now: Instant)
    ensures |Live(m, now)| <= |m|
  {
    var live, dead := Live(m, now).Keys, m.Keys - Live(m, now).Keys;
    assert m.Keys == live + dead;
  }
}
