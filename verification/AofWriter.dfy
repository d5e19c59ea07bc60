/** The batching log writer used by one task at a time: what ends up in the file, and why the
    entries it writes twice do no harm. The interleaved use is in `WriterTasks`. */
module AofWriter {
  import opened Bytes
  import opened Domain
  import opened Engine
  import EngineRuns
  import opened AofCodec
  import opened Replay
  import opened Recovery

  const BATCH_SIZE: nat := 4096

  datatype FsyncPolicy = Always_ | Everysec | No

  /** The file and the batch after an entry is appended. The entry that fills the batch is
      written with the batch and then once more on its own. */
  function AppendState(file: Bytes, batch: Bytes, entry: Bytes): (Bytes, Bytes) {
    if |batch + entry| < BATCH_SIZE then (file, batch + entry) else (file + (batch + entry) + entry, [])
  }

  class AofWriter {
    var file: Bytes
    var batch: Bytes
    var lastFsync: Instant
    const policy: FsyncPolicy

    constructor (file: Bytes, policy: FsyncPolicy, now: Instant)
      ensures this.file == file && batch == [] && lastFsync == now && this.policy == policy
    {
      this.file := file;
      this.policy := policy;
      batch, lastFsync := [], now;
    }

    /** `append_raw`. */
    method AppendRaw(entry: Bytes, now: Instant)
      modifies this
      ensures (file, batch) == AppendState(old(file), old(batch), entry)
    {
      batch := batch + entry;
      if |batch| < BATCH_SIZE {
        return;
      }
      FlushBatch(entry, now);
    }

    /** `flush_batch`. */
    method FlushBatch(entry: Bytes, now: Instant)
      modifies this
      ensures file == old(file) + old(batch) + entry && batch == []
    {
      if batch != [] {
        file := file + batch;
        batch := [];
      }
      file := file + entry;
      if policy.Everysec? && now >= lastFsync + SECOND {
        lastFsync := now;
      }
    }

    /** `flush`. */
    method Flush()
      modifies this
      ensures file == old(file) + old(batch) && batch == [] && lastFsync == old(lastFsync)
    {
      if batch != [] {
        file := file + batch;
        batch := [];
      }
    }

    /** `flush_if_needed`: only under the every-second policy, and only when a second has passed. */
    method FlushIfNeeded(now: Instant)
      modifies this
      ensures
        if policy.Everysec? && now >= old(lastFsync) + SECOND
        then file == old(file) + old(batch) && batch == [] && lastFsync == now
        else file == old(file) && batch == old(batch) && lastFsync == old(lastFsync)
    {
      if policy.Everysec? && now >= lastFsync + SECOND {
        if batch != [] {
          file := file + batch;
          batch := [];
        }
        lastFsync := now;
      }
    }

    /** `finalize_rewrite`: the pending batch goes to the old file, which is then replaced. */
    method FinalizeRewrite(rewritten: Bytes)
      modifies this
      ensures file == rewritten && batch == []
    {
      if batch != [] {
        file := file + batch;
        batch := [];
      }
      file := rewritten;
    }
  }

  // ---- the file of a single writer ----------------------------------------------

  /** What one task does with the writer: append the entry of a command, or flush. */
  datatype Use = Append(command: Command) | FlushAll

  predicate AllWrites(uses: seq<Use>) {
    forall i :: 0 <= i < |uses| ==> uses[i].Append? ==> IsWrite(uses[i].command)
  }

  predicate AllRecords(cs: seq<Command>) {
    forall i :: 0 <= i < |cs| ==> IsWrite(cs[i])
  }

  /** The commands appended, in order. */
  function Appended(uses: seq<Use>): seq<Command> {
    if uses == [] then []
    else
      var n := |uses| - 1;
      Appended(uses[..n]) + (if uses[n].Append? then [uses[n].command] else [])
  }

  /** How many bytes the batch holds after `uses`. */
  function Fill(uses: seq<Use>): nat
    requires AllWrites(uses)
  {
    if uses == [] then 0
    else
      var n := |uses| - 1;
      match uses[n]
      case FlushAll => 0
      case Append(c) =>
        var f := Fill(uses[..n]) + |Entry(c)|;
        if f < BATCH_SIZE then f else 0
  }

  /** Whether the last use filled the batch. */
  predicate Fills(uses: seq<Use>)
    requires AllWrites(uses) && uses != []
  {
    var n := |uses| - 1;
    uses[n].Append? && Fill(uses[..n]) + |Entry(uses[n].command)| >= BATCH_SIZE
  }

  /** The appended commands, with each batch-filling one twice in a row. */
  function Written(uses: seq<Use>): seq<Command>
    requires AllWrites(uses)
  {
    if uses == [] then []
    else
      var n := |uses| - 1;
      Written(uses[..n]) +
      (if uses[n].FlushAll? then []
       else if Fills(uses) then [uses[n].command, uses[n].command]
       else [uses[n].command])
  }

  /** Runs the uses on a writer and flushes once at the end. */
  method WriteAll(uses: seq<Use>, policy: FsyncPolicy, now: Instant) returns (file: Bytes)
    requires AllWrites(uses)
    ensures AllRecords(Written(uses)) && file == Log(Written(uses))
  {
    hide Entry, Encodable, AppendState, Log;
    var w := new AofWriter([], policy, now);
    WrittenRecords(uses[..0]);
    LogNil();
    for i := 0 to |uses|
      invariant AllWrites(uses[..i]) && AllRecords(Written(uses[..i]))
      invariant w.file + w.batch == Log(Written(uses[..i])) && |w.batch| == Fill(uses[..i])
    {
      assert uses[..i + 1][..i] == uses[..i];
      WrittenRecords(uses[..i + 1]);
      match uses[i] {
        case FlushAll =>
          assert Written(uses[..i]) + [] == Written(uses[..i]);
          assert w.file + w.batch + [] == w.file + w.batch;
          w.Flush();
        case Append(c) =>
          AppendWritten(w.file, w.batch, uses[..i + 1]);
          w.AppendRaw(Entry(c), now);
      }
    }
    assert uses[..|uses|] == uses;
    w.Flush();
    assert w.file + [] == w.file;
    file := w.file;
  }

  lemma LogNil()
    ensures Log([]) == []
  {
  }

  lemma {:induction false} WrittenRecords(uses: seq<Use>)
    requires AllWrites(uses)
    ensures AllRecords(Written(uses)) && AllRecords(Appended(uses))
    decreases |uses|
  {
    hide Entry;
    if uses != [] {
      WrittenRecords(uses[..|uses| - 1]);
    }
  }

  // ---- which appends are doubled ---------------------------------------------------

  /** For each appended command, whether it filled the batch. */
  function Doubles(uses: seq<Use>): seq<bool>
    requires AllWrites(uses)
  {
    if uses == [] then []
    else
      var n := |uses| - 1;
      Doubles(uses[..n]) + (if uses[n].Append? then [Fills(uses)] else [])
  }

  /** Commands with the marked ones twice in a row. */
  function Spread(cs: seq<Command>, twice: seq<bool>): seq<Command>
    requires |cs| == |twice|
  {
    if cs == [] then []
    else
      var n := |cs| - 1;
      Spread(cs[..n], twice[..n]) + (if twice[n] then [cs[n], cs[n]] else [cs[n]])
  }

  lemma SpreadSnoc(cs: seq<Command>, twice: seq<bool>, c: Command, double: bool)
    requires |cs| == |twice|
    ensures Spread(cs + [c], twice + [double]) == Spread(cs, twice) + (if double then [c, c] else [c])
  {
    assert (cs + [c])[..|cs|] == cs && (twice + [double])[..|cs|] == twice;
  }

  /** What is written is what was appended, with the batch-filling commands doubled. */
  lemma {:induction false} WrittenIsSpread(uses: seq<Use>)
    requires AllWrites(uses)
    ensures |Doubles(uses)| == |Appended(uses)| && Written(uses) == Spread(Appended(uses), Doubles(uses))
    decreases |uses|
  {
    hide Fills, Fill;
    if uses != [] {
      var n := |uses| - 1;
      WrittenIsSpread(uses[..n]);
      if uses[n].Append? {
        SpreadSnoc(Appended(uses[..n]), Doubles(uses[..n]), uses[n].command, Fills(uses));
      } else {
        assert Appended(uses[..n]) + [] == Appended(uses[..n]) && Doubles(uses[..n]) + [] == Doubles(uses[..n]);
        assert Written(uses[..n]) + [] == Written(uses[..n]);
      }
    }
  }

  lemma {:induction false} SpreadFits(cs: seq<Command>, twice: seq<bool>)
    requires |cs| == |twice| && AllFit(cs)
    ensures AllFit(Spread(cs, twice))
    decreases |cs|
  {
    hide Fits;
    if cs != [] {
      SpreadFits(cs[..|cs| - 1], twice[..|cs| - 1]);
    }
  }

  lemma {:induction false} SpreadEncodable(cs: seq<Command>, twice: seq<bool>)
    requires |cs| == |twice| && AllEncodable(cs)
    ensures AllEncodable(Spread(cs, twice))
    decreases |cs|
  {
    hide Encodable;
    if cs != [] {
      SpreadEncodable(cs[..|cs| - 1], twice[..|cs| - 1]);
    }
  }

  lemma AppendWritten(file: Bytes, batch: Bytes, uses: seq<Use>)
    requires AllWrites(uses) && uses != [] && uses[|uses| - 1].Append?
    requires AllRecords(Written(uses[..|uses| - 1])) && AllRecords(Written(uses))
    requires file + batch == Log(Written(uses[..|uses| - 1])) && |batch| == Fill(uses[..|uses| - 1])
    ensures
      var (f, b) := AppendState(file, batch, Entry(uses[|uses| - 1].command));
      f + b == Log(Written(uses)) && |b| == Fill(uses)
  {
    hide Entry, Encodable, Log, AppendState, Fill, Written, Fills;
    UsesStep(uses);
    AppendLog(file, batch, Written(uses[..|uses| - 1]), uses[|uses| - 1].command);
  }

  lemma AppendLog(file: Bytes, batch: Bytes, prev: seq<Command>, c: Command)
    requires (forall i :: 0 <= i < |prev| ==> IsWrite(prev[i])) && IsWrite(c)
    requires file + batch == Log(prev)
    ensures
      var (f, b) := AppendState(file, batch, Entry(c));
      var full := |batch| + |Entry(c)| >= BATCH_SIZE;
      && f + b == Log(prev + (if full then [c, c] else [c]))
      && |b| == (if full then 0 else |batch| + |Entry(c)|)
  {
    hide Entry, Log;
    var e := Entry(c);
    LogTwo(c);
    if |batch| + |e| >= BATCH_SIZE {
      LogAppend(prev, [c, c]);
      assert file + (batch + e) + e + [] == (file + batch) + (e + e);
    } else {
      LogAppend(prev, [c]);
      assert file + (batch + e) == (file + batch) + e;
    }
  }

  lemma UsesStep(uses: seq<Use>)
    requires AllWrites(uses) && uses != [] && uses[|uses| - 1].Append?
    ensures
      var n := |uses| - 1;
      var c := uses[n].command;
      var f := Fill(uses[..n]) + |Entry(c)|;
      && Fill(uses) == (if f < BATCH_SIZE then f else 0)
      && Written(uses) == Written(uses[..n]) + (if f < BATCH_SIZE then [c] else [c, c])
  {
    hide Entry, Encodable;
  }

  lemma LogTwo(c: Command)
    requires IsWrite(c)
    ensures Log([c]) == Entry(c) && Log([c, c]) == Entry(c) + Entry(c)
  {
    hide Entry;
    assert [c][1..] == [] && [c, c][1..] == [c];
  }

  // ---- a doubled entry ------------------------------------------------------------

  predicate SameLive(a: Store, b: Store, now: Instant) {
    Live(a, now) == Live(b, now)
  }

  /** An INCR that adds one: its key is absent or holds an integer. */
  predicate Increments(m: Store, c: Command, now: Instant) {
    c.Incr? && (LiveAt(m, c.key, now) ==> ParseI64(m[c.key].data).Some?)
  }

  lemma {:induction false} PutAllAt(m: Store, ps: seq<(Key, Bytes)>, now: Instant, k: Key)
    ensures
      var r := PutAll(m, ps, now);
      match PairEffect(ps, k)
      case Puts(v) => k in r && r[k] == NewEntry(v, now)
      case _ => (k in r <==> k in m) && (k in m ==> r[k] == m[k])
    decreases |ps|
  {
    if ps != [] {
      PutAllAt(m, ps[..|ps| - 1], now, k);
    }
  }

  lemma PutAllTwice(m: Store, ps: seq<(Key, Bytes)>, now: Instant)
    ensures PutAll(PutAll(m, ps, now), ps, now) == PutAll(m, ps, now)
  {
    var once := PutAll(m, ps, now);
    var twice := PutAll(once, ps, now);
    forall k
      ensures (k in twice <==> k in once) && (k in once ==> twice[k] == once[k])
    {
      PutAllAt(m, ps, now, k);
      PutAllAt(once, ps, now, k);
    }
  }

  /** The counter value after an increment. */
  function NextValue(m: Store, k: Key, now: Instant): int
    requires Increments(m, Incr(k), now)
  {
    if LiveAt(m, k, now) then WrapI64(ParseI64(m[k].data).value + 1) else 1
  }

  lemma IncrOnce(m: Store, k: Key, now: Instant)
    requires Increments(m, Incr(k), now)
    ensures
      var once := ApplyTo(m, Incr(k), now);
      && LiveAt(once, k, now) && once[k].data == ItoaInt(NextValue(m, k, now))
      && Increments(once, Incr(k), now) && NextValue(once, k, now) == WrapI64(NextValue(m, k, now) + 1)
  {
    var n := NextValue(m, k, now);
    assert Itoa(1) == ONE;
    ParseI64ItoaInt(n);
    hide ItoaInt, ParseI64, WrapI64;
  }

  lemma IncrTwice(m: Store, k: Key, now: Instant)
    ensures
      var once := ApplyTo(m, Incr(k), now);
      SameLive(ApplyTo(once, Incr(k), now), once, now) <==> !Increments(m, Incr(k), now)
  {
    var once := ApplyTo(m, Incr(k), now);
    if Increments(m, Incr(k), now) {
      IncrOnce(m, k, now);
      IncrOnce(once, k, now);
      var n := NextValue(m, k, now);
      ParseI64ItoaInt(n);
      ParseI64ItoaInt(WrapI64(n + 1));
      assert WrapI64(n + 1) != n;
      hide ItoaInt, ParseI64, WrapI64, ApplyTo, NextValue;
      var twice := ApplyTo(once, Incr(k), now);
      assert Live(once, now)[k] == once[k] && Live(twice, now)[k] == twice[k];
    }
  }

  lemma ExpireTwice(m: Store, k: Key, s: nat, now: Instant)
    ensures
      var once := ApplyTo(m, Expire(k, s), now);
      SameLive(ApplyTo(once, Expire(k, s), now), once, now)
  {
    var once := ApplyTo(m, Expire(k, s), now);
    if k in once && once[k].IsExpiredAt(now) {
      EngineRuns.LiveRemoveExpired(once, k, now);
    }
  }

  /** Applying one record twice at the same instant shows in the live view exactly when it is
      an INCR that adds one. */
  lemma DoubledEntryHarmless(m: Store, c: Command, now: Instant)
    requires IsWrite(c)
    ensures
      var once := ApplyTo(m, c, now);
      SameLive(ApplyTo(once, c, now), once, now) <==> !Increments(m, c, now)
  {
    match c {
      case Incr(k) => IncrTwice(m, k, now);
      case Expire(k, s) => ExpireTwice(m, k, s, now);
      case Mset(ps) => PutAllTwice(m, ps, now);
      case Set(k, v, ttl) =>
      case Del(k) =>
      case FlushDb =>
    }
  }

  // ---- duplicate tolerance ----------------------------------------------------------

  lemma {:induction false} PutAllSame(a: Store, b: Store, ps: seq<(Key, Bytes)>, now: Instant)
    requires SameLive(a, b, now)
    ensures SameLive(PutAll(a, ps, now), PutAll(b, ps, now), now)
    decreases |ps|
  {
    if ps != [] {
      var n := |ps| - 1;
      PutAllSame(a, b, ps[..n], now);
      EngineRuns.LivePut(PutAll(a, ps[..n], now), PutAll(b, ps[..n], now), ps[n].0, NewEntry(ps[n].1, now), now);
    }
  }

  /** Records act on the live view only. */
  lemma ApplySame(a: Store, b: Store, c: Command, now: Instant)
    requires SameLive(a, b, now) && IsWrite(c)
    ensures SameLive(ApplyTo(a, c, now), ApplyTo(b, c, now), now)
  {
    match c {
      case Set(k, v, ttl) => EngineRuns.LivePut(a, b, k, SetEntry(v, ttl, now), now);
      case Mset(ps) => PutAllSame(a, b, ps, now);
      case FlushDb =>
      case Del(k) => DelSame(a, b, k, now);
      case Incr(k) => IncrSame(a, b, k, now);
      case Expire(k, s) => ExpireSame(a, b, k, s, now);
    }
  }

  lemma DelSame(a: Store, b: Store, k: Key, now: Instant)
    requires SameLive(a, b, now)
    ensures SameLive(ApplyTo(a, Del(k), now), ApplyTo(b, Del(k), now), now)
  {
    EngineRuns.SameView(a, b, now, k);
    EngineRuns.LiveDrop(a, b, k, now);
  }

  lemma IncrSame(a: Store, b: Store, k: Key, now: Instant)
    requires SameLive(a, b, now)
    ensures SameLive(ApplyTo(a, Incr(k), now), ApplyTo(b, Incr(k), now), now)
  {
    hide ParseI64, ItoaInt, WrapI64;
    EngineRuns.SameView(a, b, now, k);
    var e := NewEntry(ONE, now);
    if LiveAt(a, k, now) {
      var v := ParseI64(a[k].data);
      if v.Some? {
        EngineRuns.LivePut(a, b, k, a[k].(data := ItoaInt(WrapI64(v.value + 1))), now);
      }
    } else {
      EngineRuns.LivePut(a, b, k, e, now);
      assert k in a ==> (a - {k})[k := e] == a[k := e];
      assert k in b ==> (b - {k})[k := e] == b[k := e];
    }
  }

  lemma ExpireSame(a: Store, b: Store, k: Key, s: nat, now: Instant)
    requires SameLive(a, b, now)
    ensures SameLive(ApplyTo(a, Expire(k, s), now), ApplyTo(b, Expire(k, s), now), now)
  {
    EngineRuns.SameView(a, b, now, k);
    if LiveAt(a, k, now) {
      EngineRuns.LivePut(a, b, k, a[k].(expiresAt := Some(now + s * SECOND)), now);
    } else {
      EngineRuns.LiveRemoveExpired(a, k, now);
      EngineRuns.LiveRemoveExpired(b, k, now);
    }
  }

  /** No batch-filling append is an INCR. */
  predicate NoIncrDoubled(uses: seq<Use>)
    requires AllWrites(uses)
  {
    forall i :: 0 < i <= |uses| && Fills(uses[..i]) ==> !uses[i - 1].command.Incr?
  }

  /** Duplicate tolerance. At a fixed clock, replaying the file that a writer really produces
      gives the same live view as replaying every appended entry once, provided no entry that
      filled a batch is an INCR; other INCRs may occur freely. */
  lemma DuplicateTolerance(m: Store, uses: seq<Use>, now: Instant)
    requires AllWrites(uses) && AllEncodable(Appended(uses)) && NoIncrDoubled(uses)
    ensures AllEncodable(Written(uses)) && ReadLog(Log(Written(uses)), 0) == Written(uses)
    ensures SameLive(Replayed(m, Written(uses), Always(now)), Replayed(m, Appended(uses), Always(now)), now)
  {
    hide Entry, Encodable, ReadLog, Log, SameLive, Replayed;
    WrittenIsSpread(uses);
    SpreadEncodable(Appended(uses), Doubles(uses));
    LogRoundTrip(Written(uses));
    DoublesAreInvisible(m, uses, now);
  }

  lemma {:induction false} DoublesAreInvisible(m: Store, uses: seq<Use>, now: Instant)
    requires AllWrites(uses) && NoIncrDoubled(uses)
    ensures SameLive(Replayed(m, Written(uses), Always(now)), Replayed(m, Appended(uses), Always(now)), now)
    decreases |uses|
  {
    hide Entry, Encodable, SameLive, Fills, Fill, Replayed;
    if uses == [] {
      SameLiveRefl(Replayed(m, [], Always(now)), now);
    } else {
      var n := |uses| - 1;
      assert forall i :: 0 < i <= n ==> uses[..n][..i] == uses[..i];
      DoublesAreInvisible(m, uses[..n], now);
      var w, a := Written(uses[..n]), Appended(uses[..n]);
      assert uses[..n + 1] == uses;
      if uses[n].FlushAll? {
        assert w + [] == w && a + [] == a;
      } else {
        var c := uses[n].command;
        DoubleStep(m, w, a, c, Fills(uses), now);
      }
    }
  }

  lemma SameLiveRefl(m: Store, now: Instant)
    ensures SameLive(m, m, now)
  {
  }

  lemma DoubleStep(m: Store, w: seq<Command>, a: seq<Command>, c: Command, doubled: bool, now: Instant)
    requires IsWrite(c) && (doubled ==> !c.Incr?)
    requires SameLive(Replayed(m, w, Always(now)), Replayed(m, a, Always(now)), now)
    ensures SameLive(Replayed(m, w + (if doubled then [c, c] else [c]), Always(now)),
                     Replayed(m, a + [c], Always(now)), now)
  {
    hide ApplyTo, Replayed;
    var clock := Always(now);
    var mw, ma := Replayed(m, w, clock), Replayed(m, a, clock);
    ReplayedSnoc(m, w, c, clock);
    ReplayedSnoc(m, a, c, clock);
    ApplySame(mw, ma, c, now);
    if doubled {
      assert w + [c, c] == (w + [c]) + [c];
      ReplayedSnoc(m, w + [c], c, clock);
      DoubledEntryHarmless(mw, c, now);
    }
  }
}
