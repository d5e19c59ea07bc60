/** A restart from the file that the log writer produces, with its doubled records, which the
    code replays at start-up time: relative TTLs start again and doubled INCRs count twice. */
module Restart {
  import opened Bytes
  import opened Domain
  import opened Engine
  import opened AofCodec
  import opened Replay
  import Snapshot
  import Recovery
  import AofWriter
  import opened Dispatcher
  import opened Ledgers

  // ---- the dispatcher, key by key -------------------------------------------------------

  lemma ReadAt(m: Store, c: Command, now: Instant, scan: (nat, Store) -> seq<Key>, info: Bytes, k: Key)
    requires !IsWrite(c)
    ensures
      var e := EntryAt(DispatchState(m, 0, c, AtOnce(now, scan, info)).0, k);
      e == EntryAt(m, k) || (e.None? && Shown(EntryAt(m, k), now).None?)
  {
    hide LiveKeys, TtlAnswer, Lookup;
  }

  /** On an unlimited engine only an INCR of a live value can fail, and it changes nothing. */
  lemma FailedWrite(m: Store, c: Command, now: Instant, scan: (nat, Store) -> seq<Key>, info: Bytes)
    requires IsWrite(c) && DispatchState(m, 0, c, AtOnce(now, scan, info)).1.Error?
    ensures DispatchState(m, 0, c, AtOnce(now, scan, info)).0 == m
    ensures c.Incr? && LiveAt(m, c.key, now)
  {
    WriteIsReplay(m, c, now, scan, info);
    match c {
      case Mset(ps) => MsetIsPutAll(m, ps, now, scan, info);
      case Incr(k) =>
        IncrNeverFull(m, k, scan(0, m), now);
      case _ =>
    }
  }

  lemma IncrNeverFull(m: Store, k: Key, order: seq<Key>, now: Instant)
    ensures !LiveAt(m, k, now) ==> IncrState(m, 0, k, order, now, now).1.Done?
  {
    hide ParseI64, ItoaInt;
  }

  // ---- runs ------------------------------------------------------------------------------

  type Scan = (nat, Store) -> seq<Key>

  /** What a session logs: the writes, and with `all` also the failed ones, as the inline loop
      does. */
  function Trail(m: Store, run: seq<Timed>, all: bool, scan: Scan, info: Bytes): seq<Note> {
    if run == [] then []
    else
      var n := |run| - 1;
      Trail(m, run[..n], all, scan, info) + NoteOf(Served(m, run[..n], scan, info), run[n], all, scan, info)
  }

  function NoteOf(live: Store, x: Timed, all: bool, scan: Scan, info: Bytes): seq<Note> {
    var ok := !DispatchState(live, 0, x.command, AtOnce(x.at, scan, info)).1.Error?;
    if IsWrite(x.command) && (ok || all) then [Note(x.command, x.at, ok)] else []
  }

  function CommandsIn(notes: seq<Note>): (cs: seq<Command>)
    ensures |cs| == |notes| && forall i :: 0 <= i < |notes| ==> cs[i] == notes[i].command
  {
    seq(|notes|, i requires 0 <= i < |notes| => notes[i].command)
  }

  /** The records that start-up reads: each as its bytes say, the doubled ones twice. */
  function Records(notes: seq<Note>, twice: seq<bool>): seq<Command>
    requires |notes| == |twice|
  {
    ReadBacks(AofWriter.Spread(CommandsIn(notes), twice))
  }

  lemma RecordsSnoc(notes: seq<Note>, twice: seq<bool>, x: Note, double: bool)
    requires |notes| == |twice|
    ensures
      var r := ReadBack(x.command);
      Records(notes + [x], twice + [double]) == Records(notes, twice) + (if double then [r, r] else [r])
  {
    hide ReadBack;
    AofWriter.SpreadSnoc(CommandsIn(notes), twice, x.command, double);
    assert CommandsIn(notes + [x]) == CommandsIn(notes) + [x.command];
  }

  lemma LedgerSnoc(start: Ledger, notes: seq<Note>, twice: seq<bool>, x: Note, double: bool, k: Key)
    requires |notes| == |twice|
    ensures LedgerOf(start, notes + [x], twice + [double], k) == LedgerStep(LedgerOf(start, notes, twice, k), x, double, k)
  {
    hide LedgerStep;
    assert (notes + [x])[..|notes|] == notes && (twice + [double])[..|notes|] == twice;
  }

  /** A clock that does not run backwards. */
  ghost predicate Forward(clock: Clock) {
    forall i: nat, j: nat :: i <= j ==> clock(i) <= clock(j)
  }

  /** The last reading of a replay of `n` records. */
  function Ended(clock: Clock, n: nat): Instant {
    if n == 0 then clock(0) else clock(n - 1)
  }

  lemma ForwardAlways(t: Instant)
    ensures Forward(Always(t))
  {
  }

  /** A look-up that drops an expired entry changes nothing in the agreement. */
  lemma ReadAgrees(l: Ledger, a: Option<ValueEntry>, a': Option<ValueEntry>, t: Instant, b: Option<ValueEntry>, u: Instant)
    requires Agree(l, a, t, b, u) && (a' == a || (a'.None? && Shown(a, t).None?))
    ensures Agree(l, a', t, b, u)
  {
    hide Drifted, Canon, ParseI64;
  }

  lemma Outcome(m: Store, x: Timed, scan: Scan, info: Bytes, k: Key)
    requires IsWrite(x.command)
    ensures
      var (m', r) := DispatchState(m, 0, x.command, AtOnce(x.at, scan, info));
      var note := Note(x.command, x.at, !r.Error?);
      && Plausible(note, k, EntryAt(m, k))
      && EntryAt(m', k) == Lived(EntryAt(m, k), note, k)
  {
    hide ApplyTo, KeyStep, ParseI64;
    var (m', r) := DispatchState(m, 0, x.command, AtOnce(x.at, scan, info));
    WriteIsReplay(m, x.command, x.at, scan, info);
    ApplyAt(m, x.command, x.at, k);
    if r.Error? {
      FailedWrite(m, x.command, x.at, scan, info);
    }
    if x.command == Incr(k) {
      IncrOutcome(m, k, x.at, scan, info);
    }
    hide DispatchState, AtOnce;
  }

  lemma IncrOutcome(m: Store, k: Key, now: Instant, scan: Scan, info: Bytes)
    ensures
      var r := DispatchState(m, 0, Incr(k), AtOnce(now, scan, info)).1;
      LiveAt(m, k, now) ==> (r.Error? <==> ParseI64(m[k].data).None?)
  {
    hide IncrState, ParseI64, Describe;
    IncrFaults(m, 0, k, scan(0, m), now, now);
  }

  /** The restored entry after the copies of one more record. */
  lemma ReplayCopies(base: Store, rs: seq<Command>, c: Command, double: bool, clock: Clock, k: Key)
    requires Forward(clock)
    ensures
      var r := ReadBack(c);
      var rs' := rs + (if double then [r, r] else [r]);
      && EntryAt(Replayed(base, rs', clock), k)
           == Restore(EntryAt(Replayed(base, rs, clock), k), c, k, clock(|rs|), Ended(clock, |rs'|), double)
      && Ended(clock, |rs|) <= clock(|rs|) <= Ended(clock, |rs'|)
  {
    hide ApplyTo, Replayed, KeyStep, ReadBack;
    var r := ReadBack(c);
    ReplayedSnoc(base, rs, r, clock);
    ApplyAt(Replayed(base, rs, clock), r, clock(|rs|), k);
    if double {
      ReplayedSnoc(base, rs + [r], r, clock);
      ApplyAt(Replayed(base, rs + [r], clock), r, clock(|rs| + 1), k);
      assert (rs + [r]) + [r] == rs + [r, r];
    }
  }

  lemma FateCopies(start: Fate, rs: seq<Command>, c: Command, double: bool, k: Key)
    ensures
      var r := ReadBack(c);
      var once := FateStep(FateOf(start, rs, k), r, k);
      FateOf(start, rs + (if double then [r, r] else [r]), k) == if double then FateStep(once, r, k) else once
  {
    hide FateStep, ReadBack;
    var r := ReadBack(c);
    FateSnoc(start, rs, r, k);
    if double {
      FateSnoc(start, rs + [r], r, k);
      assert (rs + [r]) + [r] == rs + [r, r];
    }
  }

  /** Live and restored side of one key after a run. */
  predicate Matches(m: Store, live: Store, t: Instant, notes: seq<Note>, twice: seq<bool>, clock: Clock, k: Key)
    requires |notes| == |twice|
  {
    var l, rs := LedgerOf(LedgerIn(m, k), notes, twice, k), Records(notes, twice);
    && Agree(l, EntryAt(live, k), t, EntryAt(Replayed(m, rs, clock), k), Ended(clock, |rs|))
    && Kind(l) == FateOf(FateIn(m, k), rs, k)
  }

  lemma MatchesNone(m: Store, clock: Clock, k: Key)
    ensures Matches(m, m, 0, [], [], clock, k)
  {
    ReplayedNil(m, clock);
    assert Records([], []) == [];
  }

  lemma MatchesRead(m: Store, live: Store, t: Instant, notes: seq<Note>, twice: seq<bool>, clock: Clock, k: Key, live': Store, t': Instant)
    requires |notes| == |twice| && Matches(m, live, t, notes, twice, clock, k) && t <= t'
    requires
      var a, a' := EntryAt(live, k), EntryAt(live', k);
      a' == a || (a'.None? && Shown(a, t').None?)
    ensures Matches(m, live', t', notes, twice, clock, k)
  {
    hide LedgerOf, Records, Replayed, Agree, FateOf, Ended, Shown;
    var l, rs := LedgerOf(LedgerIn(m, k), notes, twice, k), Records(notes, twice);
    var b, u := EntryAt(Replayed(m, rs, clock), k), Ended(clock, |rs|);
    AgreeLater(l, EntryAt(live, k), t, b, u, t', u);
    ReadAgrees(l, EntryAt(live, k), EntryAt(live', k), t', b, u);
  }

  lemma MatchesNote(m: Store, live: Store, t: Instant, notes: seq<Note>, twice: seq<bool>, clock: Clock, k: Key,
                    x: Note, double: bool, live': Store)
    requires |notes| == |twice| && Matches(m, live, t, notes, twice, clock, k) && t <= x.at && Forward(clock)
    requires Plausible(x, k, EntryAt(live, k)) && EntryAt(live', k) == Lived(EntryAt(live, k), x, k)
    ensures Matches(m, live', x.at, notes + [x], twice + [double], clock, k)
  {
    hide LedgerOf, Records, Replayed, Agree, FateOf, Ended, LedgerStep, FateStep, Restore, Plausible, Lived, ReadBack, Forward;
    var l, rs := LedgerOf(LedgerIn(m, k), notes, twice, k), Records(notes, twice);
    var a, b, u := EntryAt(live, k), EntryAt(Replayed(m, rs, clock), k), Ended(clock, |rs|);
    RecordsSnoc(notes, twice, x, double);
    LedgerSnoc(LedgerIn(m, k), notes, twice, x, double, k);
    ReplayCopies(m, rs, x.command, double, clock, k);
    FateCopies(FateIn(m, k), rs, x.command, double, k);
    AgreeLater(l, a, t, b, u, x.at, clock(|rs|));
    var rs' := Records(notes + [x], twice + [double]);
    NoteAgrees(l, a, x, b, clock(|rs|), Ended(clock, |rs'|), double, k);
    FailsOnSomething(l, a, x, b, clock(|rs|), k);
    NoteKind(l, x, double, k);
  }

  lemma FailsOnSomething(l: Ledger, a: Option<ValueEntry>, x: Note, b: Option<ValueEntry>, u: Instant, k: Key)
    requires Agree(l, a, x.at, b, u) && Plausible(x, k, a)
    ensures !x.ok && x.command == Incr(k) ==> !l.Nothing?
    ensures !x.ok ==> x.command.Incr?
  {
    hide ParseI64, Drifted, Canon;
  }

  /** Over every run of all commands, for every file and every start-up clock, live and restored
      entry of each key are as its ledger says. */
  lemma {:induction false} Follows(m: Store, run: seq<Timed>, all: bool, twice: seq<bool>, clock: Clock, scan: Scan, info: Bytes, k: Key)
    requires Ordered(run) && Forward(clock) && |twice| == |Trail(m, run, all, scan, info)|
    ensures Matches(m, Served(m, run, scan, info), LastTime(run), Trail(m, run, all, scan, info), twice, clock, k)
    decreases |run|
  {
    hide Matches, DispatchState, AtOnce, Forward;
    if run == [] {
      MatchesNone(m, clock, k);
      assert twice == [];
    } else {
      var n := |run| - 1;
      var before, x := run[..n], run[n];
      var live, notes := Served(m, before, scan, info), Trail(m, before, all, scan, info);
      var (live', r) := DispatchState(live, 0, x.command, AtOnce(x.at, scan, info));
      Follows(m, before, all, twice[..|notes|], clock, scan, info, k);
      if IsWrite(x.command) {
        Outcome(live, x, scan, info, k);
        if !r.Error? || all {
          var note := Note(x.command, x.at, !r.Error?);
          MatchesNote(m, live, LastTime(before), notes, twice[..|notes|], clock, k, note, twice[|notes|], live');
          assert twice == twice[..|notes|] + [twice[|notes|]];
        } else {
          MatchesRead(m, live, LastTime(before), notes, twice[..|notes|], clock, k, live', x.at);
          assert notes + [] == notes && twice[..|notes|] == twice;
        }
      } else {
        ReadAt(live, x.command, x.at, scan, info, k);
        MatchesRead(m, live, LastTime(before), notes, twice[..|notes|], clock, k, live', x.at);
        assert notes + [] == notes && twice[..|notes|] == twice;
      }
    }
  }

  // ---- the file and the restart ---------------------------------------------------------

  /** The writer was used to append exactly the logged writes, with flushes at will. */
  predicate WritesLog(uses: seq<AofWriter.Use>, notes: seq<Note>) {
    AofWriter.AllWrites(uses) && AofWriter.Appended(uses) == CommandsIn(notes)
  }

  /** The file that the writer leaves after a last flush. */
  function FileOf(uses: seq<AofWriter.Use>): Bytes
    requires AofWriter.AllWrites(uses)
  {
    AofWriter.WrittenRecords(uses);
    Log(AofWriter.Written(uses))
  }

  /** Start-up reads the logged writes as their bytes say, the batch-filling ones twice. */
  lemma FileReads(uses: seq<AofWriter.Use>, notes: seq<Note>)
    requires WritesLog(uses, notes) && AllFit(CommandsIn(notes))
    ensures |AofWriter.Doubles(uses)| == |notes|
    ensures ReadLog(FileOf(uses), 0) == Records(notes, AofWriter.Doubles(uses))
  {
    hide Log, ReadLog, Fits, AofWriter.Written, AofWriter.Spread, AofWriter.Doubles, ReadBacks;
    AofWriter.WrittenIsSpread(uses);
    AofWriter.SpreadFits(CommandsIn(notes), AofWriter.Doubles(uses));
    LogAsRead(AofWriter.Written(uses));
  }

  /** The ledger of `k` after a run whose log was written by `uses`. */
  function Book(m: Store, notes: seq<Note>, uses: seq<AofWriter.Use>, k: Key): Ledger
    requires WritesLog(uses, notes)
  {
    AofWriter.WrittenIsSpread(uses);
    LedgerOf(LedgerIn(m, k), notes, AofWriter.Doubles(uses), k)
  }

  /** The live value is restored, at whatever time the server starts and is asked, for every key
      with a safe ledger: over every run of all commands, failed ones included, whatever happens
      to other keys, and from the file as it is written. */
  lemma RestartKeeps(m: Store, run: seq<Timed>, all: bool, uses: seq<AofWriter.Use>, clock: Clock, u: Instant,
                     scan: Scan, info: Bytes, k: Key)
    requires Ordered(run) && Forward(clock)
    requires
      var notes := Trail(m, run, all, scan, info);
      WritesLog(uses, notes) && AllFit(CommandsIn(notes)) && Safe(Book(m, notes, uses, k), LastTime(run))
    requires Ended(clock, |ReadLog(FileOf(uses), 0)|) <= u
    ensures View(Replayed(m, ReadLog(FileOf(uses), 0), clock), k, u) == View(Served(m, run, scan, info), k, LastTime(run))
  {
    hide Trail, Served, Fits, Replayed, ReadLog, FileOf, LedgerOf, Records, Ended, Agree, Forward, FateOf, Kind, Shown, Safe, AofWriter.Doubles;
    var notes, twice := Trail(m, run, all, scan, info), AofWriter.Doubles(uses);
    FileReads(uses, notes);
    Follows(m, run, all, twice, clock, scan, info, k);
    var l, rs, live := Book(m, notes, uses, k), Records(notes, twice), Served(m, run, scan, info);
    var a, b := EntryAt(live, k), EntryAt(Replayed(m, rs, clock), k);
    NotLapsing(l, LastTime(run));
    AgreeLater(l, a, LastTime(run), b, Ended(clock, |rs|), LastTime(run), u);
    SafeShows(l, a, LastTime(run), b, u);
  }

  lemma NotLapsing(l: Ledger, now: Instant)
    requires Safe(l, now)
    ensures !l.Lapsing?
  {
  }

  /** The value of `k` at `u` on a server that started at `t` from the log file alone. */
  function Restarted(file: Bytes, crc: Snapshot.Crc, t: Instant, k: Key, u: Instant): Option<Bytes> {
    View(Recovery.StartUpState(None, Some(file), crc, Always(t), Always(t)), k, u)
  }

  lemma RestartedIs(uses: seq<AofWriter.Use>, notes: seq<Note>, crc: Snapshot.Crc, t: Instant, k: Key, u: Instant)
    requires WritesLog(uses, notes) && AllFit(CommandsIn(notes))
    ensures |AofWriter.Doubles(uses)| == |notes|
    ensures Restarted(FileOf(uses), crc, t, k, u) == View(Replayed(map[], Records(notes, AofWriter.Doubles(uses)), Always(t)), k, u)
  {
    hide Fits, Replayed, ReadLog, FileOf, Records, View, AofWriter.Doubles;
    FileReads(uses, notes);
  }

  /** The exact condition, for a server that started empty: start-up from the file shows the live
      value of `k` at every start-up time and every time after, if and only if its ledger is
      safe. Since the key was last set plainly, deleted, flushed or expired at once by EXPIRE, that
      means: no deadline that its record keeps; no TTL that its record drops and that has run out,
      unless INCR has made a number of it again; and the restored counter ahead by zero modulo
      2^64, where each batch-filling INCR puts it ahead by one and a TTL that ran out by the count
      it had. */
  lemma RestartExact(run: seq<Timed>, all: bool, uses: seq<AofWriter.Use>, scan: Scan, info: Bytes, k: Key, crc: Snapshot.Crc)
    requires Ordered(run)
    requires
      var notes := Trail(map[], run, all, scan, info);
      WritesLog(uses, notes) && AllFit(CommandsIn(notes))
    ensures
      var notes := Trail(map[], run, all, scan, info);
      var live := View(Served(map[], run, scan, info), k, LastTime(run));
      (forall t: Instant, u: Instant :: t <= u ==> Restarted(FileOf(uses), crc, t, k, u) == live)
        <==> Safe(Book(map[], notes, uses, k), LastTime(run))
  {
    hide Trail, Served, Fits, FileOf, Restarted, Book, Safe;
    var notes := Trail(map[], run, all, scan, info);
    var file, l := FileOf(uses), Book(map[], notes, uses, k);
    var live := View(Served(map[], run, scan, info), k, LastTime(run));
    if Safe(l, LastTime(run)) {
      forall t: Instant, u: Instant | t <= u ensures Restarted(file, crc, t, k, u) == live {
        KeepsAt(run, all, uses, scan, info, k, crc, t, u);
      }
    } else {
      var u := LosesAt(run, all, uses, scan, info, k, crc);
    }
  }

  lemma KeepsAt(run: seq<Timed>, all: bool, uses: seq<AofWriter.Use>, scan: Scan, info: Bytes, k: Key, crc: Snapshot.Crc,
                t: Instant, u: Instant)
    requires Ordered(run) && t <= u
    requires
      var notes := Trail(map[], run, all, scan, info);
      WritesLog(uses, notes) && AllFit(CommandsIn(notes)) && Safe(Book(map[], notes, uses, k), LastTime(run))
    ensures Restarted(FileOf(uses), crc, t, k, u) == View(Served(map[], run, scan, info), k, LastTime(run))
  {
    hide Trail, Served, Fits, Replayed, ReadLog, FileOf, Book, Safe, View;
    ForwardAlways(t);
    RestartKeeps(map[], run, all, uses, Always(t), u, scan, info, k);
  }

  lemma LosesAt(run: seq<Timed>, all: bool, uses: seq<AofWriter.Use>, scan: Scan, info: Bytes, k: Key, crc: Snapshot.Crc) returns (u: Instant)
    requires Ordered(run)
    requires
      var notes := Trail(map[], run, all, scan, info);
      WritesLog(uses, notes) && AllFit(CommandsIn(notes)) && !Safe(Book(map[], notes, uses, k), LastTime(run))
    ensures Restarted(FileOf(uses), crc, 0, k, u) != View(Served(map[], run, scan, info), k, LastTime(run))
  {
    hide Trail, Served, Fits, Replayed, FileOf, LedgerOf, Records, Agree, FateOf, Safe, AofWriter.Doubles, Restarted, LedgerStep;
    var notes, twice := Trail(map[], run, all, scan, info), AofWriter.Doubles(uses);
    var live := EntryAt(Served(map[], run, scan, info), k);
    RestartedIs(uses, notes, crc, 0, k, 0);
    ForwardAlways(0);
    Follows(map[], run, all, twice, Always(0), scan, info, k);
    var l, rs := Book(map[], notes, uses, k), Records(notes, twice);
    var b := EntryAt(Replayed(map[], rs, Always(0)), k);
    if l.Lapsing? {
      InstantRun(rs, 0, k);
      u := if Shown(live, LastTime(run)).Some? then b.value.expiresAt.value else 0;
      RestartedIs(uses, notes, crc, 0, k, u);
    } else {
      u := 0;
      SafeShows(l, live, LastTime(run), b, 0);
    }
  }

  // ---- keys that are always safe ----------------------------------------------------------

  predicate GivesDeadline(c: Command, k: Key) {
    (c.Set? && c.key == k && c.ttl.Some?) || (c.Expire? && c.key == k)
  }

  /** A key that no SET with a TTL and no EXPIRE touches, and none of whose INCRs filled a batch,
      is safe. */
  lemma {:induction false} PlainlySafe(start: Ledger, notes: seq<Note>, twice: seq<bool>, k: Key, now: Instant)
    requires |notes| == |twice| && (start.Nothing? || start == Even(0))
    requires forall i :: 0 <= i < |notes| ==> !GivesDeadline(notes[i].command, k) && !(twice[i] && notes[i].command == Incr(k))
    ensures
      var l := LedgerOf(start, notes, twice, k);
      (l.Nothing? || l == Even(0)) && Safe(l, now)
    decreases |notes|
  {
    hide LedgerStep;
    if notes != [] {
      var n := |notes| - 1;
      PlainlySafe(start, notes[..n], twice[..n], k, now);
      assert !GivesDeadline(notes[n].command, k) && !(twice[n] && notes[n].command == Incr(k));
      PlainStep(LedgerOf(start, notes[..n], twice[..n], k), notes[n], twice[n], k);
    }
  }

  lemma PlainStep(l: Ledger, x: Note, double: bool, k: Key)
    requires (l.Nothing? || l == Even(0)) && !GivesDeadline(x.command, k) && !(double && x.command == Incr(k))
    ensures
      var r := LedgerStep(l, x, double, k);
      r.Nothing? || r == Even(0)
  {
    TtlBackPositive(None);
    hide TtlBack, Recovery.PairEffect, ParseI64;
  }
}
