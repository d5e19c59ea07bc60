/** One key, live against restored. Start-up reads the records of the log as their bytes say, the
    batch-filling ones twice, at its own times; the ledger of a key says what that makes of it. */
module Ledgers {
  import opened Bytes
  import opened Domain
  import opened Engine
  import opened AofCodec
  import opened Replay
  import Recovery
  import AofWriter

  // ---- one key -------------------------------------------------------------------

  /** What a look-up of the entry shows. */
  function Shown(e: Option<ValueEntry>, now: Instant): Option<Bytes> {
    if e.Some? && !e.value.IsExpiredAt(now) then Some(e.value.data) else None
  }

  function View(m: Store, k: Key, now: Instant): Option<Bytes> {
    Shown(EntryAt(m, k), now)
  }

  function IncrementedEntry(e: Option<ValueEntry>, now: Instant): Option<ValueEntry> {
    if Shown(e, now).None? then Some(NewEntry(ONE, now))
    else
      match ParseI64(e.value.data)
      case None => e
      case Some(v) => Some(e.value.(data := ItoaInt(WrapI64(v + 1))))
  }

  /** What a write does to the entry of `k`. */
  function KeyStep(e: Option<ValueEntry>, c: Command, k: Key, now: Instant): Option<ValueEntry> {
    match c
    case Set(j, v, ttl) => if j == k then Some(SetEntry(v, ttl, now)) else e
    case Del(j) => if j == k && Shown(e, now).Some? then None else e
    case Incr(j) => if j == k then IncrementedEntry(e, now) else e
    case Expire(j, s) =>
      if j != k then e
      else if Shown(e, now).Some? then Some(e.value.(expiresAt := Some(now + s * SECOND)))
      else None
    case FlushDb => None
    case Mset(ps) =>
      (match Recovery.PairEffect(ps, k)
       case Puts(v) => Some(NewEntry(v, now))
       case _ => e)
    case _ => e
  }

  lemma ApplyAt(m: Store, c: Command, now: Instant, k: Key)
    ensures EntryAt(ApplyTo(m, c, now), k) == KeyStep(EntryAt(m, k), c, k, now)
  {
    hide ParseI64, ItoaInt, WrapI64, IncrState, IncrementedEntry;
    match c {
      case Mset(ps) => AofWriter.PutAllAt(m, ps, now, k);
      case Incr(j) => IncrAt(m, j, now, k);
      case _ =>
    }
  }

  lemma IncrAt(m: Store, j: Key, now: Instant, k: Key)
    ensures
      EntryAt(IncrState(m, 0, j, [], now, now).0, k)
        == if j == k then IncrementedEntry(EntryAt(m, k), now) else EntryAt(m, k)
  {
    hide ParseI64, ItoaInt, WrapI64;
  }

  // ---- the fate of a key under a replay ------------------------------------------------

  /** What a list of records alone says of a key: absent, there without a deadline, or with one. */
  datatype Fate = Gone | Kept | Dated

  function FateStep(f: Fate, c: Command, k: Key): Fate {
    match c
    case Set(j, _, ttl) => if j != k then f else if ttl.None? then Kept else if ttl.value == 0 then Gone else Dated
    case Del(j) => if j == k then Gone else f
    case Incr(j) => if j == k && f.Gone? then Kept else f
    case Expire(j, s) => if j != k || f.Gone? then f else if s == 0 then Gone else Dated
    case FlushDb => Gone
    case Mset(ps) => if Recovery.PairEffect(ps, k).Puts? then Kept else f
    case _ => f
  }

  function FateOf(start: Fate, cs: seq<Command>, k: Key): Fate {
    if cs == [] then start else FateStep(FateOf(start, cs[..|cs| - 1], k), cs[|cs| - 1], k)
  }

  function FateIn(m: Store, k: Key): Fate {
    if k !in m then Gone else if m[k].expiresAt.None? then Kept else Dated
  }

  lemma FateSnoc(start: Fate, cs: seq<Command>, c: Command, k: Key)
    ensures FateOf(start, cs + [c], k) == FateStep(FateOf(start, cs, k), c, k)
  {
    hide FateStep;
    assert (cs + [c])[..|cs|] == cs;
  }

  /** What a replay at the single instant `t` makes of a fate. */
  predicate Instantly(f: Fate, e: Option<ValueEntry>, t: Instant) {
    match f
    case Gone => Shown(e, t).None?
    case Kept => e.Some? && e.value.expiresAt.None?
    case Dated => e.Some? && e.value.expiresAt.Some? && e.value.expiresAt.value > t
  }

  lemma InstantStep(f: Fate, e: Option<ValueEntry>, t: Instant, c: Command, k: Key)
    requires Instantly(f, e, t)
    ensures Instantly(FateStep(f, c, k), KeyStep(e, c, k, t), t)
  {
    hide ParseI64, ItoaInt, WrapI64, Recovery.PairEffect;
    if c.Expire? {
      assert c.seconds > 0 ==> c.seconds * SECOND > 0;
    }
  }

  lemma {:induction false} InstantRun(cs: seq<Command>, t: Instant, k: Key)
    ensures Instantly(FateOf(Gone, cs, k), EntryAt(Replayed(map[], cs, Always(t)), k), t)
    decreases |cs|
  {
    hide FateStep, ApplyTo, KeyStep;
    if cs != [] {
      var n := |cs| - 1;
      InstantRun(cs[..n], t, k);
      var m := Replayed(map[], cs[..n], Always(t));
      ApplyAt(m, cs[n], t, k);
      InstantStep(FateOf(Gone, cs[..n], k), EntryAt(m, k), t, cs[n], k);
    }
  }

  // ---- the ledger of a key -----------------------------------------------------------

  /** A logged write, when it was dispatched and whether it succeeded. */
  datatype Note = Note(command: Command, at: Instant, ok: bool)

  /** What the log says of a key, live against restored.
      - Nothing: absent on both sides.
      - Even: permanent on both sides; the restored counter is ahead by `drift`.
      - Fading: set with a TTL that its record does not keep. It is live until `due`, restored for
        good, and `number` is the restored counter, if it is one.
      - Apart: a live counter against a restored value that is not a number.
      - Lapsing: restored with a deadline. */
  datatype Ledger =
    | Nothing
    | Even(drift: int)
    | Fading(due: Instant, drift: int, number: Option<int>)
    | Apart
    | Lapsing

  function LedgerIncr(l: Ledger, at: Instant, copies: nat): Ledger {
    match l
    case Nothing => Even(copies - 1)
    case Even(d) => Even(d + copies - 1)
    case Fading(due, d, n) =>
      if n.None? then (if at < due then l else Apart)
      else if at < due then Fading(due, d + copies - 1, Some(WrapI64(n.value + copies)))
      else Even(n.value + copies - 1)
    case Apart => Apart
    case Lapsing => Lapsing
  }

  function LedgerSet(v: Bytes, ttl: Option<Duration>, at: Instant): Ledger {
    if TtlBack(ttl).Some? then Lapsing
    else if ttl.None? then Even(0)
    else Fading(at + ttl.value, 0, ParseI64(v))
  }

  /** One more logged write, with one copy or two in the file. */
  function LedgerStep(l: Ledger, x: Note, double: bool, k: Key): Ledger {
    match x.command
    case Set(j, v, ttl) => if j == k then LedgerSet(v, ttl, x.at) else l
    case Del(j) => if j == k then Nothing else l
    case Incr(j) => if j == k && x.ok then LedgerIncr(l, x.at, if double then 2 else 1) else l
    case Expire(j, s) => if j != k || l.Nothing? then l else if s == 0 then Nothing else Lapsing
    case FlushDb => Nothing
    case Mset(ps) => if Recovery.PairEffect(ps, k).Puts? then Even(0) else l
    case _ => l
  }

  function LedgerOf(start: Ledger, notes: seq<Note>, twice: seq<bool>, k: Key): Ledger
    requires |notes| == |twice|
  {
    if notes == [] then start
    else
      var n := |notes| - 1;
      LedgerStep(LedgerOf(start, notes[..n], twice[..n], k), notes[n], twice[n], k)
  }

  function LedgerIn(m: Store, k: Key): Ledger {
    if k !in m then Nothing else if m[k].expiresAt.None? then Even(0) else Lapsing
  }

  /** The ledgers under which a restart shows what was live at `now`. */
  predicate Safe(l: Ledger, now: Instant) {
    match l
    case Nothing => true
    case Even(d) => d % TWO64 == 0
    case Fading(due, d, _) => now < due && d % TWO64 == 0
    case Apart => false
    case Lapsing => false
  }

  function Kind(l: Ledger): Fate {
    match l
    case Nothing => Gone
    case Lapsing => Dated
    case _ => Kept
  }

  // ---- live against restored -----------------------------------------------------------

  predicate Perm(e: Option<ValueEntry>) {
    e.Some? && e.value.expiresAt.None?
  }

  /** The text that `itoa` writes for an integer. */
  predicate Canon(p: Bytes) {
    ParseI64(p).Some? && p == ItoaInt(ParseI64(p).value)
  }

  /** The same bytes, or two counters of which `q` is ahead by `drift` in 64-bit arithmetic. */
  predicate Drifted(p: Bytes, q: Bytes, drift: int) {
    || (drift == 0 && p == q)
    || (Canon(p) && q == ItoaInt(WrapI64(ParseI64(p).value + drift)))
  }

  lemma DriftShows(p: Bytes, q: Bytes, drift: int)
    requires Drifted(p, q, drift)
    ensures p == q <==> drift % TWO64 == 0
  {
    if Canon(p) {
      var x := ParseI64(p).value;
      var y := WrapI64(x + drift);
      ParseI64ItoaInt(x);
      ParseI64ItoaInt(y);
      WrapSame(x, drift);
      hide ParseI64, ItoaInt;
    }
  }

  lemma WrapSame(x: int, d: int)
    requires -TWO63 <= x < TWO63
    ensures WrapI64(x + d) == x <==> d % TWO64 == 0
  {
    var q, r := d / TWO64, d % TWO64;
    WrapShift(x + r, q);
    assert x + d == x + r + q * TWO64;
  }

  /** Both counters go up, the restored one by the number of copies. */
  lemma DriftIncr(p: Bytes, q: Bytes, drift: int, copies: nat)
    requires Drifted(p, q, drift) && ParseI64(p).Some? && 1 <= copies <= 2
    ensures ParseI64(q).Some?
    ensures
      var x, y := ParseI64(p).value, ParseI64(q).value;
      Drifted(ItoaInt(WrapI64(x + 1)), ItoaInt(WrapI64(y + copies)), drift + copies - 1)
  {
    hide ParseI64, ItoaInt, WrapI64;
    var x := ParseI64(p).value;
    ParseI64ItoaInt(WrapI64(x + drift));
    ParseI64ItoaInt(WrapI64(x + 1));
    WrapAdd(x + drift, copies);
    WrapAdd(x + 1, drift + copies - 1);
    assert x + drift + copies == x + 1 + (drift + copies - 1);
    assert ParseI64(q) == Some(x) || ParseI64(q) == Some(WrapI64(x + drift));
    assert drift == 0 && p == q ==> x + copies == x + drift + copies;
  }

  lemma WrapAdd(a: int, b: int)
    ensures WrapI64(WrapI64(a) + b) == WrapI64(a + b)
  {
    var j := (a + TWO63) / TWO64;
    assert a == WrapI64(a) + j * TWO64;
    WrapShift(WrapI64(a) + b, j);
    assert a + b == (WrapI64(a) + b) + j * TWO64;
  }

  /** The live entry at `t` and the restored one at `u` are as the ledger says. */
  predicate Agree(l: Ledger, a: Option<ValueEntry>, t: Instant, b: Option<ValueEntry>, u: Instant) {
    match l
    case Nothing => Shown(a, t).None? && Shown(b, u).None?
    case Even(d) => Perm(a) && Perm(b) && Drifted(a.value.data, b.value.data, d)
    case Fading(due, d, n) =>
      && Perm(b) && n == ParseI64(b.value.data)
      && (if t < due then a.Some? && a.value.expiresAt == Some(due) && Drifted(a.value.data, b.value.data, d)
          else Shown(a, t).None?)
    case Apart => Perm(a) && Perm(b) && Canon(a.value.data) && ParseI64(b.value.data).None?
    case Lapsing => true
  }

  lemma AgreeLater(l: Ledger, a: Option<ValueEntry>, t: Instant, b: Option<ValueEntry>, u: Instant, t': Instant, u': Instant)
    requires Agree(l, a, t, b, u) && t <= t' && u <= u'
    ensures Agree(l, a, t', b, u')
  {
    hide Drifted, Canon;
  }

  /** Exactly the safe ledgers show the live value, now and at any later time. */
  lemma SafeShows(l: Ledger, a: Option<ValueEntry>, t: Instant, b: Option<ValueEntry>, u: Instant)
    requires Agree(l, a, t, b, u) && !l.Lapsing?
    ensures Shown(b, u) == Shown(a, t) <==> Safe(l, t)
  {
    hide Drifted, ParseI64, ItoaInt;
    if (l.Even? || (l.Fading? && t < l.due)) {
      DriftShows(a.value.data, b.value.data, l.drift);
    }
  }

  // ---- one logged write -------------------------------------------------------------------

  /** The restored entry after the copies of a record, the last of them read at `u`. */
  function Restore(b: Option<ValueEntry>, c: Command, k: Key, first: Instant, u: Instant, double: bool): Option<ValueEntry> {
    var r := ReadBack(c);
    if double then KeyStep(KeyStep(b, r, k, first), r, k, u) else KeyStep(b, r, k, u)
  }

  /** What the outcome of a write says of the live entry: an INCR succeeds on an absent key or an
      integer, and nothing else fails. */
  predicate Plausible(x: Note, k: Key, a: Option<ValueEntry>) {
    && (x.ok && x.command == Incr(k) ==> Shown(a, x.at).None? || ParseI64(a.value.data).Some?)
    && (!x.ok ==> x.command.Incr?)
    && (!x.ok && x.command == Incr(k) ==> Shown(a, x.at).Some? && ParseI64(a.value.data).None?)
  }

  /** The live entry after the write; a failed one changes nothing. */
  function Lived(a: Option<ValueEntry>, x: Note, k: Key): Option<ValueEntry> {
    if x.ok then KeyStep(a, x.command, k, x.at) else a
  }

  lemma PermIncr(e: Option<ValueEntry>, now: Instant)
    requires Perm(e)
    ensures
      var r := IncrementedEntry(e, now);
      && Perm(r)
      && r.value.data == match ParseI64(e.value.data) { case Some(v) => ItoaInt(WrapI64(v + 1)) case None => e.value.data }
  {
    hide ParseI64, ItoaInt, WrapI64;
  }

  /** The restored counter after the copies of an INCR. */
  lemma RestoreIncr(b: Option<ValueEntry>, k: Key, first: Instant, u: Instant, double: bool)
    requires Perm(b)
    ensures
      var r := Restore(b, Incr(k), k, first, u, double);
      var copies := if double then 2 else 1;
      && Perm(r)
      && (ParseI64(b.value.data).None? ==> r.value.data == b.value.data)
      && (ParseI64(b.value.data).Some? ==>
            var y := WrapI64(ParseI64(b.value.data).value + copies);
            r.value.data == ItoaInt(y) && ParseI64(r.value.data) == Some(y))
  {
    hide ParseI64, ItoaInt, WrapI64, IncrementedEntry;
    PermIncr(b, first);
    PermIncr(b, u);
    PermIncr(IncrementedEntry(b, first), u);
    if ParseI64(b.value.data).Some? {
      var x := ParseI64(b.value.data).value;
      ParseI64ItoaInt(WrapI64(x + 1));
      ParseI64ItoaInt(WrapI64(x + 2));
      WrapAdd(x + 1, 1);
    }
  }

  /** INCR on a key that is absent on both sides. */
  lemma RestoreFirst(b: Option<ValueEntry>, k: Key, first: Instant, u: Instant, double: bool)
    requires Shown(b, first).None? && first <= u
    ensures
      var r := Restore(b, Incr(k), k, first, u, double);
      Perm(r) && r.value.data == ItoaInt(if double then 2 else 1)
  {
    hide ParseI64, ItoaInt, IncrementedEntry;
    OneIsOne();
    IncrFresh(b, first);
    IncrFresh(b, u);
    PermIncr(IncrementedEntry(b, first), u);
  }

  lemma IncrFresh(b: Option<ValueEntry>, now: Instant)
    requires Shown(b, now).None?
    ensures IncrementedEntry(b, now) == Some(NewEntry(ONE, now))
  {
  }

  lemma CountsFrom(n: int, copies: nat)
    requires -TWO63 <= n < TWO63 && 1 <= copies <= 2
    ensures Drifted(ONE, ItoaInt(WrapI64(n + copies)), n + copies - 1)
    ensures Canon(ONE)
  {
    hide ParseI64, ItoaInt, WrapI64;
    OneIsOne();
    assert 1 + (n + copies - 1) == n + copies;
  }

  lemma OneIsOne()
    ensures ItoaInt(1) == ONE && ParseI64(ONE) == Some(1)
  {
    assert Itoa(1) == ONE;
    ParseI64ItoaInt(1);
  }

  lemma IncrAgrees(l: Ledger, a: Option<ValueEntry>, x: Note, b: Option<ValueEntry>, first: Instant, u: Instant, double: bool, k: Key)
    requires Agree(l, a, x.at, b, first) && first <= u && x.command == Incr(k) && x.ok && Plausible(x, k, a)
    ensures Agree(LedgerStep(l, x, double, k), Lived(a, x, k), x.at, Restore(b, Incr(k), k, first, u, double), u)
  {
    hide ParseI64, ItoaInt, WrapI64, IncrementedEntry, Restore, Drifted, Canon;
    var copies := if double then 2 else 1;
    if Shown(a, x.at).None? {
      IncrFresh(a, x.at);
      CountsFrom(0, copies);
      match l {
        case Nothing =>
          RestoreFirst(b, k, first, u, double);
          SmallWrap();
        case Fading(due, d, n) =>
          RestoreIncr(b, k, first, u, double);
          if n.Some? { CountsFrom(n.value, copies); }
        case Lapsing =>
      }
    } else {
      IncrLive(a, x.at);
      match l {
        case Even(d) =>
          RestoreIncr(b, k, first, u, double);
          DriftIncr(a.value.data, b.value.data, d, copies);
        case Fading(due, d, n) =>
          RestoreIncr(b, k, first, u, double);
          DriftIncr(a.value.data, b.value.data, d, copies);
        case Apart =>
          RestoreIncr(b, k, first, u, double);
          CanonNext(ParseI64(a.value.data).value);
        case Lapsing =>
      }
    }
  }

  lemma SmallWrap()
    ensures WrapI64(1) == 1 && WrapI64(2) == 2
  {
  }

  lemma CanonNext(x: int)
    ensures Canon(ItoaInt(WrapI64(x + 1)))
  {
    ParseI64ItoaInt(WrapI64(x + 1));
    hide ParseI64, ItoaInt, WrapI64;
  }

  lemma IncrLive(a: Option<ValueEntry>, now: Instant)
    requires Shown(a, now).Some? && ParseI64(a.value.data).Some?
    ensures IncrementedEntry(a, now) == Some(a.value.(data := ItoaInt(WrapI64(ParseI64(a.value.data).value + 1))))
  {
    hide ParseI64, ItoaInt, WrapI64;
  }

  /** A failed INCR is no more on replay than it was live. */
  lemma FailedAgrees(l: Ledger, a: Option<ValueEntry>, x: Note, b: Option<ValueEntry>, first: Instant, u: Instant, double: bool, k: Key)
    requires Agree(l, a, x.at, b, first) && first <= u && x.command == Incr(k) && !x.ok && Plausible(x, k, a)
    ensures Agree(l, a, x.at, Restore(b, Incr(k), k, first, u, double), u) && !l.Nothing?
  {
    hide ParseI64, ItoaInt, WrapI64, IncrementedEntry, Restore;
    if Perm(b) {
      RestoreIncr(b, k, first, u, double);
    }
  }

  lemma SetAgrees(a: Option<ValueEntry>, v: Bytes, ttl: Option<Duration>, at: Instant, b: Option<ValueEntry>,
                  first: Instant, u: Instant, double: bool, k: Key)
    ensures
      var c := Set(k, v, ttl);
      Agree(LedgerSet(v, ttl, at), KeyStep(a, c, k, at), at, Restore(b, c, k, first, u, double), u)
  {
    hide ParseI64, ItoaInt, TtlBack;
  }

  /** Writes after which the entry is not shown: on both sides, whatever was there. */
  lemma DropAgrees(a: Option<ValueEntry>, c: Command, at: Instant, b: Option<ValueEntry>,
                   first: Instant, u: Instant, double: bool, k: Key)
    requires c == Del(k) || c == Expire(k, 0) || c == FlushDb
    ensures Agree(Nothing, KeyStep(a, c, k, at), at, Restore(b, c, k, first, u, double), u)
  {
    NotShown(a, c, at, k);
    NotShown(b, c, u, k);
    NotShown(KeyStep(b, c, k, first), c, u, k);
    hide KeyStep, Shown;
  }

  lemma NotShown(e: Option<ValueEntry>, c: Command, now: Instant, k: Key)
    requires c == Del(k) || c == Expire(k, 0) || c == FlushDb
    ensures Shown(KeyStep(e, c, k, now), now).None?
  {
    if c.Expire? {
      assert now + 0 * SECOND == now;
    }
  }

  lemma ExpireNothing(e: Option<ValueEntry>, s: nat, now: Instant, k: Key)
    requires Shown(e, now).None?
    ensures KeyStep(e, Expire(k, s), k, now) == None
  {
  }

  lemma ExpireAgrees(l: Ledger, a: Option<ValueEntry>, x: Note, b: Option<ValueEntry>, first: Instant, u: Instant, double: bool, k: Key)
    requires Agree(l, a, x.at, b, first) && first <= u && x.command.Expire? && x.command.key == k
    ensures Agree(LedgerStep(l, x, double, k), KeyStep(a, x.command, k, x.at), x.at, Restore(b, x.command, k, first, u, double), u)
  {
    hide KeyStep, Drifted, Canon, ParseI64;
    if l.Nothing? {
      ExpireNothing(a, x.command.seconds, x.at, k);
      ExpireNothing(b, x.command.seconds, first, k);
      ExpireNothing(b, x.command.seconds, u, k);
      ExpireNothing(None, x.command.seconds, u, k);
    } else if x.command.seconds == 0 {
      DropAgrees(a, x.command, x.at, b, first, u, double, k);
    }
  }

  lemma MsetAgrees(l: Ledger, a: Option<ValueEntry>, x: Note, b: Option<ValueEntry>, first: Instant, u: Instant, double: bool, k: Key)
    requires Agree(l, a, x.at, b, first) && first <= u && x.command.Mset?
    ensures Agree(LedgerStep(l, x, double, k), KeyStep(a, x.command, k, x.at), x.at, Restore(b, x.command, k, first, u, double), u)
  {
    hide Recovery.PairEffect, Canon;
    AgreeLater(l, a, x.at, b, first, x.at, u);
    if !Recovery.PairEffect(x.command.pairs, k).Puts? {
      hide Agree;
    }
  }

  /** Commands that do not touch the entry of `k`. */
  predicate Spares(c: Command, k: Key) {
    match c
    case Set(j, _, _) => j != k
    case Del(j) => j != k
    case Incr(j) => j != k
    case Expire(j, _) => j != k
    case FlushDb => false
    case Mset(_) => false
    case _ => true
  }

  lemma SparedAgrees(l: Ledger, a: Option<ValueEntry>, x: Note, b: Option<ValueEntry>, first: Instant, u: Instant, double: bool, k: Key)
    requires Agree(l, a, x.at, b, first) && first <= u && Spares(x.command, k)
    ensures Agree(LedgerStep(l, x, double, k), KeyStep(a, x.command, k, x.at), x.at, Restore(b, x.command, k, first, u, double), u)
    ensures KeyStep(a, x.command, k, x.at) == a
  {
    AgreeLater(l, a, x.at, b, first, x.at, u);
    hide Agree;
  }

  /** Every logged write keeps live and restored entry as the ledger says. */
  lemma NoteAgrees(l: Ledger, a: Option<ValueEntry>, x: Note, b: Option<ValueEntry>, first: Instant, u: Instant, double: bool, k: Key)
    requires Agree(l, a, x.at, b, first) && first <= u && Plausible(x, k, a)
    ensures Agree(LedgerStep(l, x, double, k), Lived(a, x, k), x.at, Restore(b, x.command, k, first, u, double), u)
  {
    hide Agree, Restore, LedgerSet, LedgerIncr, ParseI64;
    if Spares(x.command, k) {
      SparedAgrees(l, a, x, b, first, u, double, k);
    } else {
      match x.command {
        case Incr(_) =>
          if x.ok {
            IncrAgrees(l, a, x, b, first, u, double, k);
          } else {
            FailedAgrees(l, a, x, b, first, u, double, k);
          }
        case Set(_, v, ttl) => SetAgrees(a, v, ttl, x.at, b, first, u, double, k);
        case Del(_) => DropAgrees(a, x.command, x.at, b, first, u, double, k);
        case FlushDb => DropAgrees(a, x.command, x.at, b, first, u, double, k);
        case Expire(_, _) => ExpireAgrees(l, a, x, b, first, u, double, k);
        case Mset(_) => MsetAgrees(l, a, x, b, first, u, double, k);
      }
    }
  }

  /** The ledger's kind is the fate of the records. */
  lemma NoteKind(l: Ledger, x: Note, double: bool, k: Key)
    requires !x.ok && x.command == Incr(k) ==> !l.Nothing?
    requires !x.ok ==> x.command.Incr?
    ensures
      var r := ReadBack(x.command);
      var once := FateStep(Kind(l), r, k);
      Kind(LedgerStep(l, x, double, k)) == if double then FateStep(once, r, k) else once
  {
    hide ParseI64, WrapI64, Recovery.PairEffect;
    if x.command.Set? {
      TtlBackPositive(x.command.ttl);
    }
    hide TtlBack;
  }

  // ---- reading a ledger ------------------------------------------------------------------

  /** How many INCRs of `k` were written twice. */
  function DoubledIncrs(notes: seq<Note>, twice: seq<bool>, k: Key): nat
    requires |notes| == |twice|
  {
    if notes == [] then 0
    else
      var n := |notes| - 1;
      DoubledIncrs(notes[..n], twice[..n], k) + (if twice[n] && notes[n].ok && notes[n].command == Incr(k) then 1 else 0)
  }

  /** While a key is only counted, its drift grows by the INCRs that filled a batch: nothing else
      makes a restart of a plainly set key unsafe. */
  lemma {:induction false} DriftIsDoubles(drift: int, notes: seq<Note>, twice: seq<bool>, k: Key)
    requires |notes| == |twice|
    requires forall i :: 0 <= i < |notes| ==> notes[i].command == Incr(k) || Spares(notes[i].command, k)
    ensures LedgerOf(Even(drift), notes, twice, k) == Even(drift + DoubledIncrs(notes, twice, k))
    decreases |notes|
  {
    hide TtlBack, Recovery.PairEffect;
    if notes != [] {
      var n := |notes| - 1;
      DriftIsDoubles(drift, notes[..n], twice[..n], k);
      assert notes[n].command == Incr(k) || Spares(notes[n].command, k);
    }
  }
}
