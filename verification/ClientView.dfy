/** What a client sees: every reply of an unlimited server is a statement about the live
    entries alone, and every command changes the live entries as if expired ones did not exist. */
module ClientView {
  import opened Bytes
  import opened Domain
  import opened Engine
  import EngineRuns
  import AofCodec
  import AofWriter
  import opened Replay
  import opened Response
  import opened Dispatcher

  /** `s` is the remaining time in whole seconds. */
  predicate WholeSeconds(s: int, left: int) {
    s * SECOND <= left < (s + 1) * SECOND
  }

  /** A yes or no as 1 or 0. */
  predicate Tells(r: Response, yes: bool) {
    (yes ==> r == Integer(1)) && (!yes ==> r == Integer(0))
  }

  /** The meaning of a TTL reply. */
  predicate TtlMeans(seen: Store, k: Key, now: Instant, n: int) {
    if k !in seen then n == -2
    else match seen[k].expiresAt
      case None => n == -1
      case Some(t) => n >= 0 && WholeSeconds(n, t - now)
  }

  /** A KEYS reply lists exactly the keys seen, each once. */
  predicate Lists(items: seq<Option<Bytes>>, seen: Store) {
    && (forall i :: 0 <= i < |items| ==> items[i].Some? && items[i].value in seen)
    && (forall k :: k in seen ==> Some(k) in items)
    && (forall i, j :: 0 <= i < j < |items| ==> items[i] != items[j])
  }

  /** An INCR reply: one more than the integer seen, 1 for an absent key, an error otherwise. */
  predicate CountMeans(seen: Store, k: Key, r: Response) {
    if k !in seen then r == Integer(1)
    else match ParseI64(seen[k].data)
      case Some(v) => r == Integer(if v == TWO63 - 1 then -TWO63 else v + 1)
      case None => r.Error?
  }

  /** The meaning of a reply in terms of the live entries `seen` at `now`. */
  predicate Means(seen: Store, c: Command, now: Instant, r: Response) {
    match c
    case Ping => r == Pong
    case Get(k) => r == Value(if k in seen then Some(seen[k].data) else None)
    case Set(_, _, _) => r == Ok
    case Del(k) => Tells(r, k in seen)
    case Incr(k) => CountMeans(seen, k, r)
    case Info => r.Value? && r.data.Some?
    case DbSize => r.Integer?
    case Exists(k) => Tells(r, k in seen)
    case Ttl(k) => r.Integer? && TtlMeans(seen, k, now, r.n)
    case Expire(k, _) => Tells(r, k in seen)
    case FlushDb => r == Ok
    case Keys => r.Array? && Lists(r.items, seen)
    case Mget(ks) =>
      r.Array? && |r.items| == |ks| &&
      forall i :: 0 <= i < |ks| ==> r.items[i] == if ks[i] in seen then Some(seen[ks[i]].data) else None
    case Mset(_) => r == Ok
  }

  /** The live entries after a command, from the live entries before it. */
  function SeenAfter(seen: Store, c: Command, now: Instant): Store {
    if AofCodec.IsWrite(c) then Live(ApplyTo(seen, c, now), now) else seen
  }

  lemma LiveHas(m: Store, k: Key, now: Instant)
    ensures k in Live(m, now) <==> LiveAt(m, k, now)
    ensures LiveAt(m, k, now) ==> Live(m, now)[k] == m[k]
  {
  }

  lemma TtlReply(m: Store, k: Key, now: Instant)
    ensures TtlMeans(Live(m, now), k, now, TtlAnswer(m, k, now))
  {
    LiveHas(m, k, now);
    hide Live;
  }

  /** One past the largest integer is the smallest. */
  lemma NextWraps(v: int)
    requires -TWO63 <= v < TWO63
    ensures WrapI64(v + 1) == if v == TWO63 - 1 then -TWO63 else v + 1
  {
  }

  lemma IncrAnswer(m: Store, k: Key, order: seq<Key>, now: Instant)
    ensures
      var r := IncrState(m, 0, k, order, now, now).1;
      if !LiveAt(m, k, now) then r == Done(1)
      else match ParseI64(m[k].data)
        case Some(v) => r == Done(WrapI64(v + 1))
        case None => r.Fault?
  {
    hide ParseI64, ItoaInt, WrapI64;
  }

  lemma IncrReply(m: Store, k: Key, now: Instant, scan: (nat, Store) -> seq<Key>, info: Bytes)
    ensures CountMeans(Live(m, now), k, DispatchState(m, 0, Incr(k), AtOnce(now, scan, info)).1)
  {
    hide Live, ParseI64, IncrState, Describe, WrapI64;
    LiveHas(m, k, now);
    IncrAnswer(m, k, scan(0, m), now);
    if LiveAt(m, k, now) && ParseI64(m[k].data).Some? {
      NextWraps(ParseI64(m[k].data).value);
    }
  }

  lemma KeysReply(m: Store, order: seq<Key>, now: Instant)
    requires Enumerates(order, m)
    ensures Lists(KeyItems(LiveKeys(m, order, now)), Live(m, now))
  {
    LiveKeysAre(m, order, now);
    var ks := LiveKeys(m, order, now);
    var items := KeyItems(ks);
    hide LiveKeys;
    forall k | k in Live(m, now) ensures Some(k) in items {
      var i :| 0 <= i < |ks| && ks[i] == k;
      assert items[i] == Some(k);
    }
  }

  lemma MgetReply(m: Store, ks: seq<Key>, now: Instant)
    ensures
      var items := FoundItems(m, ks, now);
      |items| == |ks| &&
      forall i :: 0 <= i < |ks| ==>
        items[i] == if ks[i] in Live(m, now) then Some(Live(m, now)[ks[i]].data) else None
  {
    forall i | 0 <= i < |ks|
      ensures FoundItems(m, ks, now)[i] == if ks[i] in Live(m, now) then Some(Live(m, now)[ks[i]].data) else None
    {
      LiveHas(m, ks[i], now);
    }
  }

  /** Every reply means what the live entries say. */
  lemma ReplyMeans(m: Store, c: Command, now: Instant, scan: (nat, Store) -> seq<Key>, info: Bytes)
    requires Enumerates(scan(0, m), m)
    ensures Means(Live(m, now), c, now, DispatchState(m, 0, c, AtOnce(now, scan, info)).1)
  {
    hide Live, IncrState, LiveKeys, TtlAnswer, MsetState, Enumerates, Describe, TtlMeans, Lists, CountMeans;
    match c {
      case Incr(k) => IncrReply(m, k, now, scan, info);
      case Ttl(k) => TtlReply(m, k, now);
      case Keys => KeysReply(m, scan(0, m), now);
      case Mget(ks) => MgetReply(m, ks, now);
      case Mset(ps) => MsetIsPutAll(m, ps, now, scan, info);
      case Get(k) => LiveHas(m, k, now);
      case Del(k) => LiveHas(m, k, now);
      case Exists(k) => LiveHas(m, k, now);
      case Expire(k, _) => LiveHas(m, k, now);
      case _ =>
    }
  }

  /** DBSIZE is the one reply that shows expired entries: it is the number of live entries
      exactly when nothing expired is waiting for removal. */
  lemma SizeMeans(m: Store, now: Instant, scan: (nat, Store) -> seq<Key>, info: Bytes)
    requires |m| < TWO63
    ensures
      var r := DispatchState(m, 0, DbSize, AtOnce(now, scan, info)).1;
      r.Integer? && r.n >= |Live(m, now)| && (r.n == |Live(m, now)| <==> forall k :: k in m ==> LiveAt(m, k, now))
  {
    var live := Live(m, now);
    if k :| k in m && !LiveAt(m, k, now) {
      EngineRuns.SubsetSize(live.Keys, m.Keys - {k});
    } else {
      assert live == m;
    }
  }

  /** The keys that the map holds after a command, expired ones included: a look-up or EXPIRE drops
      the expired entry it meets, DEL leaves it, and the listing commands touch nothing. */
  function StoredKeys(m: Store, c: Command, now: Instant): set<Key> {
    match c
    case Set(k, _, _) => m.Keys + {k}
    case Incr(k) => m.Keys + {k}
    case Mset(ps) => m.Keys + set i | 0 <= i < |ps| :: ps[i].0
    case FlushDb => {}
    case Del(k) => if LiveAt(m, k, now) then m.Keys - {k} else m.Keys
    case Get(k) => if LiveAt(m, k, now) then m.Keys else m.Keys - {k}
    case Exists(k) => if LiveAt(m, k, now) then m.Keys else m.Keys - {k}
    case Ttl(k) => if LiveAt(m, k, now) then m.Keys else m.Keys - {k}
    case Expire(k, _) => if LiveAt(m, k, now) then m.Keys else m.Keys - {k}
    case _ => m.Keys
  }

  lemma {:induction false} PutAllKeys(m: Store, ps: seq<(Key, Bytes)>, now: Instant)
    ensures PutAll(m, ps, now).Keys == m.Keys + set i | 0 <= i < |ps| :: ps[i].0
    decreases |ps|
  {
    if ps != [] {
      var n := |ps| - 1;
      PutAllKeys(m, ps[..n], now);
      assert (set i | 0 <= i < |ps| :: ps[i].0) == (set i | 0 <= i < n :: ps[..n][i].0) + {ps[n].0};
    }
  }

  lemma StoredMeans(m: Store, c: Command, now: Instant, scan: (nat, Store) -> seq<Key>, info: Bytes)
    ensures DispatchState(m, 0, c, AtOnce(now, scan, info)).0.Keys == StoredKeys(m, c, now)
  {
    hide ParseI64, ItoaInt, WrapI64;
    if AofCodec.IsWrite(c) {
      WriteIsReplay(m, c, now, scan, info);
      hide DispatchState;
      StoredWrite(m, c, now);
    }
  }

  lemma StoredWrite(m: Store, c: Command, now: Instant)
    requires AofCodec.IsWrite(c)
    ensures ApplyTo(m, c, now).Keys == StoredKeys(m, c, now)
  {
    hide ParseI64, ItoaInt, WrapI64, PutAll;
    if c.Mset? {
      PutAllKeys(m, c.pairs, now);
    }
  }

  /** Every command changes what is seen as a function of what is seen. */
  lemma ChangeMeans(m: Store, c: Command, now: Instant, scan: (nat, Store) -> seq<Key>, info: Bytes)
    ensures Live(DispatchState(m, 0, c, AtOnce(now, scan, info)).0, now) == SeenAfter(Live(m, now), c, now)
  {
    hide DispatchState, AtOnce, ApplyTo;
    EngineRuns.LiveOfLive(m, now, now);
    if AofCodec.IsWrite(c) {
      WriteIsReplay(m, c, now, scan, info);
      AofWriter.ApplySame(m, Live(m, now), c, now);
    } else {
      ReadKeepsView(m, c, now, scan, info);
    }
  }

  /** Two servers whose live entries agree stay so over every run of commands, so that by
      `ReplyMeans` their replies go on saying the same. */
  lemma {:induction false} Indistinguishable(m: Store, w: Store, run: seq<Timed>, t: Instant,
                                             s1: (nat, Store) -> seq<Key>, s2: (nat, Store) -> seq<Key>, info: Bytes)
    requires Ordered(run) && (run == [] || t <= run[0].at) && Live(m, t) == Live(w, t)
    ensures
      var u := if run == [] then t else LastTime(run);
      Live(Served(m, run, s1, info), u) == Live(Served(w, run, s2, info), u)
    decreases |run|
  {
    hide DispatchState, AtOnce, Live, SeenAfter;
    if run != [] {
      var n := |run| - 1;
      Indistinguishable(m, w, run[..n], t, s1, s2, info);
      var u := if n == 0 then t else LastTime(run[..n]);
      var a, b, now := Served(m, run[..n], s1, info), Served(w, run[..n], s2, info), run[n].at;
      EngineRuns.LiveLater(a, b, u, now);
      ChangeMeans(a, run[n].command, now, s1, info);
      ChangeMeans(b, run[n].command, now, s2, info);
    }
  }

  // ---- servers with a key limit --------------------------------------------------------

  /** A new key on a full map in which nothing is live. */
  predicate Refused(m: Store, max: nat, k: Key, now: Instant) {
    k !in m && |m| == max && NoneLive(m, now)
  }

  lemma SetReplyWithin(m: Store, max: nat, k: Key, v: Bytes, ttl: Option<Duration>, now: Instant, scan: (nat, Store) -> seq<Key>, info: Bytes)
    requires max > 0 && |m| <= max && Enumerates(scan(0, m), m)
    ensures
      var (m', r) := DispatchState(m, max, Set(k, v, ttl), AtOnce(now, scan, info));
      if Refused(m, max, k, now) then r == Error(InternalError(OUT_OF_MEMORY)) && m' == m
      else r == Ok && k in m' && m'[k] == SetEntry(v, ttl, now) && |m'| <= max
  {
    hide SetState, Enumerates, Victim;
    SetExact(m, max, k, SetEntry(v, ttl, now), scan(0, m), now);
    SetFaults(m, max, k, SetEntry(v, ttl, now), scan(0, m), now);
  }

  lemma IncrReplyWithin(m: Store, max: nat, k: Key, now: Instant, scan: (nat, Store) -> seq<Key>, info: Bytes)
    requires max > 0 && |m| <= max && Enumerates(scan(0, m), m)
    ensures
      var r := DispatchState(m, max, Incr(k), AtOnce(now, scan, info)).1;
      if Refused(m, max, k, now) then r == Error(TypeError(OUT_OF_MEMORY)) else CountMeans(Live(m, now), k, r)
  {
    hide IncrState, Enumerates, Victim, ParseI64, WrapI64, Live;
    IncrExact(m, max, k, scan(0, m), now, now);
    IncrAnswerWithin(m, max, k, scan(0, m), now);
    LiveHas(m, k, now);
    if LiveAt(m, k, now) && ParseI64(m[k].data).Some? {
      NextWraps(ParseI64(m[k].data).value);
    }
  }

  lemma IncrAnswerWithin(m: Store, max: nat, k: Key, order: seq<Key>, now: Instant)
    ensures
      var r := IncrState(m, max, k, order, now, now).1;
      && (!LiveAt(m, k, now) ==> r == Done(1) || r == Fault(OutOfMemory))
      && (LiveAt(m, k, now) ==> r == match ParseI64(m[k].data) { case Some(v) => Done(WrapI64(v + 1)) case None => Fault(NotAnInteger(k)) })
  {
    hide ParseI64, ItoaInt, WrapI64, EvictState;
  }

  /** The map after the first `i` pairs of an MSET. */
  function PairsIn(m: Store, max: nat, ps: seq<(Key, Bytes)>, i: nat, env: Env): Store
    requires i <= |ps|
  {
    MsetState(m, max, ps[..i], env).0
  }

  lemma {:induction false} MsetWithin(m: Store, max: nat, ps: seq<(Key, Bytes)>, env: Env)
    requires max > 0 && |m| <= max && Lawful(env)
    ensures |MsetState(m, max, ps, env).0| <= max
    decreases |ps|
  {
    hide SetState, Enumerates;
    if ps != [] {
      var n := |ps| - 1;
      MsetWithin(m, max, ps[..n], env);
      var m1 := MsetState(m, max, ps[..n], env).0;
      SetExact(m1, max, ps[n].0, NewEntry(ps[n].1, env.clock(2 * n)), env.scan(n, m1), env.clock(2 * n + 1));
    }
  }

  /** Some pair is refused on the map that the earlier ones left. */
  predicate SomeRefused(m: Store, max: nat, ps: seq<(Key, Bytes)>, env: Env) {
    exists i :: 0 <= i < |ps| && Refused(PairsIn(m, max, ps, i, env), max, ps[i].0, env.clock(2 * i + 1))
  }

  lemma SomeRefusedSnoc(m: Store, max: nat, ps: seq<(Key, Bytes)>, env: Env)
    requires ps != []
    ensures
      var n := |ps| - 1;
      SomeRefused(m, max, ps, env) <==>
        SomeRefused(m, max, ps[..n], env) || Refused(PairsIn(m, max, ps, n, env), max, ps[n].0, env.clock(2 * n + 1))
  {
    hide Refused, MsetState;
    var n := |ps| - 1;
    forall i | 0 <= i < n
      ensures PairsIn(m, max, ps[..n], i, env) == PairsIn(m, max, ps, i, env) && ps[..n][i] == ps[i]
    {
      assert ps[..n][..i] == ps[..i];
    }
    hide PairsIn;
    if SomeRefused(m, max, ps[..n], env) {
      var i :| 0 <= i < n && Refused(PairsIn(m, max, ps[..n], i, env), max, ps[..n][i].0, env.clock(2 * i + 1));
      assert Refused(PairsIn(m, max, ps, i, env), max, ps[i].0, env.clock(2 * i + 1));
    }
    if SomeRefused(m, max, ps, env) {
      var i :| 0 <= i < |ps| && Refused(PairsIn(m, max, ps, i, env), max, ps[i].0, env.clock(2 * i + 1));
      assert i < n ==> Refused(PairsIn(m, max, ps[..n], i, env), max, ps[..n][i].0, env.clock(2 * i + 1));
    }
  }

  /** An MSET is refused exactly when one of its pairs is, on the map that the earlier ones left. */
  lemma {:induction false} MsetRefused(m: Store, max: nat, ps: seq<(Key, Bytes)>, env: Env)
    requires max > 0 && |m| <= max && Lawful(env)
    ensures MsetState(m, max, ps, env).1.Fault? <==> SomeRefused(m, max, ps, env)
    decreases |ps|
  {
    hide Lawful, Refused, SomeRefused, MsetState, PairsIn;
    if ps == [] {
      NoPairs(m, max, env);
    } else {
      var n := |ps| - 1;
      MsetRefused(m, max, ps[..n], env);
      PairRefused(m, max, ps, n, env);
      SomeRefusedSnoc(m, max, ps, env);
      assert ps[..n + 1] == ps;
    }
  }

  lemma {:induction false} MsetFault(m: Store, max: nat, ps: seq<(Key, Bytes)>, env: Env)
    ensures
      var r := MsetState(m, max, ps, env).1;
      r == Done(()) || (r == Fault(OutOfMemory) && Describe(r.error) == OUT_OF_MEMORY)
    decreases |ps|
  {
    hide EvictState;
    if ps != [] {
      MsetFault(m, max, ps[..|ps| - 1], env);
    }
  }

  lemma NoPairs(m: Store, max: nat, env: Env)
    ensures MsetState(m, max, [], env).1.Done? && !SomeRefused(m, max, [], env)
  {
  }

  lemma PairRefused(m: Store, max: nat, ps: seq<(Key, Bytes)>, i: nat, env: Env)
    requires max > 0 && |m| <= max && Lawful(env) && i < |ps|
    ensures
      var r := MsetState(m, max, ps[..i], env).1;
      MsetState(m, max, ps[..i + 1], env).1.Fault? <==>
        r.Fault? || Refused(PairsIn(m, max, ps, i, env), max, ps[i].0, env.clock(2 * i + 1))
  {
    hide SetState, Enumerates;
    MsetSnoc(m, max, ps, i, env);
    MsetWithin(m, max, ps[..i], env);
    var m1 := MsetState(m, max, ps[..i], env).0;
    SetExact(m1, max, ps[i].0, NewEntry(ps[i].1, env.clock(2 * i)), env.scan(i, m1), env.clock(2 * i + 1));
    SetFaults(m1, max, ps[i].0, NewEntry(ps[i].1, env.clock(2 * i)), env.scan(i, m1), env.clock(2 * i + 1));
    hide Victim, MsetState;
  }

  /** Replies of a server with a key limit: a SET, MSET or INCR is answered with an error exactly
      when the limit refuses it (or the INCR meets no number), and every other reply means what it
      means without a limit. */
  lemma ReplyMeansWithin(m: Store, max: nat, c: Command, now: Instant, scan: (nat, Store) -> seq<Key>, info: Bytes)
    requires max > 0 && |m| <= max && Lawful(AtOnce(now, scan, info))
    ensures
      var env := AtOnce(now, scan, info);
      var r := DispatchState(m, max, c, env).1;
      match c
      case Set(k, _, _) => r == if Refused(m, max, k, now) then Error(InternalError(OUT_OF_MEMORY)) else Ok
      case Incr(k) => if Refused(m, max, k, now) then r == Error(TypeError(OUT_OF_MEMORY)) else CountMeans(Live(m, now), k, r)
      case Mset(ps) =>
        r == if SomeRefused(m, max, ps, env) then Error(InternalError(OUT_OF_MEMORY)) else Ok
      case _ => Means(Live(m, now), c, now, r)
  {
    var env := AtOnce(now, scan, info);
    assert Enumerates(env.scan(0, m), m);
    hide SetState, IncrState, MsetState, LazyRemove, ExpireState, LiveKeys, TtlAnswer, Lookup, Describe, Live, Enumerates, Lawful, Refused, CountMeans, SomeRefused;
    match c {
      case Set(k, v, ttl) => SetReplyWithin(m, max, k, v, ttl, now, scan, info);
      case Incr(k) => IncrReplyWithin(m, max, k, now, scan, info);
      case Mset(ps) =>
        MsetRefused(m, max, ps, env);
        MsetFault(m, max, ps, env);
      case _ =>
        ReplyMeans(m, c, now, scan, info);
        SameReply(m, max, c, env);
    }
  }

  lemma SameReply(m: Store, max: nat, c: Command, env: Env)
    requires !c.Set? && !c.Incr? && !c.Mset?
    ensures DispatchState(m, max, c, env).1 == DispatchState(m, 0, c, env).1
  {
  }
}
