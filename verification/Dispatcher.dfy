/** Commands against the engine: `dispatch`, which answers with a response, and
    `dispatch_to_buffer`, which writes the answer's bytes at once. */
module Dispatcher {
  import opened Bytes
  import opened Domain
  import opened Engine
  import EngineRuns
  import opened Response
  import AofCodec
  import opened Replay
  import AofWriter

  /** What the outside decides: clock readings, the iteration order of the map at each scan,
      and the INFO text. */
  datatype Env = Env(clock: Clock, scan: (nat, Store) -> seq<Key>, info: Bytes)

  ghost predicate Lawful(env: Env) {
    env.clock(0) <= env.clock(1) && forall i: nat, m: Store :: Enumerates(env.scan(i, m), m)
  }

  // "value is not an integer: ", "out of memory: max keys limit reached",
  // "-ERR internal" and "-ERR type", as bytes.
  const NOT_AN_INTEGER: Bytes := [118, 97, 108, 117, 101, 32, 105, 115, 32, 110, 111, 116, 32, 97, 110, 32, 105, 110, 116, 101, 103, 101, 114, 58, 32]
  const OUT_OF_MEMORY: Bytes := [111, 117, 116, 32, 111, 102, 32, 109, 101, 109, 111, 114, 121, 58, 32, 109, 97, 120, 32, 107, 101, 121, 115, 32, 108, 105, 109, 105, 116, 32, 114, 101, 97, 99, 104, 101, 100]
  const SHORT_INTERNAL: Bytes := [45, 69, 82, 82, 32, 105, 110, 116, 101, 114, 110, 97, 108]
  const SHORT_TYPE: Bytes := [45, 69, 82, 82, 32, 116, 121, 112, 101]

  /** The error's display text. */
  function Describe(e: EngineError): Bytes {
    match e
    case NotAnInteger(k) => NOT_AN_INTEGER + k
    case OutOfMemory => OUT_OF_MEMORY
  }

  function Bool(b: bool): Response { Integer(if b then 1 else 0) }

  function DataOf(e: Option<ValueEntry>): Option<Bytes> {
    if e.Some? then Some(e.value.data) else None
  }

  /** The first pairs of an MSET, up to the first one that fails. */
  function MsetState(m: Store, max: nat, ps: seq<(Key, Bytes)>, env: Env): (Store, Outcome<()>) {
    if ps == [] then (m, Done(()))
    else
      var n := |ps| - 1;
      var (m1, r) := MsetState(m, max, ps[..n], env);
      if r.Fault? then (m1, r)
      else SetState(m1, max, ps[n].0, NewEntry(ps[n].1, env.clock(2 * n)), env.scan(n, m1), env.clock(2 * n + 1))
  }

  function KeyItems(ks: seq<Key>): (r: seq<Option<Bytes>>)
    ensures |r| == |ks| && forall i :: 0 <= i < |ks| ==> r[i] == Some(ks[i])
  {
    seq(|ks|, i requires 0 <= i < |ks| => Some(ks[i]))
  }

  function FoundItems(m: Store, ks: seq<Key>, now: Instant): (r: seq<Option<Bytes>>)
    ensures |r| == |ks| && forall i :: 0 <= i < |ks| ==> r[i] == DataOf(Lookup(m, ks[i], now))
  {
    seq(|ks|, i requires 0 <= i < |ks| => DataOf(Lookup(m, ks[i], now)))
  }

  /** What a command does to the map and what the client is told. */
  function DispatchState(m: Store, max: nat, c: Command, env: Env): (Store, Response) {
    var t0, t1 := env.clock(0), env.clock(1);
    match c
    case Ping => (m, Pong)
    case Get(k) => (LazyRemove(m, k, t0, t1), Value(DataOf(Lookup(m, k, t0))))
    case Set(k, v, ttl) =>
      var (m', r) := SetState(m, max, k, SetEntry(v, ttl, t0), env.scan(0, m), t1);
      (m', if r.Done? then Ok else Error(InternalError(Describe(r.error))))
    case Del(k) => (DelState(m, k, t0).0, Bool(DelState(m, k, t0).1))
    case Incr(k) =>
      var (m', r) := IncrState(m, max, k, env.scan(0, m), t0, t1);
      (m', if r.Done? then Integer(r.value) else Error(TypeError(Describe(r.error))))
    case Info => (m, Value(Some(env.info)))
    case DbSize => (m, Integer(WrapI64(|m|)))
    case Exists(k) => (LazyRemove(m, k, t0, t1), Bool(LiveAt(m, k, t0)))
    case Ttl(k) => (LazyRemove(m, k, t0, t1), Integer(TtlAnswer(m, k, t1)))
    case Expire(k, s) => (ExpireState(m, k, s, t0, t1), Bool(LiveAt(m, k, t0)))
    case FlushDb => (map[], Ok)
    case Keys => (m, Array(KeyItems(LiveKeys(m, env.scan(0, m), t0))))
    case Mget(ks) => (m, Array(FoundItems(m, ks, t0)))
    case Mset(ps) =>
      var (m', r) := MsetState(m, max, ps, env);
      (m', if r.Done? then Ok else Error(InternalError(Describe(r.error))))
  }

  lemma MsetSnoc(m: Store, max: nat, ps: seq<(Key, Bytes)>, i: nat, env: Env)
    requires i < |ps|
    ensures
      var (m1, r) := MsetState(m, max, ps[..i], env);
      MsetState(m, max, ps[..i + 1], env)
        == if r.Fault? then (m1, r)
           else SetState(m1, max, ps[i].0, NewEntry(ps[i].1, env.clock(2 * i)), env.scan(i, m1), env.clock(2 * i + 1))
  {
    hide SetState;
    assert ps[..i + 1][..i] == ps[..i];
  }

  lemma {:induction false} MsetStops(m: Store, max: nat, ps: seq<(Key, Bytes)>, i: nat, env: Env)
    requires i <= |ps| && MsetState(m, max, ps[..i], env).1.Fault?
    ensures MsetState(m, max, ps, env) == MsetState(m, max, ps[..i], env)
    decreases |ps| - i
  {
    hide SetState;
    if i == |ps| {
      assert ps[..i] == ps;
    } else {
      MsetSnoc(m, max, ps, i, env);
      MsetStops(m, max, ps, i + 1, env);
    }
  }

  /** The pair loop that both dispatchers run. */
  method SetPairs(engine: DashMapEngine, ps: seq<(Key, Bytes)>, env: Env) returns (r: Outcome<()>)
    requires Lawful(env)
    modifies engine
    ensures (engine.map_, r) == MsetState(old(engine.map_), engine.maxKeys, ps, env)
  {
    hide SetState;
    ghost var m := engine.map_;
    r := Done(());
    for i := 0 to |ps|
      invariant r.Done? && (engine.map_, r) == MsetState(m, engine.maxKeys, ps[..i], env)
    {
      MsetSnoc(m, engine.maxKeys, ps, i, env);
      var entry := NewEntry(ps[i].1, env.clock(2 * i));
      r := engine.Set(ps[i].0, entry, env.scan(i, engine.map_), env.clock(2 * i + 1));
      if r.Fault? {
        MsetStops(m, engine.maxKeys, ps, i + 1, env);
        return;
      }
    }
    assert ps[..|ps|] == ps;
  }

  /** `dispatch`. */
  method Dispatch(engine: DashMapEngine, c: Command, env: Env) returns (r: Response)
    requires Lawful(env)
    modifies engine
    ensures (engine.map_, r) == DispatchState(old(engine.map_), engine.maxKeys, c, env)
  {
    hide SetState, IncrState, DelState, LazyRemove, ExpireState, LiveKeys, TtlAnswer, MsetState, Enumerates;
    var t0, t1 := env.clock(0), env.clock(1);
    match c {
      case Ping => return Pong;
      case Get(k) =>
        var e := engine.Get(k, t0, t1);
        return Value(if e.Some? then Some(e.value.data) else None);
      case Set(k, v, ttl) =>
        var o := engine.Set(k, SetEntry(v, ttl, t0), env.scan(0, engine.map_), t1);
        return if o.Done? then Ok else Error(InternalError(Describe(o.error)));
      case Del(k) =>
        var existed := engine.Del(k, t0);
        return Integer(if existed then 1 else 0);
      case Incr(k) =>
        var o := engine.Incr(k, env.scan(0, engine.map_), t0, t1);
        return if o.Done? then Integer(o.value) else Error(TypeError(Describe(o.error)));
      case Info => return Value(Some(env.info));
      case DbSize =>
        var n := engine.Len();
        return Integer(WrapI64(n));
      case Exists(k) =>
        var b := engine.Exists(k, t0, t1);
        return Integer(if b then 1 else 0);
      case Ttl(k) =>
        var n := engine.TtlSecs(k, t0, t1);
        return Integer(n);
      case Expire(k, s) =>
        var b := engine.Expire(k, s, t0, t1);
        return Integer(if b then 1 else 0);
      case FlushDb =>
        engine.Clear();
        return Ok;
      case Keys =>
        var ks := engine.Keys(env.scan(0, engine.map_), t0);
        return Array(KeyItems(ks));
      case Mget(ks) =>
        var found := engine.Mget(ks, t0);
        var items := seq(|found|, i requires 0 <= i < |found| => DataOf(found[i]));
        assert items == FoundItems(engine.map_, ks, t0);
        return Array(items);
      case Mset(ps) =>
        var o := SetPairs(engine, ps, env);
        return if o.Done? then Ok else Error(InternalError(Describe(o.error)));
    }
  }

  /** The bytes that `dispatch_to_buffer` writes for an answer: the response's own, except that
      a failed SET or INCR gets a fixed text. */
  function BufferBytes(c: Command, r: Response, resp: bool): Bytes {
    if r.Error? && c.Set? then SHORT_INTERNAL + CRLF
    else if r.Error? && c.Incr? then SHORT_TYPE + CRLF
    else Encoded(r, resp)
  }

  /** `dispatch_to_buffer`. The engine changes as under `dispatch`, and the buffer grows by the
      bytes of its answer. */
  method DispatchToBuffer(engine: DashMapEngine, c: Command, env: Env, buf: Bytes, resp: bool) returns (out: Bytes)
    requires Lawful(env)
    modifies engine
    ensures
      var (m, r) := DispatchState(old(engine.map_), engine.maxKeys, c, env);
      engine.map_ == m && out == buf + BufferBytes(c, r, resp)
  {
    hide SetState, IncrState, DelState, LazyRemove, ExpireState, LiveKeys, TtlAnswer, MsetState, Enumerates, Encoded, Lookup;
    var t0, t1 := env.clock(0), env.clock(1);
    match c {
      case Ping =>
        out := WriteTo(Pong, buf, resp);
      case Get(k) =>
        var e := engine.Get(k, t0, t1);
        if e.Some? {
          out := WriteValue(e.value.data, buf, resp);
        } else {
          out := WriteTo(Value(None), buf, resp);
        }
      case Set(k, v, ttl) =>
        var o := engine.Set(k, SetEntry(v, ttl, t0), env.scan(0, engine.map_), t1);
        if o.Done? {
          out := WriteTo(Ok, buf, resp);
        } else {
          out := buf + (SHORT_INTERNAL + CRLF);
        }
      case Del(k) =>
        var existed := engine.Del(k, t0);
        out := WriteNumber(if existed then 1 else 0, buf, resp);
      case Incr(k) =>
        var o := engine.Incr(k, env.scan(0, engine.map_), t0, t1);
        if o.Done? {
          out := WriteNumber(o.value, buf, resp);
        } else {
          out := buf + (SHORT_TYPE + CRLF);
        }
      case Info =>
        out := WriteValue(env.info, buf, resp);
      case DbSize =>
        var n := engine.Len();
        out := WriteNumber(WrapI64(n), buf, resp);
      case Exists(k) =>
        var b := engine.Exists(k, t0, t1);
        out := WriteNumber(if b then 1 else 0, buf, resp);
      case Ttl(k) =>
        var n := engine.TtlSecs(k, t0, t1);
        out := WriteNumber(n, buf, resp);
      case Expire(k, s) =>
        var b := engine.Expire(k, s, t0, t1);
        out := WriteNumber(if b then 1 else 0, buf, resp);
      case FlushDb =>
        engine.Clear();
        out := WriteTo(Ok, buf, resp);
      case Keys =>
        var ks := engine.Keys(env.scan(0, engine.map_), t0);
        out := WriteArray(KeyItems(ks), buf, resp);
      case Mget(ks) =>
        var found := engine.Mget(ks, t0);
        var items := seq(|found|, i requires 0 <= i < |found| => DataOf(found[i]));
        assert items == FoundItems(engine.map_, ks, t0);
        out := WriteArray(items, buf, resp);
      case Mset(ps) =>
        var o := SetPairs(engine, ps, env);
        if o.Done? {
          out := WriteTo(Ok, buf, resp);
        } else {
          out := WriteTo(Error(InternalError(Describe(o.error))), buf, resp);
        }
    }
  }

  // ---- agreement ----------------------------------------------------------------

  /** Only a failed SET or INCR is worded differently. */
  predicate Reworded(c: Command, r: Response) {
    r.Error? && (c.Set? || c.Incr?)
  }

  lemma ErrorKinds(m: Store, max: nat, c: Command, env: Env)
    ensures
      var r := DispatchState(m, max, c, env).1;
      && (c.Set? && r.Error? ==> r.error.InternalError?)
      && (c.Incr? && r.Error? ==> r.error.TypeError?)
      && (r.Error? ==> c.Set? || c.Incr? || c.Mset?)
  {
    hide SetState, IncrState, DelState, LazyRemove, ExpireState, LiveKeys, TtlAnswer, MsetState, Lookup;
  }

  /** The two dispatchers put the same bytes on the wire, in either mode, exactly when the
      answer is not the error of a SET or INCR; and then both still say "-ERR" and the kind. */
  lemma BuffersAgree(m: Store, max: nat, c: Command, env: Env, resp: bool)
    ensures
      var r := DispatchState(m, max, c, env).1;
      && (BufferBytes(c, r, resp) == Encoded(r, resp) <==> !Reworded(c, r))
      && (Reworded(c, r) ==>
            var short := if c.Set? then SHORT_INTERNAL else SHORT_TYPE;
            BufferBytes(c, r, resp) == short + CRLF && StartsWith(Encoded(r, resp), short))
  {
    hide DispatchState;
    ErrorKinds(m, max, c, env);
    var r := DispatchState(m, max, c, env).1;
    if Reworded(c, r) {
      LongerText(r.error);
    }
  }

  lemma LongerText(e: ResponseError)
    requires e.InternalError? || e.TypeError?
    ensures
      var short := if e.InternalError? then SHORT_INTERNAL else SHORT_TYPE;
      StartsWith(ErrorLine(e) + CRLF, short) && ErrorLine(e) + CRLF != short + CRLF
  {
    var line := ErrorLine(e);
    if e.InternalError? {
      assert line[13] == 58 && (SHORT_INTERNAL + CRLF)[13] == 13;
    } else {
      assert line[9] == 58 && (SHORT_TYPE + CRLF)[9] == 13;
    }
  }

  /** An INCR of a live value that is not an integer, under a key that holds a CR. */
  predicate BreaksReply(m: Store, c: Command, now: Instant) {
    c.Incr? && LiveAt(m, c.key, now) && ParseI64(m[c.key].data).None? && CR in c.key
  }

  lemma {:induction false} MsetFaults(m: Store, max: nat, ps: seq<(Key, Bytes)>, env: Env)
    ensures MsetState(m, max, ps, env).1.Fault? ==> MsetState(m, max, ps, env).1.error == OutOfMemory
    decreases |ps|
  {
    hide EvictState;
    if ps != [] {
      MsetFaults(m, max, ps[..|ps| - 1], env);
    }
  }

  lemma IncrFaults(m: Store, max: nat, k: Key, order: seq<Key>, t1: Instant, t2: Instant)
    ensures
      var r := IncrState(m, max, k, order, t1, t2).1;
      r.Fault? ==> r.error == (if LiveAt(m, k, t1) then NotAnInteger(k) else OutOfMemory)
    ensures LiveAt(m, k, t1) ==> (IncrState(m, max, k, order, t1, t2).1.Fault? <==> ParseI64(m[k].data).None?)
  {
    hide EvictState, ParseI64, ItoaInt;
  }

  lemma DescribeCr(e: EngineError)
    ensures CR in Describe(e) <==> e.NotAnInteger? && CR in e.key
  {
    if e.NotAnInteger? {
      CrAfter(NOT_AN_INTEGER, e.key);
    }
  }

  lemma ReplyIsOneLine(m: Store, max: nat, c: Command, env: Env)
    ensures OneLine(DispatchState(m, max, c, env).1) <==> !BreaksReply(m, c, env.clock(0))
  {
    hide SetState, IncrState, DelState, LazyRemove, ExpireState, LiveKeys, TtlAnswer, MsetState, Lookup, ParseI64, Describe;
    match c {
      case Incr(k) =>
        var r := IncrState(m, max, k, env.scan(0, m), env.clock(0), env.clock(1)).1;
        IncrFaults(m, max, k, env.scan(0, m), env.clock(0), env.clock(1));
        if r.Fault? { DescribeCr(r.error); }
      case Set(k, v, ttl) =>
        SetFaults(m, max, k, SetEntry(v, ttl, env.clock(0)), env.scan(0, m), env.clock(1));
        DescribeCr(OutOfMemory);
      case Mset(ps) =>
        MsetFaults(m, max, ps, env);
        DescribeCr(OutOfMemory);
      case _ =>
    }
  }

  lemma SetFaults(m: Store, max: nat, k: Key, e: ValueEntry, order: seq<Key>, now: Instant)
    ensures
      var r := SetState(m, max, k, e, order, now).1;
      r.Fault? ==> r.error == OutOfMemory
  {
    hide EvictState;
  }

  /** A client of the RESP port reads back exactly the answer of `dispatch`, whatever follows it
      on the wire, unless it incremented a non-integer under a key that holds a CR. */
  lemma DispatchDecodes(m: Store, max: nat, c: Command, env: Env, z: Bytes)
    requires Representable(DispatchState(m, max, c, env).1)
    ensures
      var r := DispatchState(m, max, c, env).1;
      Decode(Encoded(r, true) + z) == Decoded(r, z) <==> !BreaksReply(m, c, env.clock(0))
  {
    hide DispatchState, Decode, Encoded, Representable, BreaksReply, OneLine;
    ReplyIsOneLine(m, max, c, env);
    ReplyDecodes(DispatchState(m, max, c, env).1, z);
  }

  /** A breaking command: the key is one CR and its value is not a number. Whatever follows on the
      wire, the client does not read the error that was sent. */
  lemma GarbledReply(max: nat, env: Env, z: Bytes)
    ensures
      var m: Store := map[[CR] := NewEntry([120], 0)];
      var r := DispatchState(m, max, Incr([CR]), env).1;
      r == Error(TypeError(NOT_AN_INTEGER + [CR])) && Decode(Encoded(r, true) + z) != Decoded(r, z)
  {
    var m: Store := map[[CR] := NewEntry([120], 0)];
    var c := Incr([CR]);
    assert ParseI64([120]) == None by { assert !IsDigit([120][0]); }
    IncrFaults(m, max, [CR], env.scan(0, m), env.clock(0), env.clock(1));
    hide ParseI64, IncrState, Decode, Encoded;
    DispatchDecodes(m, max, c, env, z);
  }

  // ---- what is logged is what was done -----------------------------------------------

  /** All clock readings of one dispatch at the same instant. */
  function AtOnce(now: Instant, scan: (nat, Store) -> seq<Key>, info: Bytes): Env {
    Env(Always(now), scan, info)
  }

  lemma {:induction false} MsetIsPutAll(m: Store, ps: seq<(Key, Bytes)>, now: Instant, scan: (nat, Store) -> seq<Key>, info: Bytes)
    ensures MsetState(m, 0, ps, AtOnce(now, scan, info)) == (PutAll(m, ps, now), Done(()))
    decreases |ps|
  {
    if ps != [] {
      MsetIsPutAll(m, ps[..|ps| - 1], now, scan, info);
    }
  }

  /** On an unlimited engine a write does to the map what its record does on replay. */
  lemma WriteIsReplay(m: Store, c: Command, now: Instant, scan: (nat, Store) -> seq<Key>, info: Bytes)
    requires AofCodec.IsWrite(c)
    ensures DispatchState(m, 0, c, AtOnce(now, scan, info)).0 == ApplyTo(m, c, now)
    ensures DispatchState(m, 0, c, AtOnce(now, scan, info)).1.Error? ==> ApplyTo(m, c, now) == m
  {
    hide LazyRemove, Describe, ParseI64, ItoaInt;
    match c {
      case Mset(ps) => MsetIsPutAll(m, ps, now, scan, info);
      case Incr(k) => IncrUnlimited(m, k, scan(0, m), now);
      case Set(k, v, ttl) =>
      case Del(k) =>
      case Expire(k, s) =>
      case FlushDb =>
    }
  }

  lemma IncrUnlimited(m: Store, k: Key, order: seq<Key>, now: Instant)
    ensures IncrState(m, 0, k, order, now, now) == IncrState(m, 0, k, [], now, now)
    ensures IncrState(m, 0, k, order, now, now).1.Fault? ==> IncrState(m, 0, k, order, now, now).0 == m
  {
    hide ParseI64, ItoaInt;
  }

  /** A read changes nothing in the live view. */
  lemma ReadKeepsView(m: Store, c: Command, now: Instant, scan: (nat, Store) -> seq<Key>, info: Bytes)
    requires !AofCodec.IsWrite(c)
    ensures AofWriter.SameLive(DispatchState(m, 0, c, AtOnce(now, scan, info)).0, m, now)
  {
    hide Live;
    if c.Get? || c.Exists? || c.Ttl? {
      if c.key in m && m[c.key].IsExpiredAt(now) {
        EngineRuns.LiveRemoveExpired(m, c.key, now);
      }
    }
  }

  /** A command and the instant at which it is dispatched. */
  datatype Timed = Timed(command: Command, at: Instant)

  predicate Ordered(run: seq<Timed>) {
    forall i, j :: 0 <= i <= j < |run| ==> run[i].at <= run[j].at
  }

  /** The map after a session's commands. */
  function Served(m: Store, run: seq<Timed>, scan: (nat, Store) -> seq<Key>, info: Bytes): Store {
    if run == [] then m
    else
      var n := |run| - 1;
      DispatchState(Served(m, run[..n], scan, info), 0, run[n].command, AtOnce(run[n].at, scan, info)).0
  }

  /** What the session appends to the log: the writes that did not fail. */
  function Logged(m: Store, run: seq<Timed>, scan: (nat, Store) -> seq<Key>, info: Bytes): seq<Timed> {
    if run == [] then []
    else
      var n := |run| - 1;
      var r := DispatchState(Served(m, run[..n], scan, info), 0, run[n].command, AtOnce(run[n].at, scan, info)).1;
      Logged(m, run[..n], scan, info) + (if AofCodec.IsWrite(run[n].command) && !r.Error? then [run[n]] else [])
  }

  function CommandsOf(log: seq<Timed>): (cs: seq<Command>)
    ensures |cs| == |log| && forall i :: 0 <= i < |log| ==> cs[i] == log[i].command
  {
    seq(|log|, i requires 0 <= i < |log| => log[i].command)
  }

  /** A clock that shows the original times. */
  function TimesOf(log: seq<Timed>): Clock {
    (i: nat) => if i < |log| then log[i].at else 0
  }

  lemma {:induction false} ClockExtends(m: Store, cs: seq<Command>, c1: Clock, c2: Clock)
    requires forall i :: 0 <= i < |cs| ==> c1(i) == c2(i)
    ensures Replayed(m, cs, c1) == Replayed(m, cs, c2)
    decreases |cs|
  {
    hide ApplyTo;
    if cs != [] {
      ClockExtends(m, cs[..|cs| - 1], c1, c2);
    }
  }

  lemma ReplayLoggedSnoc(m: Store, log: seq<Timed>, x: Timed)
    ensures Replayed(m, CommandsOf(log + [x]), TimesOf(log + [x]))
         == ApplyTo(Replayed(m, CommandsOf(log), TimesOf(log)), x.command, x.at)
  {
    hide ApplyTo, Replayed;
    assert CommandsOf(log + [x]) == CommandsOf(log) + [x.command];
    ReplayedSnoc(m, CommandsOf(log), x.command, TimesOf(log + [x]));
    ClockExtends(m, CommandsOf(log), TimesOf(log + [x]), TimesOf(log));
  }

  lemma ServeStep(live: Store, replayed: Store, x: Timed, t: Instant, scan: (nat, Store) -> seq<Key>, info: Bytes)
    requires AofWriter.SameLive(live, replayed, t) && t <= x.at
    ensures
      var (m, r) := DispatchState(live, 0, x.command, AtOnce(x.at, scan, info));
      var logged := AofCodec.IsWrite(x.command) && !r.Error?;
      AofWriter.SameLive(m, if logged then ApplyTo(replayed, x.command, x.at) else replayed, x.at)
  {
    hide ApplyTo, DispatchState, AtOnce, Live;
    EngineRuns.LiveLater(live, replayed, t, x.at);
    if AofCodec.IsWrite(x.command) {
      WriteIsReplay(live, x.command, x.at, scan, info);
      AofWriter.ApplySame(live, replayed, x.command, x.at);
    } else {
      ReadKeepsView(live, x.command, x.at, scan, info);
    }
  }

  function LastTime(run: seq<Timed>): Instant {
    if run == [] then 0 else run[|run| - 1].at
  }

  /** Logging is faithful. For every run of all commands on an unlimited engine, failed ones and
      reads among them, replaying what the session logged, at the original times, gives the
      live view that the engine had. */
  lemma {:induction false} LogIsFaithful(m: Store, run: seq<Timed>, scan: (nat, Store) -> seq<Key>, info: Bytes)
    requires Ordered(run)
    ensures
      var log := Logged(m, run, scan, info);
      AofWriter.SameLive(Served(m, run, scan, info), Replayed(m, CommandsOf(log), TimesOf(log)), LastTime(run))
    decreases |run|
  {
    hide ApplyTo, DispatchState, AtOnce, AofWriter.SameLive, Replayed;
    if run == [] {
      ReplayedNil(m, TimesOf([]));
      AofWriter.SameLiveRefl(m, 0);
      assert CommandsOf([]) == [];
    } else {
      var n := |run| - 1;
      var before := run[..n];
      LogIsFaithful(m, before, scan, info);
      var log := Logged(m, before, scan, info);
      var live, replayed := Served(m, before, scan, info), Replayed(m, CommandsOf(log), TimesOf(log));
      ServeStep(live, replayed, run[n], LastTime(before), scan, info);
      ReplayLoggedSnoc(m, log, run[n]);
      assert log + [] == log;
    }
  }

  /** The same down to the bytes of the log. */
  lemma LoggedBytesRestore(m: Store, run: seq<Timed>, scan: (nat, Store) -> seq<Key>, info: Bytes)
    requires Ordered(run) && AofCodec.AllEncodable(CommandsOf(Logged(m, run, scan, info)))
    ensures
      var log := Logged(m, run, scan, info);
      var bytes := AofCodec.Log(CommandsOf(log));
      AofWriter.SameLive(Served(m, run, scan, info), Replayed(m, AofCodec.ReadLog(bytes, 0), TimesOf(log)), LastTime(run))
  {
    hide AofWriter.SameLive, Replayed, Served, Logged, AofCodec.ReadLog, AofCodec.Log, AofCodec.Encodable;
    LogIsFaithful(m, run, scan, info);
    AofCodec.LogRoundTrip(CommandsOf(Logged(m, run, scan, info)));
  }
}
