/** TTLs from the wire to the clock: what EX, PX, the fast parser's bare seconds and EXPIRE mean in
    nanoseconds, and how long the key is then seen. */
module Deadlines {
  import opened Bytes
  import opened Domain
  import opened Engine
  import opened InlineParser
  import opened RespParser
  import opened Response
  import opened Dispatcher
  import opened Ledgers

  const SECOND_IN_NANOS: nat := 1_000_000_000
  const MILLI_IN_NANOS: nat := 1_000_000

  lemma Options(n: nat)
    requires n < TWO64
    ensures TtlOption(EX, Itoa(n)) == Some(n * SECOND_IN_NANOS)
    ensures TtlOption(PX, Itoa(n)) == Some(n * MILLI_IN_NANOS)
  {
    ParseU64Itoa(n);
    assert ToLower(PX[0]) != ToLower(EX[0]);
    hide ParseU64, Itoa;
  }

  /** The argument vectors of a SET with a TTL in seconds and in milliseconds. */
  function ExArgs(k: Key, v: Bytes, n: nat): seq<Bytes> { [SET, k, v, EX, Itoa(n)] }
  function PxArgs(k: Key, v: Bytes, n: nat): seq<Bytes> { [SET, k, v, PX, Itoa(n)] }

  lemma SetWithOption(k: Key, v: Bytes, opt: Bytes, arg: Bytes)
    requires TtlOption(opt, arg).Some?
    ensures CommandOf([SET, k, v, opt, arg]) == Some(Set(k, v, TtlOption(opt, arg)))
    ensures LineCommand([SET, k, v, opt, arg]) == Parsed.Ok(Set(k, v, TtlOption(opt, arg)))
  {
    VerbOfName(VSet);
    hide VerbOf, TtlOption;
    var ws := [SET, k, v, opt, arg];
    assert ws[1..] == [k, v, opt, arg];
  }

  /** `EX n` and `PX 1000n` are the same command, n seconds, over RESP and to the simple inline
      parser. */
  lemma ExIsPx(k: Key, v: Bytes, n: nat)
    requires 1000 * n < TWO64
    ensures
      var c := Set(k, v, Some(n * SECOND_IN_NANOS));
      && CommandOf(ExArgs(k, v, n)) == Some(c) && CommandOf(PxArgs(k, v, 1000 * n)) == Some(c)
      && LineCommand(ExArgs(k, v, n)) == Parsed.Ok(c) && LineCommand(PxArgs(k, v, 1000 * n)) == Parsed.Ok(c)
  {
    hide CommandOf, LineCommand, TtlOption, Itoa;
    Options(n);
    Options(1000 * n);
    SetWithOption(k, v, EX, Itoa(n));
    SetWithOption(k, v, PX, Itoa(1000 * n));
  }

  /** The frames of the two parse to that command, whatever follows. */
  lemma TtlFramesParse(k: Key, v: Bytes, n: nat, z: Bytes)
    requires 1000 * n < TWO64 && |k| < TWO63 && |v| < TWO63
    ensures
      var c := Set(k, v, Some(n * SECOND_IN_NANOS));
      var ex, px := RespFrame(ExArgs(k, v, n)), RespFrame(PxArgs(k, v, 1000 * n));
      ParseFrame(ex + z) == Complete(|ex|, c) && ParseFrame(px + z) == Complete(|px|, c)
  {
    hide CommandOf, RespFrame, ParseFrame, Itoa;
    ExIsPx(k, v, n);
    ItoaShort(n);
    ItoaShort(1000 * n);
    assert Sized(ExArgs(k, v, n)) && Sized(PxArgs(k, v, 1000 * n));
    hide ExArgs, PxArgs, Sized;
    FrameRoundTrip(ExArgs(k, v, n), z);
    FrameRoundTrip(PxArgs(k, v, 1000 * n), z);
  }

  /** The fast parser takes no option but a bare number of seconds: `SET k v n` there is
      `SET k v EX n` elsewhere. */
  lemma BareSeconds(k: Key, v: Bytes, n: nat)
    requires n < TWO64
    ensures BorrowedCommand([SET, k, v, Itoa(n)]) == Parsed.Ok(Set(k, v, Some(n * SECOND_IN_NANOS)))
  {
    VerbOfName(VSet);
    assert AsciiU64(Itoa(n)) == Some(n);
    hide VerbOf, Itoa, AsciiU64;
    assert [SET, k, v, Itoa(n)][1..] == [k, v, Itoa(n)];
  }

  // ---- how long a key is seen ---------------------------------------------------------

  /** After a SET for n seconds at `t` the key is seen exactly at the instants before n seconds
      later, and TTL at `t` answers n. */
  lemma SetLives(m: Store, k: Key, v: Bytes, n: nat, t: Instant, scan: (nat, Store) -> seq<Key>, info: Bytes, u: Instant)
    ensures
      var m' := DispatchState(m, 0, Set(k, v, Some(n * SECOND_IN_NANOS)), AtOnce(t, scan, info)).0;
      && View(m', k, u) == (if u < t + n * SECOND_IN_NANOS then Some(v) else None)
      && (n > 0 ==> DispatchState(m', 0, Ttl(k), AtOnce(t, scan, info)).1 == Integer(n))
  {
    assert (n * SECOND_IN_NANOS) / SECOND == n;
  }

  /** The same for EXPIRE on a key that is seen. */
  lemma ExpireLives(m: Store, k: Key, n: nat, t: Instant, scan: (nat, Store) -> seq<Key>, info: Bytes, u: Instant)
    requires LiveAt(m, k, t)
    ensures
      var (m', r) := DispatchState(m, 0, Expire(k, n), AtOnce(t, scan, info));
      && r == Integer(1)
      && View(m', k, u) == (if u < t + n * SECOND_IN_NANOS then Some(m[k].data) else None)
      && (n > 0 ==> DispatchState(m', 0, Ttl(k), AtOnce(t, scan, info)).1 == Integer(n))
  {
    assert (n * SECOND_IN_NANOS) / SECOND == n;
  }

  /** From the bytes of `SET k v EX n` to the clock. */
  lemma ExOnTheWire(m: Store, k: Key, v: Bytes, n: nat, z: Bytes, t: Instant, scan: (nat, Store) -> seq<Key>, info: Bytes, u: Instant)
    requires 1000 * n < TWO64 && |k| < TWO63 && |v| < TWO63
    ensures
      var f := ParseFrame(RespFrame(ExArgs(k, v, n)) + z);
      && f.Complete?
      && var m' := DispatchState(m, 0, f.command, AtOnce(t, scan, info)).0;
         && View(m', k, u) == (if u < t + n * SECOND_IN_NANOS then Some(v) else None)
         && (n > 0 ==> DispatchState(m', 0, Ttl(k), AtOnce(t, scan, info)).1 == Integer(n))
  {
    hide ParseFrame, RespFrame, DispatchState, ExArgs, PxArgs, View;
    TtlFramesParse(k, v, n, z);
    SetLives(m, k, v, n, t, scan, info, u);
  }
}
