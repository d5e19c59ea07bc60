/** Byte strings, little-endian fields, decimal text and fixed-width wrap-around:
    the vocabulary that the wire protocol, the log and the snapshot share. */
module Bytes {

  type byte = b: int | 0 <= b < 256

  type Bytes = seq<byte>

  const CR: byte := 13
  const LF: byte := 10
  const CRLF: Bytes := [13, 10]

  // ---- fixed-width integers -------------------------------------------------

  const TWO16: int := 0x1_0000
  const TWO32: int := 0x1_0000_0000
  const TWO63: int := 0x8000_0000_0000_0000
  const TWO64: int := 0x1_0000_0000_0000_0000

  /** Wrap-around of 64-bit unsigned arithmetic (release builds do not trap). */
  function WrapU64(x: int): (r: int)
    ensures 0 <= r < TWO64
    ensures 0 <= x < TWO64 ==> r == x
  {
    x % TWO64
  }

  /** Wrap-around of 64-bit two's complement arithmetic. */
  function WrapI64(x: int): (r: int)
    ensures -TWO63 <= r < TWO63
    ensures -TWO63 <= x < TWO63 ==> r == x
  {
    (x + TWO63) % TWO64 - TWO63
  }

  /** Adding a multiple of the modulus changes neither wrapped value. */
  lemma WrapShift(x: int, k: int)
    ensures WrapU64(x + k * TWO64) == WrapU64(x)
    ensures WrapI64(x + k * TWO64) == WrapI64(x)
  {
    ModShift(x, k);
    ModShift(x + TWO63, k);
    assert x + k * TWO64 + TWO63 == x + TWO63 + k * TWO64;
  }

  lemma {:induction false} ModShift(x: int, k: int)
    ensures (x + k * TWO64) % TWO64 == x % TWO64
    decreases if k < 0 then -k else k
  {
    if k > 0 {
      ModShift(x, k - 1);
      assert x + k * TWO64 == x + (k - 1) * TWO64 + TWO64;
    } else if k < 0 {
      ModShift(x, k + 1);
      assert x + k * TWO64 == x + (k + 1) * TWO64 - TWO64;
    }
  }

  // ---- little-endian fields -------------------------------------------------

  function Pow256(n: nat): (r: nat)
    ensures r > 0
  {
    if n == 0 then 1 else 256 * Pow256(n - 1)
  }

  /** The `n` low-order bytes of `x`, least significant first: `(x as uN).to_le_bytes()`. */
  function Le(x: nat, n: nat): (r: Bytes)
    ensures |r| == n
  {
    if n == 0 then [] else [x % 256] + Le(x / 256, n - 1)
  }

  function FromLe(s: Bytes): (r: nat)
    ensures r < Pow256(|s|)
  {
    if s == [] then 0 else s[0] + 256 * FromLe(s[1..])
  }

  /** Reading back a field gives the value truncated to the field's width. */
  lemma {:induction false} LeRoundTrip(x: nat, n: nat)
    ensures FromLe(Le(x, n)) == x % Pow256(n)
  {
    if n > 0 {
      LeRoundTrip(x / 256, n - 1);
      var p := Pow256(n - 1);
      var s := Le(x, n);
      assert s[1..] == Le(x / 256, n - 1);
      DivModCompose(x, p);
    }
  }

  /** A value that fits its field is read back unchanged. */
  lemma LeExact(x: nat, n: nat)
    requires x < Pow256(n)
    ensures FromLe(Le(x, n)) == x
  {
    LeRoundTrip(x, n);
  }

  lemma LeExact248(x: nat)
    ensures x < TWO16 ==> FromLe(Le(x, 2)) == x
    ensures x < TWO32 ==> FromLe(Le(x, 4)) == x
    ensures x < TWO64 ==> FromLe(Le(x, 8)) == x
  {
    hide Le, FromLe, Pow256;
    Pow256Values();
    if x < TWO16 { LeExact(x, 2); }
    if x < TWO32 { LeExact(x, 4); }
    if x < TWO64 { LeExact(x, 8); }
  }

  lemma DivModCompose(x: nat, p: nat)
    requires p > 0
    ensures x % (256 * p) == x % 256 + 256 * (x / 256 % p)
  {
    var q, r := x / 256, x % 256;
    var a, b := q / p, q % p;
    assert q == p * a + b;
    assert x == 256 * q + r;
    assert x == (256 * p) * a + (256 * b + r);
    assert 256 * b + r < 256 * p;
    ModUnique(x, 256 * p, a, 256 * b + r);
  }

  lemma ModUnique(x: nat, m: nat, a: nat, r: nat)
    requires m > 0 && x == m * a + r && r < m
    ensures x % m == r
  {
    var a', r' := x / m, x % m;
    assert x == m * a' + r';
    assert m * (a - a') == r' - r;
    MulGrows(m, a - a');
  }

  lemma MulGrows(m: int, d: int)
    requires m >= 0
    ensures d >= 1 ==> m * d >= m
    ensures d <= -1 ==> m * d <= -m
  {
  }

  lemma Pow256Values()
    ensures Pow256(2) == TWO16
    ensures Pow256(4) == TWO32
    ensures Pow256(8) == TWO64
  {
    assert Pow256(1) == 256;
    assert Pow256(3) == 256 * TWO16;
    assert Pow256(5) == 256 * TWO32;
    assert Pow256(6) == 256 * 256 * TWO32;
    assert Pow256(7) == 256 * 256 * 256 * TWO32;
  }

  /** `i64::to_le_bytes` and `i64::from_le_bytes`. */
  function LeI64(x: int): (r: Bytes)
    ensures |r| == 8
  {
    Le(WrapU64(x), 8)
  }

  function FromLeI64(s: Bytes): (r: int)
    requires |s| == 8
    ensures -TWO63 <= r < TWO63
  {
    Pow256Values();
    WrapI64(FromLe(s))
  }

  lemma LeI64RoundTrip(x: int)
    ensures FromLeI64(LeI64(x)) == WrapI64(x)
  {
    hide Le, FromLe;
    LeExact248(WrapU64(x));
    assert x == WrapU64(x) + (x / TWO64) * TWO64;
    WrapShift(WrapU64(x), x / TWO64);
  }

  // ---- scanning -------------------------------------------------------------

  /** `memchr`: the first position at or after `from` that holds `c`, or the length. */
  function Find(s: Bytes, from: nat, c: byte): (r: nat)
    requires from <= |s|
    ensures from <= r <= |s|
    ensures forall i :: from <= i < r ==> s[i] != c
    ensures r < |s| ==> s[r] == c
    decreases |s| - from
  {
    if from == |s| || s[from] == c then from else Find(s, from + 1, c)
  }

  /** A position found in a buffer is found again once more bytes have arrived. */
  lemma {:induction false} FindStable(s: Bytes, t: Bytes, from: nat, c: byte)
    requires from <= |s| && s <= t
    requires Find(s, from, c) < |s|
    ensures Find(t, from, c) == Find(s, from, c)
    decreases |s| - from
  {
    assert s[from] == t[from];
    if s[from] != c {
      FindStable(s, t, from + 1, c);
    }
  }

  // ---- decimal text ---------------------------------------------------------

  predicate IsDigit(b: byte) {
    48 <= b <= 57
  }

  predicate AllDigits(s: Bytes) {
    forall i :: 0 <= i < |s| ==> IsDigit(s[i])
  }

  /** The number that a string of digits denotes. */
  function DecVal(s: Bytes): (r: int)
    requires AllDigits(s)
    ensures r >= 0
  {
    if s == [] then 0 else DecVal(s[..|s| - 1]) * 10 + (s[|s| - 1] - 48)
  }

  /** `itoa` on an unsigned number. */
  function Itoa(n: nat): (r: Bytes)
    ensures |r| > 0 && AllDigits(r) && DecVal(r) == n
  {
    if n < 10 then
      assert DecVal([]) == 0;
      [48 + n]
    else
      var r := Itoa(n / 10) + [48 + n % 10];
      assert r[..|r| - 1] == Itoa(n / 10);
      r
  }

  /** `itoa` on a signed number. */
  function ItoaInt(n: int): (r: Bytes)
    ensures |r| > 0
  {
    if n < 0 then [45] + Itoa(-n) else Itoa(n)
  }

  /** `str::parse::<u64>`: an optional plus sign, then digits, rejecting values past the width. */
  function ParseU64(s: Bytes): (r: Option<nat>)
    ensures r.Some? ==> r.value < TWO64
  {
    var d := if |s| > 0 && s[0] == 43 then s[1..] else s;
    if d == [] || !AllDigits(d) || DecVal(d) >= TWO64 then None else Some(DecVal(d))
  }

  /** `str::parse::<i64>`: an optional sign, then digits, rejecting values past the width. */
  function ParseI64(s: Bytes): (r: Option<int>)
    ensures r.Some? ==> -TWO63 <= r.value < TWO63
  {
    var neg := |s| > 0 && s[0] == 45;
    var d := if |s| > 0 && (s[0] == 43 || s[0] == 45) then s[1..] else s;
    if d == [] || !AllDigits(d) then None
    else
      var v: int := if neg then -DecVal(d) else DecVal(d);
      if -TWO63 <= v < TWO63 then Some(v) else None
  }

  lemma ParseU64Itoa(n: nat)
    requires n < TWO64
    ensures ParseU64(Itoa(n)) == Some(n)
  {
    var s := Itoa(n);
    assert IsDigit(s[0]);
  }

  /** Printing a 64-bit integer and reading it back is the identity. */
  lemma ParseI64ItoaInt(n: int)
    requires -TWO63 <= n < TWO63
    ensures ParseI64(ItoaInt(n)) == Some(n)
  {
    var s := ItoaInt(n);
    if n < 0 {
      assert s[1..] == Itoa(-n);
    } else {
      assert IsDigit(s[0]);
    }
  }

  lemma {:induction false} ItoaLength(n: nat, d: nat, bound: nat)
    requires n < bound && bound == Tens(d) && d > 0
    ensures |Itoa(n)| <= d
    decreases d
  {
    if n >= 10 {
      ItoaLength(n / 10, d - 1, bound / 10);
    }
  }

  function Tens(d: nat): nat {
    if d == 0 then 1 else 10 * Tens(d - 1)
  }

  /** A 64-bit number has at most twenty digits. */
  lemma ItoaShort(n: nat)
    requires n < TWO64
    ensures |Itoa(n)| <= 20
  {
    assert Tens(4) == 10_000;
    assert Tens(8) == 10_000 * Tens(4);
    assert Tens(12) == 10_000 * Tens(8);
    assert Tens(16) == 10_000 * Tens(12);
    assert Tens(20) == 10_000 * Tens(16);
    ItoaLength(n, 20, Tens(20));
  }

  // ---- case-insensitive comparison -------------------------------------------

  function ToLower(b: byte): byte {
    if 65 <= b <= 90 then b + 32 else b
  }

  predicate EqIgnoreCase(a: Bytes, b: Bytes) {
    |a| == |b| && forall i :: 0 <= i < |a| ==> ToLower(a[i]) == ToLower(b[i])
  }

  // ---- concatenation --------------------------------------------------------

  function Concat(parts: seq<Bytes>): (r: Bytes)
  {
    if parts == [] then [] else parts[0] + Concat(parts[1..])
  }

  lemma {:induction false} ConcatAppend(a: seq<Bytes>, b: seq<Bytes>)
    ensures Concat(a + b) == Concat(a) + Concat(b)
  {
    if a == [] {
      assert a + b == b;
    } else {
      assert (a + b)[1..] == a[1..] + b;
      ConcatAppend(a[1..], b);
    }
  }

  datatype Option<+T> = None | Some(value: T)
}
