/** 64-bit signed arithmetic as the Go language defines it: sums, differences and
    products wrap around, division and remainder truncate toward zero. */
module Int64 {

  const MIN := -0x8000_0000_0000_0000
  const MAX := 0x7FFF_FFFF_FFFF_FFFF
  const MODULUS := 0x1_0000_0000_0000_0000

  type int64 = x: int | MIN <= x <= MAX

  predicate InRange(x: int) {
    MIN <= x <= MAX
  }

  /** Equality modulo 2^64. */
  predicate Congruent(x: int, y: int) {
    (x - y) % MODULUS == 0
  }

  /** The int64 that a machine word keeps of an exact result. */
  function Wrap(x: int): (r: int64)
    ensures Congruent(r, x)
    ensures InRange(x) ==> r == x
  {
    (x - MIN) % MODULUS + MIN
  }

  /** Only one int64 is congruent to a given integer. */
  lemma WrapUnique(x: int, r: int64)
    requires Congruent(r, x)
    ensures r == Wrap(x)
  {
    var w := Wrap(x);
    assert (r - x) % MODULUS == 0 && (w - x) % MODULUS == 0;
    var i, j := (r - x) / MODULUS, (w - x) / MODULUS;
    assert r - w == (i - j) * MODULUS;
  }

  /** Congruence survives a later addition, so intermediate wraps do not matter. */
  lemma CongruentSum(a: int, b: int, c: int, d: int)
    requires Congruent(a, b) && Congruent(c, d)
    ensures Congruent(a + c, b + d) && Congruent(a - c, b - d)
  {
    var i, j := (a - b) / MODULUS, (c - d) / MODULUS;
    assert (a + c) - (b + d) == (i + j) * MODULUS;
    assert (a - c) - (b - d) == (i - j) * MODULUS;
  }

  /** Division truncated toward zero. */
  function Quo(a: int64, b: int64): (q: int64)
    requires b > 0
    ensures a >= 0 ==> 0 <= q <= a
    ensures a <= 0 ==> a <= q <= 0
  {
    var n: int := a;
    if n >= 0 then DivBound(n, b); n / b else DivBound(-n, b); -((-n) / b)
  }

  /** Remainder with the sign of the dividend. */
  function Rem(a: int64, b: int64): (r: int64)
    requires b > 0
    ensures a == b * Quo(a, b) + r
    ensures -b < r < b && (a >= 0 ==> r >= 0) && (a <= 0 ==> r <= 0)
  {
    a - b * Quo(a, b)
  }

  lemma DivBound(a: nat, b: int)
    requires b > 0
    ensures 0 <= a / b <= a
  {
    var q := a / b;
    assert a == b * q + a % b;
    MulAtLeast(b, q);
  }

  lemma MulAtLeast(b: int, q: nat)
    requires b > 0
    ensures b * q >= q
  {
  }
}
