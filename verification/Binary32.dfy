/** Binary32 arithmetic, bit for bit, for values of at least 1: rounding to a 24-bit
    significand, ties to even (IEEE 754-2019, sections 3.4 and 4.3.1). */
module Binary32 {

  function Pow2(k: nat): (p: nat)
    ensures p > 0
  {
    if k == 0 then 1 else 2 * Pow2(k - 1)
  }

  /** The integer nearest to a/b, the even one of two equally near. */
  function Nearest(a: nat, b: nat): nat
    requires b > 0
  {
    var q, r := a / b, a % b;
    if 2 * r < b || (2 * r == b && q % 2 == 0) then q else q + 1
  }

  lemma NearestError(a: nat, b: nat)
    requires b > 0
    ensures 2 * (Nearest(a, b) * b) <= 2 * a + b
    ensures 2 * a <= 2 * (Nearest(a, b) * b) + b
  {
    var q, r := a / b, a % b;
    assert a == q * b + r;
    assert (q + 1) * b == q * b + b;
  }

  /** The exponent e with 2^e <= n < 2^(e+1). */
  function Log2(n: nat): (e: nat)
    requires n > 0
    ensures Pow2(e) <= n < 2 * Pow2(e)
  {
    if n == 1 then 0 else Log2(n / 2) + 1
  }

  /** A finite value of at least 1: significand * 2^exponent / 2^23. */
  datatype Float = Float(significand: nat, exponent: nat) {
    /** 2^23 times the value. */
    function Scaled(): nat { significand * Pow2(exponent) }

    /** Conversion to an integer type truncates. */
    function Truncated(): nat { Scaled() / 0x80_0000 }
  }

  /** a/b rounded to binary32. */
  function Round(a: nat, b: nat): Float
    requires 0 < b <= a
  {
    QuotientPositive(a, b);
    var e := Log2(a / b);
    Float(Nearest(a * 0x80_0000, b * Pow2(e)), e)
  }

  lemma QuotientPositive(a: nat, b: nat)
    requires 0 < b <= a
    ensures a / b > 0
  {
    assert a == a / b * b + a % b;
  }

  /** The exponent is the one of the exact quotient. */
  lemma RoundExponent(a: nat, b: nat)
    requires 0 < b <= a
    ensures b * Pow2(Round(a, b).exponent) <= a < 2 * (b * Pow2(Round(a, b).exponent))
  {
    QuotientPositive(a, b);
    Bracket(a, b, a / b, Pow2(Log2(a / b)));
  }

  lemma Bracket(a: nat, b: nat, q: nat, p: nat)
    requires q * b <= a < q * b + b && p <= q < 2 * p
    ensures b * p <= a < 2 * (b * p)
  {
    MulMono(b, p, q);
    MulMono(b, q + 1, 2 * p);
    assert b * (q + 1) == q * b + b;
    assert b * (2 * p) == 2 * (b * p);
  }

  lemma MulMono(b: nat, x: nat, y: nat)
    requires x <= y
    ensures b * x <= b * y
  {
  }

  /** The rounding error is at most half a unit in the last place, so at most 2^-24 of the value. */
  lemma RoundError(a: nat, b: nat)
    requires 0 < b <= a
    ensures var v, u := Round(a, b).Scaled(), b * Pow2(Round(a, b).exponent);
            && 2 * (v * b) <= 2 * (a * 0x80_0000) + u
            && 2 * (a * 0x80_0000) <= 2 * (v * b) + u
            && u <= a
  {
    var f := Round(a, b);
    var p := Pow2(f.exponent);
    RoundExponent(a, b);
    NearestError(a * 0x80_0000, b * p);
    MulSwap(f.significand, b, p);
  }

  lemma NearestTie(a: nat, b: nat)
    requires b > 0 && (2 * a == 2 * (Nearest(a, b) * b) + b || 2 * a + b == 2 * (Nearest(a, b) * b))
    ensures Nearest(a, b) % 2 == 0
  {
    var q, r := a / b, a % b;
    assert a == q * b + r;
    assert (q + 1) * b == q * b + b;
  }

  /** Of two values equally near, the one with the even significand is taken. */
  lemma RoundTie(a: nat, b: nat)
    requires 0 < b <= a
    requires var v, u := Round(a, b).Scaled(), b * Pow2(Round(a, b).exponent);
             2 * (a * 0x80_0000) == 2 * (v * b) + u || 2 * (a * 0x80_0000) + u == 2 * (v * b)
    ensures Round(a, b).significand % 2 == 0
  {
    var f := Round(a, b);
    var p := Pow2(f.exponent);
    RoundExponent(a, b);
    MulSwap(f.significand, b, p);
    NearestTie(a * 0x80_0000, b * p);
  }

  /** The significand has its leading bit set. */
  lemma RoundAtLeast(a: nat, b: nat)
    requires 0 < b <= a
    ensures Round(a, b).Scaled() >= 0x80_0000 * Pow2(Round(a, b).exponent)
  {
    RoundExponent(a, b);
    var p := Pow2(Round(a, b).exponent);
    NearestAtLeast(a * 0x80_0000, b * p, 0x80_0000);
    MulMono(p, 0x80_0000, Round(a, b).significand);
  }

  lemma NearestAtLeast(x: nat, c: nat, k: nat)
    requires c > 0 && c * k <= x
    ensures Nearest(x, c) >= k
  {
    assert x == x / c * c + x % c;
    if x / c < k { MulMono(c, x / c + 1, k); }
  }

  lemma MulSwap(m: nat, b: nat, p: nat)
    ensures m * (b * p) == m * p * b
  {
  }

  lemma Pow2Split(i: nat, j: nat)
    ensures Pow2(i + j) == Pow2(i) * Pow2(j)
  {
    if i > 0 { Pow2Split(i - 1, j); }
  }

  lemma SomePowers()
    ensures Pow2(22) == 0x40_0000 && Pow2(23) == 0x80_0000 && Pow2(24) == 0x100_0000
    ensures Pow2(29) == 0x2000_0000 && Pow2(30) == 0x4000_0000 && Pow2(31) == 0x8000_0000
  {
    assert Pow2(8) == 256;
    Pow2Split(8, 8);
    Pow2Split(16, 6);
    Pow2Split(8, 21);
  }

  lemma Pow2Mono(i: nat, j: nat)
    requires i <= j
    ensures Pow2(i) <= Pow2(j)
  {
    if i < j { Pow2Mono(i, j - 1); }
  }

  lemma DivUnique(a: nat, y: nat, q: nat, r: nat)
    requires a == q * y + r && r < y
    ensures a / y == q && a % y == r
  {
    var d := a / y - q;
    assert a == a / y * y + a % y;
    assert d * y == r - a % y;
    MulSign(d, y);
  }

  lemma MulSign(d: int, y: nat)
    ensures d >= 1 ==> d * y >= y
    ensures d <= -1 ==> d * y + y <= 0
  {
  }

  lemma NearestExact(k: nat, c: nat)
    requires c > 0
    ensures Nearest(k * c, c) == k
  {
    DivUnique(k * c, c, k, 0);
  }

  lemma ExponentBelow(e: nat, k: nat)
    requires Pow2(e) < Pow2(k)
    ensures e < k
  {
    if e >= k { Pow2Mono(k, e); }
  }

  /** A quotient that is an integer below 2^24 is represented exactly. */
  lemma RoundExact(n: nat, b: nat)
    requires 0 < n < 0x100_0000 && 0 < b <= n * b
    ensures Round(n * b, b).Scaled() == n * 0x80_0000
  {
    DivUnique(n * b, b, n, 0);
    var e := Log2(n);
    SomePowers();
    ExponentBelow(e, 24);
    ExactSignificand(n, b, e);
  }

  lemma ExactSignificand(n: nat, b: nat, e: nat)
    requires b > 0 && e <= 23
    ensures b * Pow2(e) > 0
    ensures Nearest(n * b * 0x80_0000, b * Pow2(e)) * Pow2(e) == n * 0x80_0000
  {
    SomePowers();
    Pow2Split(23 - e, e);
    ExactBy(n, b, Pow2(23 - e), Pow2(e), 0x80_0000);
  }

  lemma ExactBy(n: nat, b: nat, h: nat, p: nat, w: nat)
    requires h * p == w && b > 0 && p > 0
    ensures b * p > 0 && Nearest(n * b * w, b * p) * p == n * w
  {
    Rearrange(n, b, h, p);
    Positive(b, p);
    NearestExact(n * h, b * p);
    assert Nearest(n * b * w, b * p) == n * h;
    Associate(n, h, p);
  }

  lemma Positive(x: nat, y: nat)
    requires x > 0 && y > 0
    ensures x * y > 0
  {
  }

  lemma Associate(x: nat, y: nat, z: nat)
    ensures x * y * z == x * (y * z)
  {
  }

  lemma Rearrange(n: nat, b: nat, h: nat, p: nat)
    ensures n * b * (h * p) == n * h * (b * p)
  {
  }
}
