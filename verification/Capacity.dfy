/** The load-factor policy of the shared buffer: `int(float(size) / 0.75f)`. */
module Capacity {
  import opened Binary32

  /** float(size): off by at most half of its unit, which is at most `size` * 2^-23. */
  lemma ToFloatError(size: nat)
    requires size > 0
    ensures var v, u := Round(size, 1).Scaled(), Pow2(Round(size, 1).exponent);
            && 2 * v <= 0x100_0000 * size + u && 0x100_0000 * size <= 2 * v + u
            && u <= size < 2 * u
  {
    RoundError(size, 1);
    RoundExponent(size, 1);
  }

  /** float(size) / 0.75f */
  function Quotient(size: nat): Float
    requires size > 0
  {
    ToFloatError(size);
    Round(4 * Round(size, 1).Scaled(), 0x180_0000)
  }

  function NewSize(size: nat): nat
    requires size > 0
  {
    Quotient(size).Truncated()
  }

  /** Whether the conversion to `int` is defined. */
  predicate CastDefined(size: nat)
    requires size > 0
  {
    NewSize(size) <= 0x7FFF_FFFF
  }

  lemma TimesDivisor(v: nat, b: nat)
    requires b == 0x180_0000
    ensures v * b == 0x180_0000 * v
  {
  }

  /** Dividing the value f/2^23 by 0.75: off by at most half a unit u of the quotient. */
  lemma DivideError(f: nat, b: nat)
    requires b == 0x180_0000 && 4 * f >= b
    ensures var q := Round(4 * f, b);
            var v, u := q.Scaled(), Pow2(q.exponent);
            && 6 * v <= 8 * f + 3 * u && 8 * f <= 6 * v + 3 * u
            && 0x180_0000 * u <= 4 * f < 0x300_0000 * u
  {
    RoundError(4 * f, b);
    RoundExponent(4 * f, b);
    var q := Round(4 * f, b);
    TimesDivisor(q.Scaled(), b);
    TimesDivisor(Pow2(q.exponent), b);
  }

  /** Whatever the rounding does, the new allocation holds the size asked for, is at most twice
      it, and is between 5/4 and 10/7 of it up to a constant. */
  lemma NewSizeBounds(size: nat)
    requires size > 0
    ensures size <= NewSize(size) <= 2 * size
    ensures 5 * size <= 4 * NewSize(size) + 3 && 7 * NewSize(size) <= 10 * size
  {
    ToFloatError(size);
    DivideError(Round(size, 1).Scaled(), 0x180_0000);
  }

  /** A value f/2^23 within u/2 of the size, and a value v/2^23 within w/2 of its quotient. */
  lemma TwoRoundings(size: nat, u: nat, f: nat, w: nat, v: nat)
    requires 2 * f <= 0x100_0000 * size + u && 0x100_0000 * size <= 2 * f + u && u <= size
    requires 6 * v <= 8 * f + 3 * w && 8 * f <= 6 * v + 3 * w && 0x180_0000 * w <= 4 * f
    ensures 0x20_0000 * 3 * (v / 0x80_0000) <= 0x20_0001 * 4 * size
    ensures 0x1F_FFFF * 4 * size <= 0x20_0000 * (3 * (v / 0x80_0000) + 3)
  {
    var n := v / 0x80_0000;
    assert 0x80_0000 * n <= v < 0x80_0000 * n + 0x80_0000;
    assert 0xFF_FFFF * size <= 2 * f <= 0x100_0001 * size;
    assert 0x60_0000 * w <= f;
    assert 0xFF_FFFF * f <= 0xC0_0000 * v <= 0x100_0001 * f;
  }

  /** More closely: 4/3 of the size up to a relative error of 2^-21 and the truncation. */
  lemma NewSizeClose(size: nat)
    requires size > 0
    ensures 0x20_0000 * 3 * NewSize(size) <= 0x20_0001 * 4 * size
    ensures 0x1F_FFFF * 4 * size <= 0x20_0000 * (3 * NewSize(size) + 3)
  {
    ToFloatError(size);
    var f := Round(size, 1);
    DivideError(f.Scaled(), 0x180_0000);
    var q := Quotient(size);
    TwoRoundings(size, Pow2(f.exponent), f.Scaled(), Pow2(q.exponent), q.Scaled());
  }

  lemma ToFloatExact(size: nat)
    requires 0 < size < 0x100_0000
    ensures Round(size, 1).Scaled() == 0x80_0000 * size
  {
    RoundExact(size, 1);
  }

  /** Below 6291456 both roundings are invisible after truncation: the new size is the floor
      of 4/3 of the size. */
  lemma NewSizeExact(size: nat)
    requires 0 < size < 6291456
    ensures NewSize(size) == 4 * size / 3
  {
    ToFloatExact(size);
    ThirdsExact(size, 0x80_0000 * size, 0x180_0000);
  }

  lemma ThirdsExact(size: nat, f: nat, b: nat)
    requires 0 < size < 6291456 && f == 0x80_0000 * size && b == 0x180_0000
    ensures 4 * f >= b && Round(4 * f, b).Truncated() == 4 * size / 3
  {
    if size % 3 == 0 {
      WholeQuotient(size / 3, f, b);
    } else {
      DivideError(f, b);
      SmallUnit(Round(4 * f, b).exponent);
      FloorOfThirds(size, Round(4 * f, b).Scaled());
    }
  }

  lemma WholeQuotient(third: nat, f: nat, b: nat)
    requires 0 < third < 2097152 && f == 0x180_0000 * third && b == 0x180_0000
    ensures 4 * f >= b && Round(4 * f, b).Truncated() == 4 * third
  {
    TimesDivisor(4 * third, b);
    RoundExact(4 * third, b);
  }

  /** A value within 1/4 of a non-integral multiple of 1/3 has the same floor. */
  lemma FloorOfThirds(size: nat, v: nat)
    requires size % 3 != 0
    requires 6 * v <= 0x400_0000 * size + 0xC0_0000 && 0x400_0000 * size <= 6 * v + 0xC0_0000
    ensures v / 0x80_0000 == 4 * size / 3
  {
  }

  lemma SmallUnit(e: nat)
    requires Pow2(e) < 0x80_0000
    ensures Pow2(e) <= 0x40_0000
  {
    SomePowers();
    ExponentBelow(e, 23);
    Pow2Mono(e, 22);
  }

  /** The bound is sharp: just above it rounding shows. */
  lemma NewSizeInexact()
    ensures NewSize(6291458) == 4 * 6291458 / 3 + 1
  {
    ToFloatExact(6291458);
    OneTooMany(0x80_0000 * 6291458, 0x180_0000);
  }

  lemma OneTooMany(f: nat, b: nat)
    requires f == 0x80_0000 * 6291458 && b == 0x180_0000
    ensures Round(4 * f, b).Truncated() == 4 * 6291458 / 3 + 1
  {
    DivideError(f, b);
    var q := Round(4 * f, b);
    SomePowers();
    ExponentBelow(q.exponent, 24);
    ExponentBelow(22, q.exponent);
    WholeUnits(q.significand, Pow2(q.exponent));
  }

  /** With a unit of 1 the value is an integer. */
  lemma WholeUnits(m: nat, p: nat)
    requires p == 0x80_0000
    ensures m * p == 0x80_0000 * m
  {
  }

  /** The conversion to `int` is defined exactly below 1610612672, which is 64 short of three
      quarters of 2^31: from there on float(size) already rounds up to it. */
  lemma CastDefinedBelow(size: nat)
    requires size > 0
    ensures CastDefined(size) <==> size < 1610612672
  {
    if size < 1610612672 {
      CastFits(size);
    } else {
      CastOverflows(size);
    }
  }

  /** With the unit 2^30 / 2^23, or a smaller one. */
  lemma UnitBelow31(e: nat)
    requires Pow2(e) < 0x8000_0000
    ensures Pow2(e) == 0x4000_0000 || 2 * Pow2(e) <= 0x4000_0000
  {
    SomePowers();
    ExponentBelow(e, 31);
    if e < 30 { Pow2Mono(e, 29); }
  }

  lemma CoarseMultiple(m: nat, p: nat)
    requires p == 0x4000_0000
    ensures m * p == 0x4000_0000 * m
  {
  }

  /** float(size) stays below three quarters of 2^31. */
  lemma FloatFits(size: nat)
    requires 0 < size < 1610612672
    ensures Round(size, 1).Scaled() <= 12582911 * 0x4000_0000
  {
    ToFloatError(size);
    var f := Round(size, 1);
    UnitBelow31(f.exponent);
    if Pow2(f.exponent) == 0x4000_0000 { CoarseMultiple(f.significand, Pow2(f.exponent)); }
  }

  lemma QuotientFits(f: nat, b: nat)
    requires b == 0x180_0000 && b <= 4 * f && f <= 12582911 * 0x4000_0000
    ensures Round(4 * f, b).Truncated() <= 0x7FFF_FFFF
  {
    DivideError(f, b);
    var q := Round(4 * f, b);
    UnitBelow31(q.exponent);
    if Pow2(q.exponent) == 0x4000_0000 { CoarseMultiple(q.significand, Pow2(q.exponent)); }
  }

  lemma CastFits(size: nat)
    requires 0 < size < 1610612672
    ensures CastDefined(size)
  {
    ToFloatError(size);
    FloatFits(size);
    QuotientFits(Round(size, 1).Scaled(), 0x180_0000);
  }

  lemma TieToEven(x: nat, p: nat)
    requires x == 1610612672 * 0x80_0000 && p == 0x4000_0000
    ensures Nearest(x, p) == 12582912
  {
    DivUnique(x, p, 12582911, 0x2000_0000);
  }

  /** float(size) reaches three quarters of 2^31; at the first such size by a tie going to even. */
  lemma FloatOverflows(size: nat)
    requires size >= 1610612672
    ensures Round(size, 1).Scaled() >= 12582912 * 0x4000_0000
  {
    ToFloatError(size);
    var f := Round(size, 1);
    var p := Pow2(f.exponent);
    SomePowers();
    if p < 0x8000_0000 {
      UnitBelow31(f.exponent);
      CoarseMultiple(f.significand, p);
      if size == 1610612672 { TieToEven(size * 0x80_0000, p); }
    } else {
      assert 2 * f.Scaled() >= 0xFF_FFFF * size;
    }
  }

  lemma QuotientOverflows(f: nat, b: nat)
    requires b == 0x180_0000 && f >= 12582912 * 0x4000_0000
    ensures Round(4 * f, b).Truncated() >= 0x8000_0000
  {
    DivideError(f, b);
    var q := Round(4 * f, b);
    if Pow2(q.exponent) < 0x8000_0000 { UnitBelow31(q.exponent); }
    RoundAtLeast(4 * f, b);
  }

  lemma CastOverflows(size: nat)
    requires size >= 1610612672
    ensures !CastDefined(size)
  {
    FloatOverflows(size);
    QuotientOverflows(Round(size, 1).Scaled(), 0x180_0000);
  }
}
