/** libpixelflinger/fixed.cpp: gglRecipQNormalized, a normalised reciprocal by a linear first
    guess and two Newton-Raphson steps in 2.30 fixed point. */
module Reciprocal {
  import opened Machine
  import opened Division

  const TWO30: int := 0x4000_0000
  const TWO62: int := 0x4000_0000_0000_0000
  const TWO63: int := 0x8000_0000_0000_0000
  /** 2.90625 in 2.30, the constant term of the first guess. */
  const GUESS: int := 0x2E800 * 0x4000

  /** The distance of a*r from one, in 2.62: a is 0.32 and r is 2.30. */
  function Residual(a: int, r: int): int {
    TWO62 - a * r
  }

  /** One Newton-Raphson step, r*(2 - a*r), with its truncations and its uint32_t result. */
  function Newton(a: nat, r: nat): int
    requires a < TWO32 && r < TWO32
  {
    (((TWO31 - (a * r) / TWO32) * r) / TWO30) % TWO32
  }

  /** (2^62 - p) squares: the product that makes Newton's iteration quadratic. */
  lemma SquareOfResidual(p: int, e: int)
    requires e == TWO62 - p
    ensures p * (TWO63 - p) == TWO62 * TWO62 - e * e
  {
  }

  lemma Regroup(a: int, r: int, k: int)
    ensures (a * TWO32) * (k * r) == (a * r) * (k * TWO32)
  {
  }

  lemma MulBetween(p: nat, lo: int, x: int, hi: int)
    requires lo <= x <= hi
    ensures p * lo <= p * x <= p * hi
  {
  }

  lemma Scaled(a: int, r: int, kr: int)
    ensures (a * TWO32) * (r * TWO30) == TWO62 * (a * r)
    ensures (a * TWO32) * (kr - TWO30) == (a * TWO32) * kr - TWO62 * a
  {
  }

  lemma Doubled(p: int)
    ensures p * (TWO63 - p + TWO32) == p * (TWO63 - p) + TWO32 * p
  {
  }

  lemma Collect(square: int, p: int, lo: int, pk: int, a: int, product: int)
    requires lo == TWO62 * TWO62 - square && lo <= pk <= lo + TWO32 * p
    requires pk - TWO62 * a <= TWO62 * product <= pk
    ensures square - TWO32 * p <= TWO62 * (TWO62 - product) <= square + TWO62 * a
  {
  }

  /** Before the uint32_t conversion the step squares the residual, up to truncation. */
  lemma StepSquares(a: nat, r: nat, p: int, e: int, k: int, r': int)
    requires 0 < a < TWO32 && 0 < r < TWO32 && p == a * r < TWO63 && e == Residual(a, r)
    requires k == TWO31 - p / TWO32 && r' == (k * r) / TWO30
    ensures e * e - TWO32 * p <= TWO62 * Residual(a, r') <= e * e + TWO62 * a
    ensures r' >= 0
  {
    var t := p / TWO32;
    assert t * TWO32 <= p < (t + 1) * TWO32;
    var kk, kr := k * TWO32, k * r;
    assert TWO63 - p <= kk <= TWO63 - p + TWO32;
    MulBetween(p, TWO63 - p, kk, TWO63 - p + TWO32);
    SquareOfResidual(p, e);
    Regroup(a, r, k);
    DivBounds(kr, TWO30);
    MulBetween(a * TWO32, kr - TWO30, r' * TWO30, kr);
    Scaled(a, r', kr);
    Doubled(p);
    Collect(e * e, p, p * (TWO63 - p), p * kk, a, a * r');
    MulMonotone(0, k, r);
    QuotientNonNegative(kr, TWO30);
  }

  /** A step from within b of one lands within c, when c covers the square and a truncation. */
  lemma StepBound(a: nat, r: nat, b: int, c: int)
    requires TWO31 <= a < TWO32 && 0 < r < TWO32 && 0 <= b < TWO62
    requires -b <= Residual(a, r) <= b
    requires b * b + TWO62 * TWO32 <= TWO62 * c && 0x2_0000_0000 <= c < TWO62
    ensures var r' := Newton(a, r); 0 < r' < TWO32 && -c <= Residual(a, r') <= c
  {
    var p, e := a * r, Residual(a, r);
    var k := TWO31 - p / TWO32;
    MulMonotone(0, a, r);
    var r' := (k * r) / TWO30;
    StepSquares(a, r, p, e, k, r');
    SquareBound(e, b);
    assert -c <= Residual(a, r') <= c;
    SmallFactor(a, r');
  }

  lemma SquareBound(e: int, b: int)
    requires -b <= e <= b
    ensures 0 <= e * e <= b * b
  {
  }

  /** With a at least 2^31 a reciprocal that good stays well inside uint32_t. */
  lemma SmallFactor(a: nat, r: nat)
    requires a >= TWO31 && 0 < a * r < 2 * TWO62
    ensures 0 < r < TWO32 && r % TWO32 == r
  {
    MulMonotone(TWO31, a, r);
  }

  /** The linear guess is within 3/32 of the reciprocal over the whole normalised range. */
  lemma FirstGuess(a: nat)
    requires TWO31 <= a < TWO32
    ensures var r := GUESS - a / 2;
            0 < r < TWO32 && -(3 * 0x200_0000_0000_0000) <= Residual(a, r) <= 3 * 0x200_0000_0000_0000
  {
    var r := GUESS - a / 2;
    var twice := 2 * GUESS - a;                    // 2r or 2r - 1
    assert twice <= 2 * r <= twice + 1;
    MulBetween(a, twice, 2 * r, twice + 1);
    GuessBelow(a);
    GuessAbove(a);
    assert a * (2 * r) == 2 * (a * r) && a * (twice + 1) == a * twice + a;
  }

  lemma GuessBelow(a: int)
    requires TWO31 <= a < TWO32
    ensures a * (2 * GUESS - a) >= 2 * TWO62 - 6 * 0x200_0000_0000_0000
  {
    var u, v := a - TWO31, TWO32 - a;
    NonNegativeProduct(u, v);
    Expand(a, TWO31, TWO32);
    Expand(a, 0, 2 * GUESS);
  }

  lemma NonNegativeProduct(u: int, v: int)
    requires u >= 0 && v >= 0
    ensures u * v >= 0
  {
  }

  lemma Expand(a: int, l: int, h: int)
    ensures (a - l) * (h - a) == (l + h) * a - a * a - l * h
  {
  }

  lemma GuessAbove(a: int)
    ensures a * (2 * GUESS - a) <= GUESS * GUESS
  {
    assert (a - GUESS) * (a - GUESS) >= 0;
  }

  /** Both Newton steps together: within 82/2^20 of one. */
  lemma TwoSteps(a: nat)
    requires TWO31 <= a < TWO32
    ensures var r0 := GUESS - a / 2;
            && 0 < r0 < TWO32 && 0 < Newton(a, r0) < TWO32
            && var r := Newton(a, Newton(a, r0));
               0 < r < TWO32 && -(82 * 0x400_0000_0000) <= Residual(a, r) <= 82 * 0x400_0000_0000
  {
    FirstGuess(a);
    var r1 := FirstStep(a, GUESS - a / 2);
    SecondStep(a, r1);
  }

  lemma FirstStep(a: nat, r: nat) returns (r': int)
    requires TWO31 <= a < TWO32 && 0 < r < TWO32
    requires -(3 * 0x200_0000_0000_0000) <= Residual(a, r) <= 3 * 0x200_0000_0000_0000
    ensures r' == Newton(a, r) && 0 < r' < TWO32
    ensures -(9 * 0x10_0000_0000_0000 + 0x100_0000_0000) <= Residual(a, r') <= 9 * 0x10_0000_0000_0000 + 0x100_0000_0000
  {
    r' := Newton(a, r);
    StepBound(a, r, 3 * 0x200_0000_0000_0000, 9 * 0x10_0000_0000_0000 + 0x100_0000_0000);
  }

  lemma SecondStep(a: nat, r: nat)
    requires TWO31 <= a < TWO32 && 0 < r < TWO32
    requires -(9 * 0x10_0000_0000_0000 + 0x100_0000_0000) <= Residual(a, r) <= 9 * 0x10_0000_0000_0000 + 0x100_0000_0000
    ensures var r' := Newton(a, r); 0 < r' < TWO32 && -(82 * 0x400_0000_0000) <= Residual(a, r') <= 82 * 0x400_0000_0000
  {
    StepBound(a, r, 9 * 0x10_0000_0000_0000 + 0x100_0000_0000, 82 * 0x400_0000_0000);
  }

  /** Scaling the bound back from the normalised operand to |x|. */
  lemma Denormalise(x: nat, lz: nat, a: nat, r: nat)
    requires lz <= 30 && a == x * Pow2(lz) && TWO31 <= a < TWO32
    requires -(82 * 0x400_0000_0000) <= Residual(a, r) <= 82 * 0x400_0000_0000
    ensures Abs((r / 2) * x - Pow2(61 - lz)) <= Pow2(48 - lz)
  {
    var h := r / 2;
    var p := 2 * Pow2(lz);
    ScaleConstants(lz);
    assert (h * x) * p == 2 * (h * a) by {
      MulRegroup(h, x, Pow2(lz));
    }
    assert 0 <= r - 2 * h <= 1;
    HalfProduct(a, r, h);
    var d := h * x - Pow2(61 - lz);
    assert d * p == (h * x) * p - Pow2(61 - lz) * p;
    CancelBound(d, Pow2(48 - lz), p);
  }

  lemma MulRegroup(h: int, x: int, p: int)
    ensures (h * x) * (2 * p) == 2 * (h * (x * p))
  {
    assert h * (x * p) == (h * x) * p;
  }

  lemma HalfProduct(a: int, r: int, h: int)
    requires 0 <= r - 2 * h <= 1 && a >= 0
    ensures a * r - a <= 2 * (h * a) <= a * r
  {
    MulBetween(a, 2 * h, r, 2 * h + 1);
    assert a * (2 * h) == 2 * (h * a) && a * (2 * h + 1) == a * (2 * h) + a;
  }

  lemma ScaleConstants(lz: nat)
    requires lz <= 30
    ensures Pow2(61 - lz) * (2 * Pow2(lz)) == TWO62
    ensures Pow2(48 - lz) * (2 * Pow2(lz)) == 0x2_0000_0000_0000
  {
    Pow2Values();
    Pow2Add(61 - lz, lz + 1);
    Pow2Add(48 - lz, lz + 1);
    assert Pow2(lz + 1) == 2 * Pow2(lz);
    assert Pow2(1) == 2 * Pow2(0) == 2;
    Pow2Add(31, 31);
    Pow2Add(32, 16);
    Pow2Add(48, 1);
  }

  lemma CancelBound(d: int, c: int, p: nat)
    requires p > 0 && -(c * p) <= d * p <= c * p
    ensures -c <= d <= c
  {
    assert (-c) * p == -(c * p);
    if d > c {
      MulStrict(c, d, p);
    } else if d < -c {
      MulStrict(d, -c, p);
    }
  }

  /** gglRecipQNormalized.  For |x| <= 2 it saturates.  Otherwise the result R, with the sign
      of x, and the exponent 29 - clz(|x|) satisfy |R|*|x| = 2^(61-clz) within a relative error
      of 2^-13. */
  method GglRecipQNormalized(x: int) returns (result: int, exponent: int)
    requires -TWO31 < x < TWO31
    ensures Abs(x) <= 2 ==> exponent == 0 && result == if x < 0 then -TWO31 else TWO31 - 1
    ensures Abs(x) > 2 ==> Fits32(result) && exponent == 29 - Clz(Abs(x)) && (result < 0 <==> x < 0)
    ensures Abs(x) > 2 ==> 0 <= Clz(Abs(x)) <= 30
    ensures Abs(x) > 2 ==> Abs(Abs(result) * Abs(x) - Pow2(61 - Clz(Abs(x)))) <= Pow2(48 - Clz(Abs(x)))
  {
    var a := Abs(x);
    if a <= 2 {
      return if x < 0 then -TWO31 else TWO31 - 1, 0;
    }
    var lz := GglClz(a);
    NormalRange(a, lz);
    ghost var x0 := a;
    a := (a * Pow2(lz)) % TWO32;
    var r := a;
    TwoSteps(a);
    if a != TWO31 {
      // the constant is an int that overflows; the uint32_t subtraction absorbs the wrap
      r := (Wrap32(GUESS) - r / 2) % TWO32;
      GuessWraps(a);
      r := Newton(a, r);
      r := Newton(a, r);
    }
    Denormalise(x0, lz, a, r);
    HalfFits(a, r);
    exponent := 30 - lz - 1;
    r := r / 2;
    result := if x < 0 then -r else r;
  }

  lemma NormalRange(x: nat, lz: int)
    requires 2 < x < TWO31 && lz == Clz(x)
    ensures 0 <= lz <= 30 && TWO31 <= x * Pow2(lz) < TWO32 && (x * Pow2(lz)) % TWO32 == x * Pow2(lz)
  {
    BitLenInt32(x);
    BitLenBounds(x);
    var n := BitLen(x);
    assert n == 1 + BitLen(x / 2) && BitLen(x / 2) == 1 + BitLen(x / 2 / 2);
    Pow2Values();
    Pow2Add(n, lz);
    Pow2Add(n - 1, lz);
    MulMonotone(Pow2(n - 1), x, Pow2(lz));
    MulStrict(x, Pow2(n), Pow2(lz));
  }

  lemma GuessWraps(a: nat)
    requires TWO31 <= a < TWO32
    ensures (Wrap32(GUESS) - a / 2) % TWO32 == GUESS - a / 2
  {
  }

  lemma HalfFits(a: nat, r: nat)
    requires TWO31 <= a < TWO32 && r < TWO32 && -(82 * 0x400_0000_0000) <= Residual(a, r)
    requires Residual(a, r) <= 82 * 0x400_0000_0000
    ensures 0 < r / 2 < TWO31
  {
    MulBetween(r, 0, a, TWO32);
  }
}
