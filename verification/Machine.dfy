/** Two's complement 32-bit arithmetic, powers of two and bit lengths, as the fixed-point
    and rasterizer code relies on them.  Dafny's `int` is unbounded, so every place where
    the C++ type narrows a value is written out with `Wrap32` or `% TWO32`. */
module Machine {

  const TWO31: int := 0x8000_0000
  const TWO32: int := 0x1_0000_0000

  /** The value is representable as int32_t. */
  predicate Fits32(x: int) {
    -TWO31 <= x < TWO31
  }

  /** Conversion to int32_t: the representative of `x` modulo 2^32 that fits. */
  function Wrap32(x: int): (r: int)
    ensures Fits32(r)
    ensures Fits32(x) ==> r == x
  {
    var m := x % TWO32;
    if m < TWO31 then m else m - TWO32
  }

  /** `Wrap32(x)` is the only fitting value that differs from x by a multiple of 2^32. */
  lemma WrapUnique(x: int, y: int, k: int)
    requires Fits32(y) && x == y + k * TWO32
    ensures Wrap32(x) == y
  {
    DivModUnique(x, TWO32, if y < 0 then k - 1 else k, if y < 0 then y + TWO32 else y);
  }

  /** How many multiples of 2^32 the conversion removes. */
  lemma WrapTurns(x: int) returns (k: int)
    ensures x == Wrap32(x) + k * TWO32
  {
    k := x / TWO32;
    if x % TWO32 >= TWO31 {
      k := k + 1;
    }
  }

  /** Adding to a wrapped number. */
  lemma WrapAdd(y: int, d: int)
    ensures Wrap32(Wrap32(y) + d) == Wrap32(y + d)
  {
    var m := WrapTurns(y);
    var n := WrapTurns(Wrap32(y) + d);
    WrapUnique(y + d, Wrap32(Wrap32(y) + d), m + n);
  }

  function Abs(x: int): nat {
    if x < 0 then -x else x
  }

  /** C's integer division, which truncates toward zero. */
  function TruncDiv(a: int, b: int): int
    requires b != 0
  {
    if (a < 0) == (b < 0) then Abs(a) / Abs(b) else -(Abs(a) / Abs(b))
  }

  function Min(a: int, b: int): int {
    if a < b then a else b
  }

  function Max(a: int, b: int): int {
    if a < b then b else a
  }

  function Pow2(k: nat): (p: nat)
    ensures p > 0
  {
    if k == 0 then 1 else 2 * Pow2(k - 1)
  }

  /** Number of binary digits of `x`; zero has none. */
  function BitLen(x: nat): (n: nat) {
    if x == 0 then 0 else 1 + BitLen(x / 2)
  }

  /** Leading zeros of the 32-bit pattern of a non-negative int. */
  function Clz(x: nat): int {
    32 - BitLen(x)
  }

  lemma {:induction false} Pow2Add(a: nat, b: nat)
    ensures Pow2(a + b) == Pow2(a) * Pow2(b)
  {
    if a == 0 {
    } else {
      Pow2Add(a - 1, b);
      assert Pow2(a + b) == 2 * (Pow2(a - 1) * Pow2(b)) == (2 * Pow2(a - 1)) * Pow2(b);
    }
  }

  lemma {:induction false} Pow2Monotone(a: nat, b: nat)
    requires a <= b
    ensures Pow2(a) <= Pow2(b)
  {
    if a < b {
      Pow2Monotone(a, b - 1);
    }
  }

  lemma Pow2Values()
    ensures Pow2(8) == 256 && Pow2(16) == 0x1_0000 && Pow2(31) == TWO31 && Pow2(32) == TWO32
  {
    assert Pow2(8) == 256;
    Pow2Add(8, 8);
    Pow2Add(16, 16);
    assert Pow2(32) == 2 * Pow2(31);
  }

  /** The bit length brackets a positive number between neighbouring powers of two. */
  lemma {:induction false} BitLenBounds(x: nat)
    ensures x < Pow2(BitLen(x))
    ensures x > 0 ==> BitLen(x) > 0 && Pow2(BitLen(x) - 1) <= x
  {
    if x > 1 {
      BitLenBounds(x / 2);
      assert BitLen(x) - 1 == BitLen(x / 2);
      assert Pow2(BitLen(x) - 1) == 2 * Pow2(BitLen(x) - 2);
    } else if x == 1 {
      assert BitLen(1) == 1 + BitLen(0) == 1;
      assert Pow2(1) == 2 * Pow2(0) == 2;
    }
  }

  /** ... and is the only number that does. */
  lemma BitLenUnique(x: nat, n: nat)
    requires n > 0 && Pow2(n - 1) <= x < Pow2(n)
    ensures BitLen(x) == n
  {
    BitLenBounds(x);
    if BitLen(x) < n {
      Pow2Monotone(BitLen(x), n - 1);
    } else if n < BitLen(x) {
      Pow2Monotone(n, BitLen(x) - 1);
    }
  }

  lemma BitLenInt32(x: nat)
    requires x < TWO31
    ensures BitLen(x) <= 31
  {
    Pow2Values();
    BitLenBounds(x);
    if BitLen(x) > 31 {
      Pow2Monotone(31, BitLen(x) - 1);
    }
  }

  /** Shifting left by k adds k binary digits. */
  lemma BitLenShift(x: nat, k: nat)
    requires x > 0
    ensures BitLen(x * Pow2(k)) == BitLen(x) + k
  {
    BitLenBounds(x);
    var n := BitLen(x);
    Pow2Add(n, k);
    Pow2Add(n - 1, k);
    MulMonotone(Pow2(n - 1), x, Pow2(k));
    MulStrict(x, Pow2(n), Pow2(k));
    BitLenUnique(x * Pow2(k), n + k);
  }

  lemma MulMonotone(a: int, b: int, c: nat)
    requires a <= b
    ensures a * c <= b * c
  {
  }

  lemma MulStrict(a: int, b: int, c: nat)
    requires a < b && c > 0
    ensures a * c < b * c
  {
  }

  lemma DivModUnique(x: int, d: int, q: int, r: int)
    requires d > 0 && x == q * d + r && 0 <= r < d
    ensures x / d == q && x % d == r
  {
    var p := x / d;
    assert x == p * d + x % d;
    if p < q {
      MulMonotone(p + 1, q, d);
    } else if q < p {
      MulMonotone(q + 1, p, d);
    }
  }

  lemma QuotientNonNegative(x: int, c: int)
    requires x >= 0 && c > 0
    ensures x / c >= 0
  {
  }

  lemma DivBounds(x: int, d: int)
    requires d > 0
    ensures (x / d) * d <= x < (x / d + 1) * d
  {
  }

  /** A quotient is determined by the interval its dividend falls into. */
  lemma QuotientUnique(x: nat, d: nat, q: int)
    requires d > 0 && q * d <= x < (q + 1) * d
    ensures x / d == q
  {
    var p := x / d;
    assert p * d <= x < (p + 1) * d;
    if p < q {
      MulMonotone(p + 1, q, d);
    } else if q < p {
      MulMonotone(q + 1, p, d);
    }
  }

  /** Scaling dividend and divisor alike leaves the quotient unchanged. */
  lemma QuotientScale(x: nat, d: nat, k: nat)
    requires d > 0 && k > 0
    ensures d * k > 0
    ensures (x * k) / (d * k) == x / d
  {
    var q := x / d;
    assert q * d <= x < (q + 1) * d;
    MulMonotone(q * d, x, k);
    MulStrict(x, (q + 1) * d, k);
    assert (q * d) * k == q * (d * k);
    assert ((q + 1) * d) * k == (q + 1) * (d * k);
    QuotientUnique(x * k, d * k, q);
  }
}
