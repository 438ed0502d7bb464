/** libpixelflinger/fixed.cpp and include/ggl_fixed.h: leading zeros, and the bit-at-a-time
    restoring division behind gglDivQ, gglDivQ16 and gglDivx. */
module Division {
  import opened Machine

  /** n * 2^q / d, truncated toward zero; a negative q scales the divisor instead. */
  ghost function ScaledQuotient(n: int, d: int, q: int): int
    requires d != 0
  {
    if q >= 0 then TruncDiv(n * Pow2(q), d) else TruncDiv(n, d * Pow2(-q))
  }

  /** What that number is: the remainder that it leaves is smaller than the divisor, and not on
      the other side of zero. */
  lemma QuotientMeans(n: int, d: int, q: int)
    requires d != 0
    ensures var x, y := if q >= 0 then n * Pow2(q) else n, if q >= 0 then d else d * Pow2(-q);
            var r := ScaledQuotient(n, d, q);
            && Abs(r) * Abs(y) <= Abs(x) < (Abs(r) + 1) * Abs(y)
            && (r > 0 ==> (x > 0 <==> y > 0)) && (r < 0 ==> (x > 0 <==> y < 0))
  {
    var x, y := if q >= 0 then n * Pow2(q) else n, if q >= 0 then d else d * Pow2(-q);
    if q < 0 {
      NonZeroProduct(d, Pow2(-q));
    }
    DivBounds(Abs(x), Abs(y));
    QuotientNonNegative(Abs(x), Abs(y));
  }

  lemma NonZeroProduct(d: int, p: nat)
    requires d != 0 && p > 0
    ensures d * p != 0
  {
  }

  /** The binary-search count of leading zeros. */
  method GglClz(x: int) returns (r: int)
    requires Fits32(x)
    ensures x >= 0 ==> r == Clz(x)
    ensures x < 0 ==> r == 0
  {
    if x == 0 { return 32; }
    SmallPowers();
    var y, exp := x, 31;
    y, exp := Narrow(y, exp, 16, 0x10000);
    y, exp := Narrow(y, exp, 8, 0x100);
    y, exp := Narrow(y, exp, 4, 0x10);
    y, exp := Narrow(y, exp, 2, 4);
    if y > 0 { BitLenDigit(y); }
    if (y / 2) % 2 != 0 { exp := exp - 1; }
    return exp;
  }

  /** One halving of the search: when the upper half of the remaining 2k digits is not clear,
      count k digits and shift them out.  The mask and the arithmetic right shift are written
      as remainder and floor division by p = 2^k, which agree with them on two's complement
      patterns. */
  method Narrow(x: int, exp: int, k: nat, p: int) returns (y: int, e: int)
    requires p == Pow2(k) && p >= 4 && p % 2 == 0
    requires x != 0 && -(p * p / 2) <= x < p * p
    ensures x > 0 ==> 0 < y < p && exp - e == BitLen(x) - BitLen(y)
    ensures x < 0 ==> -(p / 2) <= y < 0 && exp - e == k
  {
    DivBounds(x, p);
    y, e := x, exp;
    if (x / p) % p != 0 {
      e := exp - k;
      y := x / p;
      if x > 0 {
        PositiveQuotient(x, p);
        BitLenDiv(x, k, y);
      } else {
        NegativeQuotient(x, p);
      }
    } else if x > 0 {
      PositiveQuotient(x, p);
    } else {
      NegativeQuotient(x, p);
      assert false;
    }
  }

  lemma PositiveQuotient(x: int, p: int)
    requires p > 0 && 0 <= x < p * p
    ensures 0 <= x / p < p && (x / p) % p == x / p && (x / p == 0 <==> x < p)
  {
    var y := x / p;
    DivBounds(x, p);
    if y >= p {
      MulMonotone(p, y, p);
    } else if y >= 1 {
      MulMonotone(1, y, p);
    } else if y < 0 {
      MulMonotone(y + 1, 0, p);
    }
    ModSmall(y, p);
  }

  lemma ModSmall(y: int, p: int)
    requires 0 <= y < p
    ensures y % p == y
  {
  }

  lemma NegativeQuotient(x: int, p: int)
    requires p >= 4 && p % 2 == 0 && -(p * p / 2) <= x < 0
    ensures -(p / 2) <= x / p < 0 && (x / p) % p == x / p + p
  {
    DivBounds(x, p);
    if x / p >= 0 {
      MulMonotone(0, x / p, p);
    }
    var h := p / 2;
    assert p * p == 2 * (h * p);
    if x / p < -h {
      MulMonotone(x / p + 1, -h, p);
    }
    ModShift(x / p, p);
  }

  lemma ModShift(y: int, p: int)
    requires p > 0 && -p <= y < 0
    ensures y % p == (y + p) % p == (if y == -p then 0 else y + p)
  {
  }

  lemma SmallPowers()
    ensures Pow2(2) == 4 && Pow2(4) == 16 && Pow2(8) == 256 && Pow2(16) == 0x1_0000
  {
    Pow2Values();
    assert Pow2(4) == 4 * Pow2(2);
  }

  lemma BitLenDigit(y: nat)
    requires 0 < y < 4
    ensures BitLen(y) == 1 + y / 2
  {
    assert BitLen(1) == 1;
    assert BitLen(y / 2) == y / 2;
  }

  lemma BitLenDiv(x: nat, k: nat, y: nat)
    requires y == x / Pow2(k) && y > 0
    ensures BitLen(x) == BitLen(y) + k
  {
    var n, p := BitLen(y), Pow2(k);
    BitLenBounds(y);
    Pow2Add(n, k);
    Pow2Add(n - 1, k);
    DivBounds(x, p);
    MulMonotone(Pow2(n - 1), y, p);
    MulMonotone(y + 1, Pow2(n), p);
    BitLenUnique(x, n + k);
  }

  /** The `|=` of the source sets a bit that is still clear, so it adds it. */
  function SetBit(q: int, w: int): int
    requires w > 0 && q % (2 * w) == 0
  {
    q + w
  }

  /** `n*2 - d` on int32_t: the doubling may wrap, the difference brings it back. */
  method DoubleMinus(n: int, d: int) returns (t: int)
    requires 0 <= n < d < TWO31
    ensures t == 2 * n - d && -d <= t < d
  {
    t := Wrap32(Wrap32(n * 2) - d);
  }

  /** One decision on the remainder `t`, from which d has been subtracted already: keep it and
      set the bit, or restore it. */
  method Decide(t: int, d: int, q: int, w: int) returns (n: int, q': int, ghost bit: int)
    requires 0 < d < TWO31 && -d <= t < d && w > 0 && q % (2 * w) == 0
    ensures 0 <= n < d && 0 <= bit <= 1 && q' == q + w * bit && q' % w == 0
    ensures n == t + d - bit * d
  {
    MultipleOfHalf(q, w);
    if t >= 0 {
      n, q', bit := t, SetBit(q, w), 1;
    } else {
      n, q', bit := t + d, q, 0;
    }
  }

  lemma MultipleOfHalf(q: int, w: int)
    requires w > 0 && q % (2 * w) == 0
    ensures q % w == 0 && (q + w) % w == 0
  {
    var k := q / (2 * w);
    assert q == (2 * w) * k == w * (2 * k);
    MultipleMod(2 * k, w);
    MultipleMod(2 * k + 1, w);
  }

  lemma MultipleMod(k: int, w: int)
    requires w > 0
    ensures (w * k) % w == 0
  {
    DivModUnique(w * k, w, k, 0);
  }

  /** A decision followed by the subtraction that opens the next one. */
  method DecideAndDouble(t: int, d: int, q: int, w: int) returns (u: int, q': int, ghost bit: int)
    requires 0 < d < TWO31 && -d <= t < d && w > 0 && q % (2 * w) == 0
    ensures -d <= u < d && 0 <= bit <= 1 && q' == q + w * bit && q' % w == 0
    ensures u == 2 * t + d - 2 * (bit * d)
  {
    var n;
    n, q', bit := Decide(t, d, q, w);
    u := DoubleMinus(n, d);
  }

  lemma ThreeDigits(b1: int, b2: int, b3: int, d: int)
    ensures (4 * b1 + 2 * b2 + b3) * d == 4 * (b1 * d) + 2 * (b2 * d) + b3 * d
  {
  }

  /** Three decisions of the unrolled body, with the bits w, w/2 and w/4. */
  method DecideThree(t: int, d: int, q: int, w: int) returns (u: int, q': int, ghost bits: int)
    requires 0 < d < TWO31 && -d <= t < d && w in {16, 128} && q % (2 * w) == 0
    ensures -d <= u < d && 0 <= bits <= 7 && q' == q + w / 4 * bits && q' % (w / 4) == 0
    ensures u == 8 * t + 7 * d - 2 * (bits * d)
  {
    ghost var b1, b2, b3;
    u, q', b1 := DecideAndDouble(t, d, q, w);
    u, q', b2 := DecideAndDouble(u, d, q', w / 2);
    u, q', b3 := DecideAndDouble(u, d, q', w / 4);
    bits := 4 * b1 + 2 * b2 + b3;
    ThreeDigits(b1, b2, b3, d);
  }

  lemma ShiftedLow(q: nat, m: int)
    requires m in {2, 256}
    ensures ((q * m) % TWO32) % m == 0 && 0 <= (q * m) % TWO32 <= TWO32 - m
  {
    var low, high := (q * m) % TWO32, (q * m) / TWO32;
    if m == 2 {
      DivModUnique(low, 2, q - high * 0x8000_0000, 0);
    } else {
      DivModUnique(low, 256, q - high * 0x100_0000, 0);
    }
  }

  lemma SixDigits(b1: int, b2: int, d: int)
    ensures (8 * b1 + b2) * d == 8 * (b1 * d) + b2 * d
  {
  }

  method DecideSix(t: int, d: int, q: int) returns (u: int, q': int, ghost bits: int)
    requires 0 < d < TWO31 && -d <= t < d && q % 256 == 0
    ensures -d <= u < d && 0 <= bits <= 63 && q' == q + 4 * bits && q' % 4 == 0
    ensures u == 64 * t + 63 * d - 2 * (bits * d)
  {
    ghost var b1, b2;
    u, q', b1 := DecideThree(t, d, q, 128);
    u, q', b2 := DecideThree(u, d, q', 16);
    bits := 8 * b1 + b2;
    SixDigits(b1, b2, d);
  }

  /** The unrolled body of the main loop: eight decisions into the low byte of q. */
  method DecideByte(t: int, d: int, q: int) returns (n: int, q': int, ghost bits: int)
    requires 0 < d < TWO31 && -d <= t < d && 0 <= q < TWO32
    ensures 0 <= n < d && 0 <= bits <= 255 && q' == (q * 256) % TWO32 + bits < TWO32
    ensures n == 128 * t + 128 * d - bits * d
  {
    ghost var b1, b2, b3;
    var u: int;
    q' := (q * 256) % TWO32;
    ShiftedLow(q, 256);
    u, q', b1 := DecideSix(t, d, q');
    u, q', b2 := DecideAndDouble(u, d, q', 2);
    n, q', b3 := Decide(u, d, q', 1);
    bits := 4 * b1 + 2 * b2 + b3;
    ThreeDigits(b1, b2, b3, d);
  }

  /** Normalisation of the operands to a common bit length: the bit count comes out as the
      number of quotient digits to produce. */
  lemma Normalised(a: nat, b: nat, q: int, nd: int, num: nat, den: nat)
    requires a < TWO31 && 0 < b < TWO31 && nd == Clz(b) - Clz(a)
    requires num == (if nd > 0 then a else a * Pow2(-nd))
    requires den == (if nd > 0 then b * Pow2(nd) else b)
    requires q + nd >= 0
    ensures 0 < den < TWO31 && num < TWO31 && num < 2 * den
    ensures (num * Pow2(q + nd)) / den == ScaledQuotient(a, b, q) >= 0
  {
    if a == 0 {
      BitLenBounds(b);
      ZeroQuotient(b, q);
      DivModUnique(0, b, 0, 0);
    } else {
      NormalisedPositive(a, b, q, nd, num, den);
    }
  }

  /** Zero has 32 leading zeros and the quotient zero. */
  lemma ZeroQuotient(d: int, q: int)
    requires d != 0
    ensures ScaledQuotient(0, d, q) == 0
  {
    if q >= 0 {
      ZeroOver(d);
    } else {
      AbsProduct(d, Pow2(-q));
      ZeroOver(d * Pow2(-q));
    }
  }

  lemma ZeroOver(d: int)
    requires d != 0
    ensures TruncDiv(0, d) == 0
  {
    DivModUnique(0, Abs(d), 0, 0);
  }

  lemma NormalisedPositive(a: nat, b: nat, q: int, nd: int, num: nat, den: nat)
    requires 0 < a < TWO31 && 0 < b < TWO31 && nd == Clz(b) - Clz(a)
    requires num == (if nd > 0 then a else a * Pow2(-nd))
    requires den == (if nd > 0 then b * Pow2(nd) else b)
    requires q + nd >= 0
    ensures 0 < den < TWO31 && 0 < num < TWO31 && num < 2 * den
    ensures (num * Pow2(q + nd)) / den == ScaledQuotient(a, b, q) >= 0
  {
    BitLenShift(if nd > 0 then b else a, Abs(nd));
    SameLength(num, den);
    BitLenInt32(a);
    BitLenInt32(b);
    ShortLength(num);
    ShortLength(den);
    if q >= 0 {
      NormalisedUp(a, b, q, nd);
    } else {
      NormalisedDown(a, b, q, nd);
    }
  }

  lemma SameLength(num: nat, den: nat)
    requires BitLen(num) == BitLen(den) > 0
    ensures den > 0 && num < 2 * den
  {
    BitLenBounds(num);
    BitLenBounds(den);
  }

  lemma ShortLength(num: nat)
    requires 0 < BitLen(num) <= 31
    ensures 0 < num < TWO31
  {
    BitLenBounds(num);
    Pow2Values();
    Pow2Monotone(BitLen(num), 31);
  }

  lemma NormalisedUp(a: nat, b: nat, q: nat, nd: int)
    requires a > 0 && b > 0 && q + nd >= 0
    ensures nd > 0 ==> b * Pow2(nd) > 0 && (a * Pow2(q + nd)) / (b * Pow2(nd)) == ScaledQuotient(a, b, q)
    ensures nd <= 0 ==> ((a * Pow2(-nd)) * Pow2(q + nd)) / b == ScaledQuotient(a, b, q)
    ensures ScaledQuotient(a, b, q) >= 0
  {
    var p := a * Pow2(q);
    MulStrict(0, a, Pow2(q));
    TruncDivPositive(p, b);
    if nd > 0 {
      ProductPow2(a, q, nd);
      QuotientScale(p, b, Pow2(nd));
    } else {
      ProductPow2(a, -nd, q + nd);
    }
  }

  lemma NormalisedDown(a: nat, b: nat, q: int, nd: int)
    requires a > 0 && b > 0 && q < 0 && q + nd >= 0
    ensures b * Pow2(nd) > 0 && (a * Pow2(q + nd)) / (b * Pow2(nd)) == ScaledQuotient(a, b, q) >= 0
  {
    var e := b * Pow2(-q);
    MulStrict(0, b, Pow2(-q));
    TruncDivPositive(a, e);
    ProductPow2(b, -q, q + nd);
    QuotientScale(a, e, Pow2(q + nd));
  }

  lemma TruncDivPositive(a: nat, b: nat)
    requires b > 0
    ensures TruncDiv(a, b) == a / b >= 0
  {
  }

  lemma ProductPow2(a: nat, k: nat, m: nat)
    ensures (a * Pow2(k)) * Pow2(m) == a * Pow2(k + m)
  {
    Pow2Add(k, m);
    MulAssoc(a, Pow2(k), Pow2(m));
  }

  lemma MulAssoc(a: int, b: int, c: int)
    ensures (a * b) * c == a * (b * c) == c * (a * b)
  {
  }

  lemma SignedQuotient(n: int, d: int, q: int)
    requires d != 0
    ensures ScaledQuotient(n, d, q) ==
            if (n < 0) == (d < 0) then ScaledQuotient(Abs(n), Abs(d), q) else -ScaledQuotient(Abs(n), Abs(d), q)
  {
    if n == 0 {
      ZeroQuotient(d, q);
      ZeroQuotient(Abs(d), q);
    } else if q >= 0 {
      AbsProduct(n, Pow2(q));
    } else {
      AbsProduct(d, Pow2(-q));
    }
  }

  lemma AbsProduct(a: int, p: nat)
    requires a != 0 && p > 0
    ensures Abs(a * p) == Abs(a) * p && (a * p < 0 <==> a < 0) && a * p != 0
  {
    if a < 0 {
      MulStrict(a, 0, p);
    } else {
      MulStrict(0, a, p);
    }
  }

  lemma DoubleStep(x: int, c: int, d: int, n: int)
    requires x == c * d + n
    ensures 2 * x == (2 * c + 1) * d + (2 * n - d)
  {
  }

  lemma BitStep(x: int, c: int, d: int, n: int, bit: int, n': int)
    requires x == c * d + n && n' == 2 * n - bit * d
    ensures 2 * x == (2 * c + bit) * d + n'
  {
  }

  lemma ByteStep(x: int, c: int, d: int, t: int, bits: int, n: int)
    requires x == (2 * c + 1) * d + t && n == 128 * t + 128 * d - bits * d
    ensures 128 * x == (256 * c + bits) * d + n
  {
    assert (256 * c + bits) * d == 128 * ((2 * c + 1) * d) - 128 * d + bits * d;
  }

  lemma MulPow2(num: int, k: nat, m: nat)
    ensures num * Pow2(k + m) == Pow2(m) * (num * Pow2(k))
    ensures Pow2(1) == 2 && Pow2(7) == 128
  {
    Pow2Add(k, m);
    MulAssoc(num, Pow2(k), Pow2(m));
    SmallPowers();
  }

  /** gglDivQ.  The counter `i` of digits still to produce must start at one or more: from a
      negative count the byte loop's `--i` never meets zero, and from zero the residual loop's
      `j--` does not.  Given that, the result is the quotient truncated toward zero, modulo 2^32. */
  method GglDivQ(n0: int, d0: int, q0: int) returns (r: int)
    requires Fits32(n0) && n0 != -TWO31
    requires Fits32(d0) && d0 != 0 && d0 != -TWO31
    requires q0 + Clz(Abs(d0)) - Clz(Abs(n0)) + 1 >= 1
    ensures r == Wrap32(ScaledQuotient(n0, d0, q0))
  {
    var n := Abs(n0);
    var d := Abs(d0);
    var cd := GglClz(d);
    var cn := GglClz(n);
    var nd := cd - cn;
    var i := q0 + nd + 1;
    ghost var a, b := n, d;
    if nd > 0 {
      d := d * Pow2(nd);
    } else {
      n := n * Pow2(-nd);
    }
    Normalised(a, b, q0, nd, n, d);
    var q := Digits(n, d, i);
    QuotientIs(n0, d0, q0, nd, n, d, i, q);
    r := Wrap32(if (n0 < 0) != (d0 < 0) then (-q) % TWO32 else q);
  }

  /** The digits of the normalised operands, with the sign back on. */
  lemma QuotientIs(n0: int, d0: int, q0: int, nd: int, num: nat, den: nat, i: int, q: int)
    requires -TWO31 < n0 < TWO31 && -TWO31 < d0 < TWO31 && d0 != 0 && nd == Clz(Abs(d0)) - Clz(Abs(n0))
    requires num == (if nd > 0 then Abs(n0) else Abs(n0) * Pow2(-nd))
    requires den == (if nd > 0 then Abs(d0) * Pow2(nd) else Abs(d0))
    requires i == q0 + nd + 1 >= 1 && den > 0 && q == ((num * Pow2(i - 1)) / den) % TWO32
    ensures Wrap32(if (n0 < 0) != (d0 < 0) then (-q) % TWO32 else q) == Wrap32(ScaledQuotient(n0, d0, q0))
  {
    Normalised(Abs(n0), Abs(d0), q0, nd, num, den);
    SignedQuotient(n0, d0, q0);
    LowWord(ScaledQuotient(Abs(n0), Abs(d0), q0));
  }

  lemma LowWord(c: int)
    ensures Wrap32(c % TWO32) == Wrap32(c)
    ensures Wrap32((-(c % TWO32)) % TWO32) == Wrap32(-c)
  {
    var low, high := c % TWO32, c / TWO32;
    if low == 0 {
      DivModUnique(-c, TWO32, -high, 0);
    } else {
      DivModUnique(-c, TWO32, -high - 1, TWO32 - low);
      DivModUnique(-low, TWO32, -1, TWO32 - low);
    }
  }

  /** The quotient digits produced so far, k of them after the point, make c; n is what is left,
      and q keeps the low 32 of them. */
  ghost predicate Produced(num: int, d: int, k: nat, c: int, n: int, q: int) {
    0 <= n < d && num * Pow2(k) == c * d + n && 0 <= c && 0 <= q == c % TWO32
  }

  /** In the byte loop the next digit has been tried: d is subtracted from the double already. */
  ghost predicate Tried(num: int, d: int, k: nat, c: int, t: int, q: int) {
    -d <= t < d && num * Pow2(k) == (2 * c + 1) * d + t && 0 <= c && 0 <= q == c % TWO32
  }

  lemma ByteProduced(num: int, d: int, k: nat, c: int, t: int, q: int, bits: int, n: int, q': int, c': int, k': nat)
    requires Tried(num, d, k, c, t, q) && 0 <= n < d && 0 <= bits <= 255 && n == 128 * t + 128 * d - bits * d
    requires q' == (q * 256) % TWO32 + bits && c' == 256 * c + bits && k' == k + 7
    ensures Produced(num, d, k', c', n, q')
  {
    LowBits(c, 256, bits);
    ByteStep(num * Pow2(k), c, d, t, bits, n);
    MulPow2(num, k, 7);
  }

  lemma NextTried(num: int, d: int, k: nat, c: int, n: int, q: int, t: int, k': nat)
    requires Produced(num, d, k, c, n, q) && t == 2 * n - d && k' == k + 1
    ensures Tried(num, d, k', c, t, q)
  {
    DoubleStep(num * Pow2(k), c, d, n);
    MulPow2(num, k, 1);
  }

  lemma BitProduced(num: int, d: int, k: nat, c: int, n: int, q: int, bit: int, n': int, q': int, c': int, k': nat)
    requires Produced(num, d, k, c, n, q) && 0 <= n' < d && 0 <= bit <= 1 && n' == 2 * n - bit * d
    requires q' == (q * 2) % TWO32 + bit && c' == 2 * c + bit && k' == k + 1
    ensures Produced(num, d, k', c', n', q')
  {
    LowBits(c, 2, bit);
    BitStep(num * Pow2(k), c, d, n, bit, n');
    MulPow2(num, k, 1);
  }

  /** The digit loops: i binary digits of num/d, the first of them before the point.  `q` is
      a uint32_t, so it keeps the last 32. */
  method Digits(num: int, d: int, i0: int) returns (q: int)
    requires 0 < d < TWO31 && 0 <= num < TWO31 && num < 2 * d && i0 >= 1
    ensures q == ((num * Pow2(i0 - 1)) / d) % TWO32
  {
    var n, i := num, i0;
    q := 0;
    var j := i % 8;
    i := i / 8;
    ghost var total := i0 - 1;
    ghost var k: nat, c := 0, 0;      // the digits after the point so far, and the quotient so far
    ghost var bits;
    if i != 0 {
      var t := n - d;
      while true
        invariant i > 0 && 0 <= j < 8 && 8 * i + j + k == total + 1
        invariant Tried(num, d, k, c, t, q)
        decreases i
      {
        ghost var q0, c0, k0 := q, c, k;
        n, q, bits := DecideByte(t, d, q);
        c, k := 256 * c + bits, k + 7;
        ByteProduced(num, d, k0, c0, t, q0, bits, n, q, c, k);
        i := i - 1;
        if i == 0 { break; }
        t := DoubleMinus(n, d);
        k0, k := k, k + 1;
        NextTried(num, d, k0, c, n, q, t, k);
      }
    } else {
      n, q, bits := Decide(n - d, d, q, 1);
      c := bits;
      j := j - 1;
    }
    // `goto finish` enters the second loop at its condition
    while j != 0
      invariant j >= 0 && j + k == total && Produced(num, d, k, c, n, q)
      decreases j
    {
      j := j - 1;
      var t := DoubleMinus(n, d);
      ghost var n0, q0, c0, k0 := n, q, c, k;
      ShiftedLow(q, 2);
      n, q, bits := Decide(t, d, (q * 2) % TWO32, 1);
      c, k := 2 * c + bits, k + 1;
      BitProduced(num, d, k0, c0, n0, q0, bits, n, q, c, k);
    }
    CommittedQuotient(num * Pow2(k), c, d, n);
  }

  /** Appending digits commutes with dropping all but the low 32. */
  lemma LowBits(c: nat, m: int, bits: int)
    requires m in {2, 256} && 0 <= bits < m
    ensures (m * c + bits) % TWO32 == ((c % TWO32) * m) % TWO32 + bits
  {
    var low, high := c % TWO32, c / TWO32;
    var y := low * m;
    DivModUnique(m * c + bits, TWO32, m * high + y / TWO32, y % TWO32 + bits);
  }

  lemma CommittedQuotient(x: int, c: int, d: int, n: int)
    requires d > 0 && c >= 0 && 0 <= n < d && x == c * d + n
    ensures x / d == c
  {
    MulMonotone(0, c, d);
    QuotientUnique(x, d, c);
  }

  /** gglDivQ16 and gglDivx. */
  method GglDivQ16(n: int, d: int) returns (r: int)
    requires Fits32(n) && n != -TWO31
    requires Fits32(d) && d != 0 && d != -TWO31
    requires 16 + Clz(Abs(d)) - Clz(Abs(n)) + 1 >= 1
    ensures r == Wrap32(ScaledQuotient(n, d, 16))
  {
    r := GglDivQ(n, d, 16);
  }

  /** The whole family of arguments with |d| below 2^17 meets gglDivQ16's digit-count demand,
      and for the dividend zero exactly those with |d| below 2^16 do. */
  lemma DivQ16Terminates(n: int, d: int)
    requires Fits32(n) && n != -TWO31 && Fits32(d) && d != 0 && d != -TWO31
    ensures n != 0 && Abs(d) < 0x2_0000 ==> 16 + Clz(Abs(d)) - Clz(Abs(n)) + 1 >= 1
    ensures n == 0 ==> (16 + Clz(Abs(d)) - Clz(Abs(n)) + 1 >= 1 <==> Abs(d) < 0x1_0000)
  {
    BitLenBounds(Abs(n));
    BitLenBounds(Abs(d));
    Pow2Values();
    assert Pow2(17) == 0x2_0000;
    if BitLen(Abs(d)) > 17 {
      Pow2Monotone(17, BitLen(Abs(d)) - 1);
    }
    if BitLen(Abs(d)) > 16 {
      Pow2Monotone(16, BitLen(Abs(d)) - 1);
    } else {
      Pow2Monotone(BitLen(Abs(d)), 16);
    }
  }
}
