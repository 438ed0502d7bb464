/** libpixelflinger/fixed.cpp: gglSqrtx, a digit-by-digit square root of a 16.16 number. */
module SquareRoot {
  import opened Machine

  /** s is the integer square root of a. */
  ghost predicate IsSqrt(a: int, s: int) {
    s >= 0 && s * s <= a < (s + 1) * (s + 1)
  }

  /** During the first sixteen digits: r holds s in its upper bits, s is a multiple of the
      weight w of its last digit and within w of the root, and `rem` is what is left of a. */
  ghost predicate Exact(a: int, w: int, r: int, rem: int, s: int, digits: int) {
    && r == 256 * s && 0 <= s == digits * w
    && rem == a - s * s && rem >= 0
    && a < (s + w) * (s + w)
  }

  /** In the last eight digits the root s is settled; only r's low byte still grows. */
  ghost predicate Settled(a: int, k: int, r: int, s: int) {
    && 16 <= k <= 24 && IsSqrt(a, s)
    && 0 <= r - 256 * s && (k < 24 ==> r - 256 * s <= 256 - 2 * Pow2(23 - k)) && r - 256 * s <= 255
  }

  /** Meanwhile r * r stays within what the k - 16 late digits can have been charged too little,
      and the full root stays below r and all the digits still to come. */
  ghost predicate Charged(a: int, k: int, r: int, rem: int) {
    && 16 <= k <= 24 && rem >= 0 && r >= 0
    && 0 <= 0x1_0000 * rem - (0x1_0000 * a - r * r) <= 0xFFFF * (k - 16)
    && 0x1_0000 * a < (r + Pow2(24 - k)) * (r + Pow2(24 - k))
    && (a == 0 ==> rem == 0 && r == 256 - Pow2(24 - k))
  }

  /** The trial value of the source, shifts included. */
  function Trial(bit: int, r: int, bshift: int): int
    requires -8 <= bshift <= 15
  {
    if bshift >= 8 then Wrap32((bit + r * 2) * Pow2(bshift - 8)) else (bit + r * 2) / Pow2(8 - bshift)
  }

  lemma Weights()
    ensures Pow2(7) == 128 && Pow2(15) == 0x8000 && Pow2(16) == 0x1_0000 && Pow2(23) == 0x80_0000
    ensures Pow2(0) == 1 && Pow2(14) == 0x4000 && Pow2(30) == 0x4000_0000
  {
    Pow2Add(14, 16);
    Pow2Values();
    Pow2Add(7, 16);
    assert Pow2(7) == 128 * Pow2(0);
  }

  /** While the digits are exact the trial value is (s+w)^2 - s^2, the price of the digit w. */
  lemma TrialIsDigitPrice(k: nat, s: nat, digits: nat)
    requires k < 16 && s == digits * Pow2(16 - k)
    requires (2 * s + Pow2(15 - k)) * Pow2(15 - k) < TWO31
    ensures Trial(Pow2(23 - k), 256 * s, 15 - k) == (2 * s + Pow2(15 - k)) * Pow2(15 - k)
  {
    var w, x := Pow2(15 - k), 2 * s + Pow2(15 - k);
    Pow2Values();
    Pow2Add(15 - k, 8);
    DigitSum(s, w, Pow2(23 - k));
    if k <= 7 {
      Pow2Add(8, 7 - k);
      TrialLeft(Pow2(23 - k), 256 * s, 15 - k, x, w);
    } else {
      Pow2Add(15 - k, k - 7);
      OddMultiple(s, digits, w);
      TrialRight(Pow2(23 - k), 256 * s, 15 - k, x, 4 * digits + 1, w);
    }
  }

  lemma TrialLeft(bit: int, r: int, bshift: int, x: int, w: int)
    requires 8 <= bshift <= 15 && bit + r * 2 == 256 * x && w == 256 * Pow2(bshift - 8) && 0 <= x * w < TWO31
    ensures Trial(bit, r, bshift) == x * w
  {
    LeftShift(x, Pow2(bshift - 8), w);
  }

  lemma TrialRight(bit: int, r: int, bshift: int, x: int, m: int, w: int)
    requires 0 <= bshift < 8 && bit + r * 2 == 256 * x && x == m * w && w * Pow2(8 - bshift) == 256
    ensures Trial(bit, r, bshift) == x * w
  {
    RightShift(x, m, w, Pow2(8 - bshift));
  }

  lemma DigitSum(s: int, w: int, p: int)
    requires p == w * 256
    ensures p + (256 * s) * 2 == 256 * (2 * s + w)
  {
  }

  lemma LeftShift(x: int, p: int, w: int)
    requires w == 256 * p
    ensures (256 * x) * p == x * w
  {
  }

  lemma OddMultiple(s: int, digits: int, w: int)
    requires s == digits * (2 * w)
    ensures 2 * s + w == (4 * digits + 1) * w
  {
  }

  lemma RightShift(x: int, m: int, w: int, u: int)
    requires x == m * w && w * u == 256 && u > 0
    ensures (256 * x) / u == x * w
  {
    assert 256 * x == (x * w) * u by {
      assert (x * w) * u == x * (w * u);
    }
    DivModUnique(256 * x, u, x * w, 0);
  }

  lemma Square(s: int, w: int)
    ensures (s + w) * (s + w) == s * s + (2 * s + w) * w
  {
  }

  /** The trial value never leaves int32_t. */
  lemma PriceFits(a: int, k: nat, s: nat)
    requires 0 <= a < TWO31 && k < 16 && s * s <= a && (k == 0 ==> s == 0)
    ensures (2 * s + Pow2(15 - k)) * Pow2(15 - k) < TWO31
  {
    Weights();
    var w := Pow2(15 - k);
    if k > 0 {
      Pow2Monotone(15 - k, 14);
      RootBound(s, a);
      MulMonotone(2 * s + w, 109066, w);
      MulMonotone(w, 0x4000, 109066);
    }
  }

  lemma RootBound(s: nat, a: int)
    requires s * s <= a < TWO31
    ensures s < 46341
  {
    var d := s - 46341;
    assert s * s == d * d + 92682 * d + 46341 * 46341;
  }

  /** Taking the digit w exactly when it is covered keeps the root bracketed, now within w. */
  lemma Bracket(a: int, s: int, w: int, rem: int, take: bool) returns (s': int, rem': int)
    requires s >= 0 && w > 0 && rem == a - s * s && rem >= 0 && a < (s + 2 * w) * (s + 2 * w)
    requires take <==> rem >= (2 * s + w) * w
    ensures s' == (if take then s + w else s) && rem' == (if take then rem - (2 * s + w) * w else rem)
    ensures rem' == a - s' * s' && rem' >= 0 && a < (s' + w) * (s' + w)
  {
    s' := if take then s + w else s;
    rem' := if take then rem - (2 * s + w) * w else rem;
    Square(s, w);
    assert s + w + w == s + 2 * w;
  }

  lemma TrialCost(a: int, k: nat, r: int, rem: int, s: int, digits: int)
    requires 0 <= a < TWO31 && k < 16 && Exact(a, Pow2(16 - k), r, rem, s, digits) && (k == 0 ==> s == 0)
    ensures Trial(Pow2(23 - k), r, 15 - k) == (2 * s + Pow2(15 - k)) * Pow2(15 - k)
    ensures Pow2(16 - k) == 2 * Pow2(15 - k) && Pow2(23 - k) == 256 * Pow2(15 - k)
  {
    DigitsNonNegative(digits, Pow2(16 - k), s);
    PriceFits(a, k, s);
    TrialIsDigitPrice(k, s, digits);
    Pow2Values();
    Pow2Add(15 - k, 8);
  }

  /** One exact digit: take it when its price t is covered. */
  lemma ExactStep(a: int, w: int, r: int, rem: int, s: int, digits: int, t: int) returns (s': int, digits': int)
    requires w > 0 && Exact(a, 2 * w, r, rem, s, digits) && t == (2 * s + w) * w
    ensures s' == (if rem >= t then s + w else s)
    ensures Exact(a, w, if rem >= t then r + 256 * w else r, if rem >= t then rem - t else rem, s', digits')
  {
    var rem';
    digits' := if rem >= t then 2 * digits + 1 else 2 * digits;
    DigitShift(digits, if rem >= t then 1 else 0, w);
    s', rem' := Bracket(a, s, w, rem, rem >= t);
  }

  lemma DigitsNonNegative(digits: int, p: int, s: int)
    requires p > 0 && s == digits * p && s >= 0
    ensures digits >= 0
  {
    if digits < 0 {
      MulStrict(digits, 0, p);
    }
  }

  lemma DigitShift(digits: int, d: int, w: int)
    requires d == 0 || d == 1
    ensures (2 * digits + d) * w == digits * (2 * w) + (if d == 1 then w else 0)
  {
  }

  lemma Settle(a: int, r: int, rem: int, s: int, digits: int)
    requires Exact(a, 1, r, rem, s, digits)
    ensures Settled(a, 16, r, s) && Charged(a, 16, r, rem)
  {
    Weights();
    SquareOf256(s);
    SquareOf256(s + 1);
    if a == 0 && s > 0 {
      MulStrict(0, s, s);
    }
    assert Pow2(8) == 256 by { Pow2Add(8, 7); }
  }

  lemma SquareOf256(s: int)
    ensures (256 * s) * (256 * s) == 0x1_0000 * (s * s)
  {
  }

  /** A late digit costs its price rounded down to a multiple of 2^16. */
  lemma LateTrial(k: nat, r: nat) returns (rest: int)
    requires 16 <= k < 24
    ensures var bit := Pow2(23 - k);
            0 <= rest <= 0xFFFF && 0x1_0000 * Trial(bit, r, 15 - k) + rest == (bit + r * 2) * bit
  {
    var bit, p := Pow2(23 - k), Pow2(k - 7);
    Pow2Add(23 - k, k - 7);
    Weights();
    var x := bit + r * 2;
    DivBounds(x, p);
    rest := (x % p) * bit;
    LateParts(x, x / p, x % p, p, bit);
  }

  lemma LateParts(x: int, q: int, m: int, p: int, bit: int)
    requires x == q * p + m && 0 <= m < p && p * bit == 0x1_0000 && bit > 0
    ensures 0 <= m * bit <= 0xFFFF && 0x1_0000 * q + m * bit == x * bit
  {
    MulStrict(m, p, bit);
    MulMonotone(0, m, bit);
    assert x * bit == q * (p * bit) + m * bit;
  }

  lemma ChargedStep(a: int, k: nat, r: int, rem: int, t: int)
    requires 16 <= k < 24 && Charged(a, k, r, rem) && t == Trial(Pow2(23 - k), r, 15 - k)
    ensures Charged(a, k + 1, if rem >= t then r + Pow2(23 - k) else r, if rem >= t then rem - t else rem)
  {
    var bit := Pow2(23 - k);
    var rest := LateTrial(k, r);
    LateDigit(r, bit);
    if a == 0 {
      NothingLeft(k, r, t, rest);
    }
  }

  /** The square after a digit, and the bound when it is taken. */
  lemma LateDigit(r: int, bit: int)
    ensures (r + bit) * (r + bit) == r * r + (bit + r * 2) * bit
    ensures r + 2 * bit == (r + bit) + bit
  {
  }

  lemma NothingLeft(k: nat, r: int, t: int, rest: int)
    requires 16 <= k < 24 && r == 256 - 2 * Pow2(23 - k) && 0 <= rest <= 0xFFFF
    requires 0x1_0000 * t + rest == (Pow2(23 - k) + r * 2) * Pow2(23 - k)
    ensures t == 0
  {
    var bit := Pow2(23 - k);
    Weights();
    Pow2Monotone(23 - k, 7);
    MulMonotone(0, bit + r * 2, bit);
    MulMonotone(bit, 128, bit + r * 2);
  }

  /** A digit of the low byte, taken or not. */
  lemma SettledStep(a: int, k: nat, r: int, s: int)
    requires 16 <= k < 24 && Settled(a, k, r, s)
    ensures Settled(a, k + 1, r, s) && Settled(a, k + 1, r + Pow2(23 - k), s)
  {
    if k < 23 {
      assert Pow2(23 - k) == 2 * Pow2(23 - (k + 1));
    }
  }

  lemma TrialOfZero(k: nat)
    requires k < 24
    ensures Trial(Pow2(23 - k), 0, 15 - k) >= 0
  {
    if k <= 7 {
      Weights();
      Pow2Add(23 - k, 7 - k);
      Pow2Monotone(30 - 2 * k, 30);
      assert (Pow2(23 - k) + 0 * 2) * Pow2(7 - k) == Pow2(30 - 2 * k);
    } else {
      QuotientNonNegative(Pow2(23 - k) + 0 * 2, Pow2(k - 7));
    }
  }

  /** The state after k digits. */
  ghost predicate Progress(a0: int, k: nat, r: int, rem: int, s: int, digits: int) {
    && k <= 24 && (k == 0 ==> s == 0)
    && (a0 < 0 ==> r == 0 && rem == a0)
    && (a0 >= 0 && k < 16 ==> Exact(a0, Pow2(16 - k), r, rem, s, digits))
    && (a0 >= 0 && k >= 16 ==> Settled(a0, k, r, s) && Charged(a0, k, r, rem))
  }

  lemma Turn(a0: int, k: nat, r: int, rem: int, s: int, digits: int, t: int, r': int, rem': int, k': int)
    returns (s': int, digits': int)
    requires a0 < TWO31 && k < 24 && Progress(a0, k, r, rem, s, digits) && k' == k + 1
    requires t == Trial(Pow2(23 - k), r, 15 - k)
    requires r' == (if rem >= t then r + Pow2(23 - k) else r) && rem' == (if rem >= t then rem - t else rem)
    ensures Progress(a0, k', r', rem', s', digits')
  {
    s', digits' := s, digits;
    if a0 < 0 {
      TrialOfZero(k);
    } else if k < 16 {
      TrialCost(a0, k, r, rem, s, digits);
      s', digits' := ExactStep(a0, Pow2(15 - k), r, rem, s, digits, t);
      if k == 15 {
        Settle(a0, r', rem', s', digits');
      }
    } else {
      SettledStep(a0, k, r, s);
      ChargedStep(a0, k, r, rem, t);
    }
  }

  /** gglSqrtx: sixteen exact digits, then eight inexact ones below them.  The result is never
      below the root in 16.16, and its square is too large by less than 8 units of a0. */
  method GglSqrtx(a0: int) returns (r: int)
    requires Fits32(a0)
    ensures a0 >= 0 ==> IsSqrt(a0, r / 256)
    ensures a0 >= 0 ==> r >= 0 && 0x1_0000 * a0 < (r + 1) * (r + 1) && r * r < 0x1_0000 * (a0 + 8)
    ensures a0 == 0 ==> r == 255
    ensures a0 < 0 ==> r == 0
  {
    var a := a0;
    r := 0;
    var bit := 0x80_0000;
    var bshift := 15;
    ghost var k, s, digits := 0, 0, 0;
    Weights();
    while true
      invariant 0 <= k < 24 && bshift == 15 - k && bit == Pow2(23 - k)
      invariant Progress(a0, k, r, a, s, digits)
      decreases 24 - k
    {
      var temp := Trial(bit, r, bshift);
      ghost var r1, rem1, k1 := r, a, k;
      if a >= temp {
        r := r + bit;
        a := a - temp;
      }
      bshift := bshift - 1;
      bit := bit / 2;
      k := k + 1;
      HalfWeight(k1);
      s, digits := Turn(a0, k1, r1, rem1, s, digits, temp, r, a, k);
      if bit == 0 { break; }
    }
    Finished(a0, k, r, a, s, digits);
  }

  lemma Finished(a0: int, k: nat, r: int, rem: int, s: int, digits: int)
    requires k == 24 && Progress(a0, k, r, rem, s, digits)
    ensures a0 >= 0 ==> IsSqrt(a0, r / 256)
    ensures a0 >= 0 ==> r >= 0 && 0x1_0000 * a0 < (r + 1) * (r + 1) && r * r < 0x1_0000 * (a0 + 8)
    ensures a0 == 0 ==> r == 255
    ensures a0 < 0 ==> r == 0
  {
    Weights();
    if a0 >= 0 {
      DivModUnique(r, 256, s, r - 256 * s);
    }
  }

  /** What that is worth: from 16.0 on the result is the root in 16.16, rounded down, or one more. */
  lemma SqrtAccuracy(a: int, r: int, root: int)
    requires a >= 0x10_0000 && r >= 0 && 0x1_0000 * a < (r + 1) * (r + 1) && r * r < 0x1_0000 * (a + 8)
    requires IsSqrt(0x1_0000 * a, root)
    ensures root <= r <= root + 1
  {
    SquareBelow(0x4_0000, r + 1);
    SquareBelow(root, r + 1);
    assert (r - 1) * (r - 1) == r * r - 2 * r + 1;
    SquareBelow(r - 1, root + 1);
  }

  lemma SquareBelow(x: nat, y: nat)
    requires x * x < y * y
    ensures x < y
  {
    if x >= y {
      MulMonotone(y, x, y);
      MulMonotone(y, x, x);
    }
  }

  lemma HalfWeight(k: nat)
    requires k < 24
    ensures Pow2(23 - k) / 2 == if k < 23 then Pow2(22 - k) else 0
  {
    assert k < 23 ==> Pow2(23 - k) == 2 * Pow2(22 - k);
  }

  /** The integer square root is unique, so the contract of GglSqrtx determines r / 256. */
  lemma SqrtUnique(a: int, s: int, t: int)
    requires IsSqrt(a, s) && IsSqrt(a, t)
    ensures s == t
  {
    if s < t {
      MulMonotone(s + 1, t, s + 1);
      MulMonotone(s + 1, t, t);
    } else if t < s {
      MulMonotone(t + 1, s, t + 1);
      MulMonotone(t + 1, s, s);
    }
  }
}
