/** libpixelflinger/fixed.cpp: a*b/c with a 64-bit intermediate (gglMulDivi), by a bit-serial
    multiply-and-divide when the smaller factor is at most c, and by a 64-bit product and a
    bit-serial division otherwise. */
module MulDiv {
  import opened Machine
  import opened Division

  const INT_MAX: int := 0x7fff_ffff

  /** Moving the top binary digit of the low i digits of x out of a 32-bit window that holds
      them left-aligned. */
  lemma TopDigit(x: nat, i: nat, u: int) returns (bit: int)
    requires 1 <= i <= 32 && u == (x % Pow2(i)) * Pow2(32 - i)
    ensures 0 <= u < TWO32 && 0 <= bit <= 1 && (bit == 1 <==> u >= TWO31)
    ensures x / Pow2(i - 1) == 2 * (x / Pow2(i)) + bit
    ensures (2 * u) % TWO32 == (x % Pow2(i - 1)) * Pow2(33 - i)
  {
    var h, s := Pow2(i - 1), Pow2(32 - i);
    Pow2Values();
    Pow2Add(i - 1, 32 - i);
    bit := SplitDigit(x, h);
    Window(x % (2 * h), bit, h, s);
  }

  lemma SplitDigit(x: nat, h: nat) returns (bit: int)
    requires h > 0
    ensures 0 <= bit <= 1 && bit == (if x % (2 * h) >= h then 1 else 0)
    ensures x / h == 2 * (x / (2 * h)) + bit
    ensures x % h == x % (2 * h) - bit * h
  {
    var p, rem := x / (2 * h), x % (2 * h);
    bit := if rem >= h then 1 else 0;
    assert x == p * (2 * h) + rem == (2 * p) * h + rem;
    DivModUnique(x, h, 2 * p + bit, rem - bit * h);
  }

  lemma Window(rem: nat, bit: int, h: nat, s: nat)
    requires h * s == TWO31 && s > 0 && rem < 2 * h && bit == (if rem >= h then 1 else 0)
    ensures 0 <= rem * s < TWO32 && (bit == 1 <==> rem * s >= TWO31)
    ensures (2 * (rem * s)) % TWO32 == (rem - bit * h) * (2 * s)
  {
    MulStrict(rem, 2 * h, s);
    if bit == 1 {
      MulMonotone(h, rem, s);
    } else {
      MulStrict(rem, h, s);
    }
    assert (rem - bit * h) * s == rem * s - bit * TWO31;
    DivModUnique(2 * (rem * s), TWO32, bit, 2 * ((rem - bit * h) * s));
  }

  /** The partial remainder of the quick path stays inside int32_t for every leading part of
      a's binary digits. */
  ghost predicate QuickFits(a: nat, b: nat, c: nat)
    requires c > 0
  {
    a == 0 || (QuickFits(a / 2, b, c) && Partial(a, b, c) < TWO31)
  }

  /** What the quick path holds in `r` before it subtracts c, for the leading digits a. */
  ghost function Partial(a: nat, b: nat, c: nat): int
    requires c > 0
  {
    2 * (((a / 2) * b) % c) + (a % 2) * b
  }

  /** State of the quick path for the leading digits p: v = p*b - q*c, the remainder it ought
      to hold, is either properly reduced, or past int32_t for good. */
  ghost predicate QuickInv(p: nat, b: nat, c: nat, v: int, r: int)
    requires c > 0
  {
    r == Wrap32(v) && (if QuickFits(p, b, c) then 0 <= v < c else v >= TWO31)
  }

  /** Doubling and adding on int32_t, wrap-around included. */
  lemma WrapDouble(v: int, y: int)
    ensures Wrap32(Wrap32(2 * Wrap32(v)) + y) == Wrap32(2 * v + y)
  {
    var k := WrapTurns(v);
    var m := WrapTurns(2 * Wrap32(v));
    var n := WrapTurns(Wrap32(2 * Wrap32(v)) + y);
    WrapUnique(2 * v + y, Wrap32(Wrap32(2 * Wrap32(v)) + y), n + m + 2 * k);
  }

  /** The loop state after the leading digits p; a zero divisor only keeps q even. */
  ghost predicate QuickState(p: nat, b: nat, c: nat, q: int, v: int, r: int) {
    && v == p * b - q * c
    && (c > 0 ==> q >= 0 && QuickInv(p, b, c, v, r))
    && (c == 0 ==> r == 0 && Fits32(q) && q % 2 == 0)
  }

  /** How often c comes off a partial remainder w. */
  function Times(w: int, c: int): int {
    if w >= 2 * c then 2 else if w >= c then 1 else 0
  }

  method SubtractTwice(w: int, c: int, q: int) returns (r: int, q': int)
    requires Fits32(w) && 0 <= c < TWO31
    ensures r == w - Times(w, c) * c
    ensures q' == if Times(w, c) == 0 then q else if Times(w, c) == 1 then Wrap32(q + 1) else Wrap32(Wrap32(q + 1) + 1)
  {
    r, q' := w, q;
    if r >= c {
      r := r - c;
      q' := Wrap32(q' + 1);
    }
    if r >= c {
      r := r - c;
      q' := Wrap32(q' + 1);
    }
  }

  /** One turn of the loop: bring in the next digit of a, subtract c up to twice. */
  method QuickDigit(top: bool, b: int, c: int, q: int, r: int, ghost p: nat, ghost v: int)
    returns (r': int, q': int, ghost v': int)
    requires 0 <= b <= c < TWO31 && 2 * p + (if top then 1 else 0) < TWO31
    requires QuickState(p, b, c, q, v, r)
    ensures QuickState(2 * p + (if top then 1 else 0), b, c, q', v', r')
  {
    r' := Wrap32(r * 2);
    if top {
      r' := Wrap32(r' + b);
    }
    var w := r';
    r', q' := SubtractTwice(w, c, Wrap32(q * 2));
    v' := NextState(p, if top then 1 else 0, b, c, q, v, r, w, q', r');
  }

  lemma NextState(p: nat, bit: int, b: int, c: int, q: int, v: int, r: int, w: int, q': int, r': int)
    returns (v': int)
    requires 0 <= bit <= 1 && 0 <= b <= c < TWO31 && 2 * p + bit < TWO31
    requires QuickState(p, b, c, q, v, r)
    requires w == if bit == 1 then Wrap32(Wrap32(r * 2) + b) else Wrap32(r * 2)
    requires r' == w - Times(w, c) * c
    requires var d := Wrap32(q * 2);
             q' == if Times(w, c) == 0 then d else if Times(w, c) == 1 then Wrap32(d + 1) else Wrap32(Wrap32(d + 1) + 1)
    ensures QuickState(2 * p + bit, b, c, q', v', r')
  {
    v' := (2 * p + bit) * b - q' * c;
    if c > 0 {
      NextPositive(p, bit, b, c, q, v, r, w, q', r', v');
    } else {
      EvenWrap(q);
      assert w == 0 && Times(w, c) == 2;
    }
  }

  lemma NextPositive(p: nat, bit: int, b: int, c: int, q: int, v: int, r: int, w: int, q': int, r': int, v': int)
    requires 0 <= bit <= 1 && 0 <= b <= c < TWO31 && 0 < c && 2 * p + bit < TWO31
    requires QuickState(p, b, c, q, v, r)
    requires w == if bit == 1 then Wrap32(Wrap32(r * 2) + b) else Wrap32(r * 2)
    requires r' == w - Times(w, c) * c
    requires var d := Wrap32(q * 2);
             q' == if Times(w, c) == 0 then d else if Times(w, c) == 1 then Wrap32(d + 1) else Wrap32(Wrap32(d + 1) + 1)
    requires v' == (2 * p + bit) * b - q' * c
    ensures QuickState(2 * p + bit, b, c, q', v', r')
  {
    PartialIs(v, r, bit, b, w);
    QuickStep(p, bit, b, c, q, v, r, w);
    NextQuotient(q, Times(w, c), q');
    NextRemainder(p, bit, b, c, q, Times(w, c));
  }

  lemma PartialIs(v: int, r: int, bit: int, b: int, w: int)
    requires 0 <= bit <= 1 && r == Wrap32(v) && w == if bit == 1 then Wrap32(Wrap32(r * 2) + b) else Wrap32(r * 2)
    ensures w == Wrap32(2 * v + bit * b)
  {
    WrapDouble(v, if bit == 1 then b else 0);
  }

  lemma NextQuotient(q: int, s: int, q': int)
    requires 0 <= s <= 2 && 0 <= 2 * q + s < TWO31
    requires var d := Wrap32(q * 2);
             q' == if s == 0 then d else if s == 1 then Wrap32(d + 1) else Wrap32(Wrap32(d + 1) + 1)
    ensures q' == 2 * q + s
  {
  }

  lemma EvenWrap(q: int)
    ensures Wrap32(q * 2) % 2 == 0 && Wrap32(Wrap32(Wrap32(q * 2) + 1) + 1) % 2 == 0
  {
    var k := WrapTurns(q * 2);
    DivModUnique(Wrap32(q * 2), 2, q - k * TWO31, 0);
    var e := Wrap32(q * 2);
    if e == TWO31 - 2 {
      WrapUnique(TWO31, -TWO31, 1);
    }
  }

  lemma NextRemainder(p: int, bit: int, b: int, c: int, q: int, s: int)
    ensures (2 * p + bit) * b - (2 * q + s) * c == 2 * (p * b - q * c) + bit * b - s * c
  {
  }

  /** The remainder after bringing in a digit, v for the digits p and 2v + bit*b for the next.
      Once it leaves int32_t, even the largest later subtraction cannot bring it back. */
  lemma QuickStep(p: nat, bit: int, b: int, c: int, q: int, v: int, r: int, w: int)
    requires 0 <= bit <= 1 && 0 <= b <= c < TWO31 && c > 0 && 2 * p + bit < TWO31
    requires q >= 0 && v == p * b - q * c && QuickInv(p, b, c, v, r)
    requires w == Wrap32(2 * v + bit * b)
    ensures var s := Times(w, c);
            && QuickInv(2 * p + bit, b, c, 2 * v + bit * b - s * c, w - s * c)
            && 0 <= 2 * q + s < TWO31
  {
    var s := Times(w, c);
    var big := if bit == 1 then 2 * v + b else 2 * v;
    var next := 2 * p + bit;
    var subtracted := if s == 2 then 2 * c else if s == 1 then c else 0;
    assert subtracted == s * c && big == 2 * v + bit * b;
    assert next / 2 == p && next % 2 == bit;
    FitsNext(p, bit, b, c, q, v, big);
    StepBounds(QuickFits(p, b, c), v, bit, b, c, big, w, s, subtracted);
    NextRemainder(p, bit, b, c, q, s);
    QuotientBelow(next, b, c, 2 * q + s);
  }

  lemma FitsNext(p: nat, bit: int, b: int, c: int, q: int, v: int, big: int)
    requires 0 <= bit <= 1 && 0 <= b <= c && c > 0 && v == p * b - q * c
    requires big == (if bit == 1 then 2 * v + b else 2 * v)
    requires QuickFits(p, b, c) ==> 0 <= v < c
    requires !QuickFits(p, b, c) ==> v > 0
    ensures QuickFits(2 * p + bit, b, c) <==> QuickFits(p, b, c) && big < TWO31
  {
    var next := 2 * p + bit;
    assert next / 2 == p && next % 2 == bit;
    if QuickFits(p, b, c) {
      DivModUnique(p * b, c, q, v);
      assert Partial(next, b, c) == big;
      if next == 0 {
        assert p * b == 0 && v == 0 by { DivModUnique(0, c, 0, 0); }
      }
    } else {
      assert p > 0 by {
        assert QuickFits(0, b, c);
      }
    }
  }

  lemma StepBounds(fits: bool, v: int, bit: int, b: int, c: int, big: int, w: int, s: int, subtracted: int)
    requires 0 <= bit <= 1 && 0 <= b <= c < TWO31 && c > 0
    requires big == (if bit == 1 then 2 * v + b else 2 * v) && w == Wrap32(big)
    requires if fits then 0 <= v < c else v >= TWO31
    requires s == (if w >= 2 * c then 2 else if w >= c then 1 else 0)
    requires subtracted == (if s == 2 then 2 * c else if s == 1 then c else 0)
    ensures w - subtracted == Wrap32(big - subtracted)
    ensures if fits && big < TWO31 then 0 <= big - subtracted < c else big - subtracted >= TWO31
  {
    var k := WrapTurns(big);
    WrapUnique(big - subtracted, w - subtracted, k);
    if fits && big >= TWO31 {
      WrapUnique(big, big - TWO32, 1);
    }
  }

  lemma QuotientBelow(p: nat, b: nat, c: nat, q: int)
    requires b <= c && c > 0 && p * b - q * c >= 0
    ensures q <= p
  {
    MulMonotone(b, c, p);
    if q > p {
      MulStrict(p, q, c);
    }
  }

  /** The int32_t a holds the low i digits of a0, left-aligned. */
  ghost predicate Window32(a0: nat, i: int, a: int) {
    0 <= i <= 32 && Fits32(a) && a % TWO32 == (a0 % Pow2(i)) * Pow2(32 - i)
  }

  /** p are the digits of a0 before those that a holds. */
  ghost predicate Split32(a0: nat, i: int, p: int, a: int) {
    Window32(a0, i, a) && p == a0 / Pow2(i) && 0 <= p <= a0
  }

  /** The sign bit is the next digit, and doubling moves it out. */
  lemma NextDigit(a0: nat, i: int, p: int, a: int) returns (bit: int)
    requires i >= 1 && Split32(a0, i, p, a)
    ensures bit == (if a < 0 then 1 else 0)
    ensures Split32(a0, i - 1, 2 * p + bit, Wrap32(a * 2))
  {
    bit := TopDigit(a0, i, a % TWO32);
    DoublePattern(a);
    SignPattern(a);
    ShrinkingQuotient(a0, Pow2(i - 1));
  }

  lemma SignPattern(a: int)
    requires Fits32(a)
    ensures a < 0 <==> a % TWO32 >= TWO31
  {
  }

  /** quick_muldiv: exactly the quotient when every partial remainder fits, too small when one
      does not, and an even number when c is zero. */
  method QuickMulDiv(a0: int, b: int, c: int) returns (q: int)
    requires 0 < a0 < TWO31 && 0 <= b <= c < TWO31
    ensures c > 0 && QuickFits(a0, b, c) ==> q == (a0 * b) / c
    ensures c > 0 && !QuickFits(a0, b, c) ==> 0 <= q < (a0 * b) / c
    ensures c == 0 ==> Fits32(q) && q % 2 == 0
  {
    var r := 0;
    q := 0;
    var leading := GglClz(a0);
    var i := 32 - leading;
    BitLenInt32(a0);
    var a := Wrap32(a0 * Pow2(leading));
    Aligned(a0, leading, a);
    ghost var v, p := 0, 0;           // p: the digits of a0 taken in so far
    InitialState(b, c);
    while true
      invariant 1 <= i <= 31 && 0 <= p && Split32(a0, i, p, a) && QuickState(p, b, c, q, v, r)
      decreases i
    {
      ghost var bit := NextDigit(a0, i, p, a);
      r, q, v := QuickDigit(a < 0, b, c, q, r, p, v);
      a := Wrap32(a * 2);
      i := i - 1;
      p := 2 * p + bit;
      if i == 0 { break; }
    }
    QuickResult(a0, p, a, b, q, c, v, r);
  }

  lemma InitialState(b: nat, c: nat)
    ensures QuickState(0, b, c, 0, 0, 0)
  {
    assert c > 0 ==> QuickFits(0, b, c);
  }

  lemma ShrinkingQuotient(a: nat, p: nat)
    requires p > 0
    ensures 0 <= a / p <= a
  {
    var q := a / p;
    DivBounds(a, p);
    if q > a {
      MulMonotone(1, p, q);
    } else if q < 0 {
      MulMonotone(q + 1, 0, p);
    }
  }

  /** Left-aligning a number in 32 digits. */
  lemma Aligned(a0: int, leading: int, a: int)
    requires 0 < a0 < TWO31 && leading == Clz(a0) && 0 <= leading <= 32 && a == Wrap32(a0 * Pow2(leading))
    ensures 1 <= leading <= 31
    ensures Split32(a0, 32 - leading, 0, a)
  {
    BitLenInt32(a0);
    BitLenBounds(a0);
    DivModUnique(a0, Pow2(32 - leading), 0, a0);
    Pow2Values();
    Pow2Add(32 - leading, leading);
    AlignedPattern(a0, Pow2(32 - leading), Pow2(leading));
  }

  lemma AlignedPattern(a0: int, p: int, q: int)
    requires 0 < a0 < p && 0 < q && p * q == TWO32
    ensures Wrap32(a0 * q) % TWO32 == a0 * q
  {
    MulStrict(a0, p, q);
    MulStrict(0, a0, q);
    PatternOfWrap(a0 * q);
  }

  lemma PatternOfWrap(y: int)
    requires 0 <= y < TWO32
    ensures Wrap32(y) % TWO32 == y
  {
  }

  lemma DoublePattern(a: int)
    requires Fits32(a)
    ensures Wrap32(a * 2) % TWO32 == (2 * (a % TWO32)) % TWO32
  {
  }

  lemma QuickResult(a0: nat, p: nat, a: int, b: nat, q: int, c: nat, v: int, r: int)
    requires Split32(a0, 0, p, a) && QuickState(p, b, c, q, v, r)
    ensures c > 0 && QuickFits(a0, b, c) ==> q == (a0 * b) / c
    ensures c > 0 && !QuickFits(a0, b, c) && c < TWO31 ==> 0 <= q < (a0 * b) / c
    ensures c == 0 ==> Fits32(q) && q % 2 == 0
  {
    DivModUnique(a0, 1, a0, 0);
    if c > 0 {
      var x := a0 * b;
      DivBounds(x, c);
      if QuickFits(a0, b, c) {
        DivModUnique(x, c, q, v);
      } else if c < TWO31 && x / c <= q {
        MulMonotone(x / c + 1, q + 1, c);
        NextMultiple(q, c);
      }
    }
  }

  lemma NextMultiple(q: int, c: int)
    ensures (q + 1) * c == q * c + c
  {
  }

  /** slow_muldiv: a 64-bit product, then saturation, one machine division, or 32 turns of
      bit-serial division. */
  method SlowMulDiv(a: int, b: int, c: int) returns (result: int)
    requires 0 <= a < TWO31 && 0 <= b < TWO31 && 0 <= c < TWO31
    ensures (a * b) / TWO32 >= c ==> result == INT_MAX
    ensures (a * b) / TWO32 < c ==> c > 0 && result == if a * b < TWO32 then Min((a * b) / c, INT_MAX) else Wrap32((a * b) / c)
  {
    ProductFits(a, b);
    var ab := a * b;
    var hi, lo := ab / TWO32, ab % TWO32;
    var u;
    if hi >= c {
      u := INT_MAX;
    } else if hi == 0 {
      u := lo / c;
      QuotientSign(lo, c);
      if u / TWO31 != 0 {
        u := INT_MAX;
      }
    } else {
      u := BitSerial(ab, hi, lo, c);
      QuotientSign(ab, c);
    }
    result := Wrap32(u);
  }

  lemma ProductFits(a: nat, b: nat)
    requires a < TWO31 && b < TWO31
    ensures 0 <= a * b < TWO31 * TWO31
  {
    MulMonotone(0, a, b);
    if b > 0 {
      MulStrict(a, TWO31, b);
    }
  }

  lemma QuotientSign(x: nat, c: nat)
    requires c > 0
    ensures 0 <= x / c <= x
  {
    ShrinkingQuotient(x, c);
  }

  /** The division loop: result*c + r is always the part of the product shifted in so far. */
  method BitSerial(ghost ab: nat, hi: int, lo0: int, c: int) returns (result: int)
    requires hi == ab / TWO32 && lo0 == ab % TWO32 && 0 <= hi < c < TWO31
    ensures result == (ab / c) % TWO32
  {
    var r, lo := hi, lo0;
    result := 0;
    var i := 32;                      // one more than the source's `bits`
    Pow2Values();
    ghost var p := ab / Pow2(i);      // the part of the product shifted in so far
    while i > 0
      invariant 0 <= i <= 32 && lo == (ab % Pow2(i)) * Pow2(32 - i)
      invariant p == ab / Pow2(i) && SerialState(p, c, result, r)
      invariant 0 <= result < Pow2(32 - i)
    {
      ghost var bit := TopDigit(ab, i, lo);
      Pow2Monotone(32 - i, 31);
      TopBit(lo);
      r, result := SerialDigit(r, lo / TWO31, result, c, p);
      lo := (lo * 2) % TWO32;
      p := 2 * p + bit;
      i := i - 1;
    }
    SerialEnd(ab, result, c, r);
  }

  lemma TopBit(lo: int)
    requires 0 <= lo < TWO32
    ensures lo / TWO31 == if lo >= TWO31 then 1 else 0
  {
  }

  method SerialDigit(r: int, top: int, q: int, c: int, ghost p: int) returns (r': int, q': int)
    requires 0 <= top <= 1 && c < TWO31 && 0 <= q < TWO31 && SerialState(p, c, q, r)
    ensures 2 * q <= q' <= 2 * q + 1 && SerialState(2 * p + top, c, q', r')
  {
    r' := (r * 2) % TWO32 + top;
    q' := (q * 2) % TWO32;
    assert r' == 2 * r + top && q' == 2 * q;
    SerialStep(p, top, c, q, r);
    if r' >= c {
      r' := r' - c;
      q' := SetBit(q', 1);
    }
  }

  ghost predicate SerialState(p: int, c: int, q: int, r: int) {
    0 <= r < c && p == q * c + r
  }

  lemma SerialStep(p: int, bit: int, c: int, q: int, r: int)
    requires SerialState(p, c, q, r) && 0 <= bit <= 1
    ensures var w := 2 * r + bit;
            SerialState(2 * p + bit, c, if w >= c then 2 * q + 1 else 2 * q, if w >= c then w - c else w)
  {
    assert (2 * q + 1) * c == 2 * (q * c) + c;
  }

  lemma SerialEnd(ab: nat, q: int, c: int, r: int)
    requires c > 0 && SerialState(ab / Pow2(0), c, q, r) && 0 <= q < Pow2(32)
    ensures q == (ab / c) % TWO32
  {
    Pow2Values();
    DivModUnique(ab, 1, ab, 0);
    DivModUnique(ab, c, q, r);
    DivModUnique(q, TWO32, 0, q);
  }

  ghost predicate OppositeSigns(a: int, b: int, c: int) {
    ((a < 0) != (b < 0)) != (c < 0)
  }

  /** The arguments take the bit-serial quick path: the smaller factor is at most c. */
  ghost predicate Quick(a: int, b: int, c: int) {
    Min(Abs(a), Abs(b)) <= Abs(c)
  }

  /** Exactly the arguments on which gglMulDivi computes a*b/c: on the quick path no partial
      remainder may leave int32_t, on the slow path the quotient has to fit.  (A magnitude of
      2^31 survives the wrapping negation of a negative result, but only when the product
      needs its high word.) */
  ghost predicate Computes(a: int, b: int, c: int)
    requires c != 0
  {
    if Quick(a, b, c) then QuickFits(Max(Abs(a), Abs(b)), Min(Abs(a), Abs(b)), Abs(c))
    else
      var q := (Abs(a) * Abs(b)) / Abs(c);
      q < TWO31 || (q == TWO31 && OppositeSigns(a, b, c) && Abs(a) * Abs(b) >= TWO32)
  }

  /** What an overflow is to be reported as: INT_MAX, with the sign of the quotient. */
  ghost function Saturated(a: int, b: int, c: int): int {
    if OppositeSigns(a, b, c) then -INT_MAX else INT_MAX
  }

  lemma SaturatedExact(a: int, b: int, c: int)
    requires a * b != 0
    ensures Saturated(a, b, c) == if (a * b < 0) != (c < 0) then -0x7FFF_FFFF else 0x7FFF_FFFF
  {
  }

  /** gglMulDivi.  Besides when it computes the quotient, the contract says when it reports an
      overflow: exactly when the high word of the product reaches |c|, or is zero; between the
      two the quotient wraps.  A division by zero is reported unless a factor is zero.
      With both factors zero the quick path would run its digit loop zero times
      down from zero; INT_MIN has no int32_t magnitude. */
  method GglMulDivi(a0: int, b0: int, c0: int) returns (result: int)
    requires -TWO31 < a0 < TWO31 && -TWO31 < b0 < TWO31 && -TWO31 < c0 < TWO31
    requires a0 != 0 || b0 != 0
    ensures c0 != 0 ==> (result == TruncDiv(a0 * b0, c0) <==> Computes(a0, b0, c0))
    ensures c0 != 0 && (Abs(a0) * Abs(b0)) / Abs(c0) > INT_MAX ==>
              (result == Saturated(a0, b0, c0) <==>
                 (Abs(a0) * Abs(b0)) / TWO32 >= Abs(c0) || Abs(a0) * Abs(b0) < TWO32)
    ensures c0 != 0 && !Quick(a0, b0, c0) && (Abs(a0) * Abs(b0)) / TWO32 >= Abs(c0) ==>
              result == Saturated(a0, b0, c0)
    ensures c0 != 0 && !Quick(a0, b0, c0) && TWO32 <= Abs(a0) * Abs(b0) < TWO32 * Abs(c0) ==>
              result == Wrap32(TruncDiv(a0 * b0, c0))
    ensures c0 == 0 ==> (result == Saturated(a0, b0, c0) <==> a0 != 0 && b0 != 0)
  {
    var negative := ((a0 < 0) != (b0 < 0)) != (c0 < 0);
    var a, b, c := Abs(a0), Abs(b0), Abs(c0);
    if a < b {
      a, b := b, a;
    }
    var u;
    if b <= c {
      u := QuickMulDiv(a, b, c);
    } else {
      u := SlowMulDiv(a, b, c);
    }
    result := if negative then Wrap32(-u) else u;
    Verdict(a0, b0, c0, a, b, c, u, result);
  }

  lemma Verdict(a0: int, b0: int, c0: int, a: nat, b: nat, c: nat, u: int, result: int)
    requires b <= a < TWO31 && c < TWO31 && 0 < a && c == Abs(c0)
    requires a == Max(Abs(a0), Abs(b0)) && b == Min(Abs(a0), Abs(b0))
    requires b <= c ==> c > 0 && QuickFits(a, b, c) ==> u == (a * b) / c
    requires b <= c ==> c > 0 && !QuickFits(a, b, c) ==> 0 <= u < (a * b) / c
    requires b <= c ==> c == 0 ==> Fits32(u) && u % 2 == 0
    requires b > c ==> (a * b) / TWO32 >= c ==> u == INT_MAX
    requires b > c ==> (a * b) / TWO32 < c ==> c > 0 && u == if a * b < TWO32 then Min((a * b) / c, INT_MAX) else Wrap32((a * b) / c)
    requires result == if OppositeSigns(a0, b0, c0) then Wrap32(-u) else u
    ensures c0 != 0 ==> (result == TruncDiv(a0 * b0, c0) <==> Computes(a0, b0, c0))
    ensures c0 != 0 && (Abs(a0) * Abs(b0)) / Abs(c0) > INT_MAX ==>
              (result == Saturated(a0, b0, c0) <==>
                 (Abs(a0) * Abs(b0)) / TWO32 >= Abs(c0) || Abs(a0) * Abs(b0) < TWO32)
    ensures c0 != 0 && !Quick(a0, b0, c0) && (Abs(a0) * Abs(b0)) / TWO32 >= Abs(c0) ==>
              result == Saturated(a0, b0, c0)
    ensures c0 != 0 && !Quick(a0, b0, c0) && TWO32 <= Abs(a0) * Abs(b0) < TWO32 * Abs(c0) ==>
              result == Wrap32(TruncDiv(a0 * b0, c0))
    ensures c0 == 0 ==> (result == Saturated(a0, b0, c0) <==> a0 != 0 && b0 != 0)
  {
    ProductOfMagnitudes(a0, b0);
    if c0 == 0 && b == 0 {
      EvenNegation(u);
    } else if c0 == 0 {
      ProductFits(a, b);
    } else {
      ProductFits(a, b);
      SignOfQuotient(a0, b0, c0);
      if b <= c {
        QuickVerdict(a, b, c, u, OppositeSigns(a0, b0, c0));
      } else {
        SlowVerdict(a * b, c, u, OppositeSigns(a0, b0, c0));
      }
    }
  }

  lemma ProductOfMagnitudes(a: int, b: int)
    ensures Max(Abs(a), Abs(b)) * Min(Abs(a), Abs(b)) == Abs(a) * Abs(b)
  {
  }

  lemma Magnitudes(a: int, b: int)
    ensures Abs(a * b) == Abs(a) * Abs(b)
    ensures a != 0 && b != 0 ==> (a * b < 0 <==> (a < 0) != (b < 0))
    ensures a == 0 || b == 0 ==> a * b == 0
  {
    if a != 0 && b != 0 {
      if b > 0 {
        AbsProduct(a, b);
      } else {
        AbsProduct(a, -b);
        assert a * b == -(a * -b);
      }
    }
  }

  lemma SignOfQuotient(a: int, b: int, c: int)
    requires c != 0
    ensures TruncDiv(a * b, c) ==
            var q := (Abs(a) * Abs(b)) / Abs(c); if OppositeSigns(a, b, c) then -q else q
  {
    Magnitudes(a, b);
    if a == 0 || b == 0 {
      DivModUnique(0, Abs(c), 0, 0);
    }
  }

  lemma QuickVerdict(a: nat, b: nat, c: nat, u: int, negative: bool)
    requires 0 < a < TWO31 && b <= c < TWO31 && c > 0
    requires QuickFits(a, b, c) ==> u == (a * b) / c
    requires !QuickFits(a, b, c) ==> 0 <= u < (a * b) / c
    ensures var q := (a * b) / c;
            var r := if negative then Wrap32(-u) else u;
            q <= INT_MAX && (r == (if negative then -q else q) <==> QuickFits(a, b, c))
  {
    DivBounds(a * b, c);
    QuotientBelow(a, b, c, (a * b) / c);
    QuotientNonNegative(a * b, c);
  }

  lemma SlowVerdict(x: nat, c: nat, u: int, negative: bool)
    requires 0 < c < TWO31 && x < TWO31 * TWO31
    requires x / TWO32 >= c ==> u == INT_MAX
    requires x / TWO32 < c ==> u == if x < TWO32 then Min(x / c, INT_MAX) else Wrap32(x / c)
    ensures var q := x / c;
            var r := if negative then Wrap32(-u) else u;
            var wanted := if negative then -q else q;
            && (r == wanted <==> q < TWO31 || (q == TWO31 && negative && x >= TWO32))
            && (q > INT_MAX ==> (r == (if negative then -INT_MAX else INT_MAX) <==> x / TWO32 >= c || x < TWO32))
            && (x / TWO32 >= c ==> r == if negative then -INT_MAX else INT_MAX)
            && (TWO32 <= x < TWO32 * c ==> r == Wrap32(wanted))
  {
    var q := x / c;
    DivBounds(x, c);
    QuotientNonNegative(x, c);
    if x / TWO32 >= c {
      if q < TWO32 {
        MulMonotone(q + 1, TWO32, c);
      }
    } else {
      if q >= TWO32 {
        MulMonotone(TWO32, q, c);
      }
      if x >= TWO32 {
        NegateWrap(q);
      }
    }
  }

  lemma NegateWrap(q: int)
    ensures Wrap32(-Wrap32(q)) == Wrap32(-q)
  {
    var k := WrapTurns(q);
    var m := WrapTurns(-Wrap32(q));
    WrapUnique(-q, Wrap32(-Wrap32(q)), m - k);
  }

  lemma EvenNegation(u: int)
    requires Fits32(u) && u % 2 == 0
    ensures Wrap32(-u) % 2 == 0 && Abs(u) != INT_MAX && Abs(Wrap32(-u)) != INT_MAX
  {
    if u == -TWO31 {
      WrapUnique(TWO31, -TWO31, 1);
    }
  }

  /** A bound a caller can check without running the digits. */
  lemma {:induction false} QuickFitsWhenSmall(a: nat, b: nat, c: nat)
    requires c > 0 && b <= c && 2 * (c - 1) + b < TWO31
    ensures QuickFits(a, b, c)
  {
    if a > 0 {
      QuickFitsWhenSmall(a / 2, b, c);
      var r := ((a / 2) * b) % c;
      assert 0 <= r < c;
      assert (a % 2) * b <= b;
    }
  }

  lemma {:induction false} QuickFitsLeading(a: nat, k: nat, b: nat, c: nat)
    requires c > 0 && QuickFits(a * Pow2(k), b, c)
    ensures QuickFits(a, b, c)
  {
    if k > 0 {
      var x := a * Pow2(k - 1);
      TwiceProduct(a, Pow2(k - 1));
      assert (2 * x) / 2 == x;
      if x > 0 {
        QuickFitsLeading(a, k - 1, b, c);
      } else {
        MulStrictZero(a, Pow2(k - 1));
      }
    }
  }

  /** The k-th binary digit of a, and b for it, after twice the remainder of the digits before it. */
  ghost predicate DigitFits(a: nat, b: nat, c: nat, k: nat)
    requires c > 0
  {
    Pow2(k) <= a ==> 2 * ((a / Pow2(k + 1) * b) % c) + a / Pow2(k) % 2 * b < TWO31
  }

  /** Without recursion: it is so for every binary digit of a. */
  lemma {:induction false} QuickFitsExact(a: nat, b: nat, c: nat)
    requires c > 0
    ensures QuickFits(a, b, c) <==> forall k: nat :: DigitFits(a, b, c, k)
  {
    if a > 0 {
      QuickFitsExact(a / 2, b, c);
      LastDigitFits(a, b, c);
      forall k: nat ensures DigitFits(a, b, c, k + 1) <==> DigitFits(a / 2, b, c, k) {
        DigitOfHalf(a, b, c, k);
      }
      if QuickFits(a, b, c) {
        forall k: nat ensures DigitFits(a, b, c, k) {
          if k > 0 {
            assert DigitFits(a / 2, b, c, k - 1);
          }
        }
      } else if QuickFits(a / 2, b, c) {
        assert !DigitFits(a, b, c, 0);
      } else {
        var k: nat :| !DigitFits(a / 2, b, c, k);
        assert !DigitFits(a, b, c, k + 1);
      }
    }
  }

  lemma LastDigitFits(a: nat, b: nat, c: nat)
    requires a > 0 && c > 0
    ensures DigitFits(a, b, c, 0) <==> Partial(a, b, c) < TWO31
  {
    assert Pow2(0) == 1 && Pow2(1) == 2 * Pow2(0);
    assert a / 1 == a;
  }

  lemma DigitOfHalf(a: nat, b: nat, c: nat, k: nat)
    requires c > 0
    ensures DigitFits(a, b, c, k + 1) <==> DigitFits(a / 2, b, c, k)
  {
    HalfOver(a, Pow2(k));
    HalfOver(a, Pow2(k + 1));
  }

  lemma HalfOver(a: nat, p: nat)
    requires p > 0
    ensures a / 2 / p == a / (2 * p) && (p <= a / 2 <==> 2 * p <= a)
  {
    var q, r := a / 2 / p, a / 2 % p;
    DivModUnique(a, 2 * p, q, 2 * r + a % 2);
  }

  lemma TwiceProduct(a: int, p: int)
    ensures a * (2 * p) == 2 * (a * p)
  {
  }

  lemma MulStrictZero(a: nat, p: nat)
    requires p > 0 && a * p == 0
    ensures a == 0
  {
    if a > 0 {
      MulStrict(0, a, p);
    }
  }

  /** "a*b/c with 64-bit intermediate accuracy" is not what the quick path gives for large c:
      2^30 * 2^30 / (3 * 2^29) is 715827882, well inside int32_t, and comes out wrong. */
  lemma QuickPathLosesQuotient()
    ensures var a, c := 0x4000_0000, 0x6000_0000;
            Quick(a, a, c) && (a * a) / c == 715827882 && !Computes(a, a, c)
  {
    var a, c := 0x4000_0000, 0x6000_0000;
    Pow2Values();
    Pow2Add(13, 16);
    assert Pow2(13) == 32 * Pow2(8);
    assert a == 2 * Pow2(29);
    SecondDigitOverflows();
    if QuickFits(a, a, c) {
      QuickFitsLeading(2, 29, a, c);
    }
  }

  lemma SecondDigitOverflows()
    ensures !QuickFits(2, 0x4000_0000, 0x6000_0000)
  {
    DivModUnique(0x4000_0000, 0x6000_0000, 0, 0x4000_0000);
    assert Partial(2, 0x4000_0000, 0x6000_0000) == 2 * 0x4000_0000;
  }

  /** Nor are overflows always reported as INT_MAX: 2^16 * 2^16 / 2 comes out as INT_MIN. */
  lemma SlowPathOverflowWraps()
    ensures var a, c := 0x1_0000, 2;
            !Quick(a, a, c) && TWO32 <= a * a < TWO32 * c && Wrap32(TruncDiv(a * a, c)) == -TWO31
  {
  }
}
