/** base/base32.h and base/base32.cc: a bit converter that regroups a stream of bits, and the
    Base32 encoder and decoder that drive it. */
module Base32 {
  import opened Machine

  type Byte = x: nat | x < 256

  // ---------------------------------------------------------------- bits and numbers

  /** The k low bits of v, the highest first. */
  function Bits(v: nat, k: nat): (bits: seq<bool>)
    ensures |bits| == k
  {
    if k == 0 then [] else Bits(v / 2, k - 1) + [v % 2 == 1]
  }

  function Value(bits: seq<bool>): (v: nat)
    ensures v < Pow2(|bits|)
  {
    if |bits| == 0 then 0
    else 2 * Value(bits[..|bits| - 1]) + (if bits[|bits| - 1] then 1 else 0)
  }

  function Zeros(k: nat): (bits: seq<bool>)
    ensures |bits| == k && forall i :: 0 <= i < k ==> !bits[i]
  {
    seq(k, _ => false)
  }

  lemma {:induction false} ValueOfBits(v: nat, k: nat)
    requires v < Pow2(k)
    ensures Value(Bits(v, k)) == v
  {
    if k > 0 {
      ValueOfBits(v / 2, k - 1);
      assert Bits(v, k)[..k - 1] == Bits(v / 2, k - 1);
    }
  }

  lemma {:induction false} BitsOfValue(bits: seq<bool>)
    ensures Bits(Value(bits), |bits|) == bits
  {
    if |bits| > 0 {
      BitsOfValue(bits[..|bits| - 1]);
    }
  }

  lemma {:induction false} ValueJoin(a: seq<bool>, b: seq<bool>)
    ensures Value(a + b) == Value(a) * Pow2(|b|) + Value(b)
  {
    if |b| == 0 {
      assert a + b == a;
    } else {
      var b' := b[..|b| - 1];
      ValueJoin(a, b');
      LastBit(a, b);
      Doubled(Value(a), Pow2(|b'|));
    }
  }

  lemma LastBit(a: seq<bool>, b: seq<bool>)
    requires |b| > 0
    ensures Value(a + b) == 2 * Value(a + b[..|b| - 1]) + (if b[|b| - 1] then 1 else 0)
  {
    assert (a + b)[..|a + b| - 1] == a + b[..|b| - 1];
    assert (a + b)[|a + b| - 1] == b[|b| - 1];
  }

  lemma Doubled(x: int, y: int)
    ensures x * (2 * y) == 2 * (x * y)
  {
  }

  lemma {:induction false} ValueZeros(k: nat)
    ensures Value(Zeros(k)) == 0
  {
    if k > 0 {
      assert Zeros(k)[..k - 1] == Zeros(k - 1);
      ValueZeros(k - 1);
    }
  }

  lemma {:induction false} ZeroValue(bits: seq<bool>)
    requires Value(bits) == 0
    ensures bits == Zeros(|bits|)
  {
    if |bits| > 0 {
      ZeroValue(bits[..|bits| - 1]);
    }
  }

  /** The upper part of a word is its quotient by the weight of the lower part, which is the
      remainder. */
  lemma ValueSplit(a: seq<bool>, b: seq<bool>)
    ensures Value(a + b) / Pow2(|b|) == Value(a) && Value(a + b) % Pow2(|b|) == Value(b)
  {
    ValueJoin(a, b);
    DivModUnique(Value(a + b), Pow2(|b|), Value(a), Value(b));
  }

  /** Bitwise or, of a non-negative int and any int. */
  function Or(a: nat, b: int): int {
    if a == 0 then b
    else 2 * Or(a / 2, b / 2) + (if a % 2 == 1 || b % 2 == 1 then 1 else 0)
  }

  /** Or adds when the bits do not overlap. */
  lemma {:induction false} OrDisjoint(a: nat, b: nat, h: nat, k: nat)
    requires a == h * Pow2(k) && b < Pow2(k)
    ensures Or(a, b) == a + b
  {
    if a != 0 {
      if k == 0 {
        assert b == 0;
        OrZero(a);
      } else {
        Doubled(h, Pow2(k - 1));
        OrDisjoint(a / 2, b / 2, h, k - 1);
      }
    }
  }

  lemma {:induction false} OrZero(a: nat)
    ensures Or(a, 0) == a
  {
    if a != 0 {
      OrZero(a / 2);
    }
  }

  // ---------------------------------------------------------------- the converter

  /** Takes groups of `from` bits and gives groups of `to` bits, through a 16-bit buffer. */
  class BitConverter {
    const from: nat
    const to: nat
    var buffer: int
    var lowerFree: int
    /** The bits appended and not yet extracted, the oldest first. */
    ghost var pending: seq<bool>

    ghost predicate Valid()
      reads this
    {
      && 2 * from <= 16 && 0 < to && 2 * to <= 16
      && 0 <= lowerFree <= 16 && |pending| == 16 - lowerFree
      && buffer == Value(pending + Zeros(lowerFree))
    }

    constructor (from: nat, to: nat)
      requires 2 * from <= 16 && 0 < to && 2 * to <= 16
      ensures Valid() && pending == [] && this.from == from && this.to == to && buffer == 0
    {
      this.from, this.to := from, to;
      buffer, lowerFree, pending := 0, 16, [];
      ValueZeros(16);
      assert [] + Zeros(16) == Zeros(16);
    }

    method Append(bits: int)
      requires Valid() && 0 <= bits < Pow2(from) && lowerFree >= from
      modifies this
      ensures Valid() && pending == old(pending) + Bits(bits, from)
    {
      AppendedValue(pending, bits, from, lowerFree, buffer);
      lowerFree := lowerFree - from;
      buffer := Or(buffer, bits * Pow2(lowerFree));
      pending := pending + Bits(bits, from);
    }

    /** A negative argument passes the source's check; the empty buffer takes its sign. */
    method AppendNegative(bits: int)
      requires Valid() && bits < 0 && pending == [] && lowerFree >= from
      modifies this
      ensures buffer == bits * Pow2(16 - from)
    {
      assert pending + Zeros(16) == Zeros(16);
      ValueZeros(16);
      assert buffer == 0;
      lowerFree := lowerFree - from;
      buffer := Or(buffer, bits * Pow2(lowerFree));
    }

    method Extract() returns (result: nat)
      requires Valid() && |pending| >= to
      modifies this
      ensures result < Pow2(to)
      ensures Valid() && Bits(result, to) == old(pending[..to]) && pending == old(pending[to..])
    {
      result := Peek();
      ghost var free := lowerFree + to;
      Extracted(pending, to, lowerFree, free, buffer, result);
      buffer := buffer * Pow2(to) % 0x1_0000;
      lowerFree := lowerFree + to;
      assert lowerFree == free;
      pending := pending[to..];
    }

    /** The next group; missing bits read as zero. */
    method Peek() returns (result: nat)
      requires Valid()
      ensures result == Value(Top(pending, to))
    {
      PeekedValue(pending, to, lowerFree);
      result := buffer / Pow2(16 - to);
    }

    method BitsAvailable() returns (k: int)
      requires Valid()
      ensures k == |pending|
    {
      k := 16 - lowerFree;
    }

    method CanAppend() returns (can: bool)
      requires Valid()
      ensures can <==> |pending| + from <= 16
    {
      can := lowerFree >= from;
    }

    method CanExtract() returns (can: bool)
      requires Valid()
      ensures can <==> |pending| >= to
    {
      var k := BitsAvailable();
      can := k >= to;
    }
  }

  /** The first k bits, filled up with zeros when there are fewer. */
  function Top(bits: seq<bool>, k: nat): (top: seq<bool>)
    ensures |top| == k
  {
    if |bits| >= k then bits[..k] else bits + Zeros(k - |bits|)
  }

  lemma AppendedValue(pending: seq<bool>, bits: nat, from: nat, free: nat, buffer: nat)
    requires bits < Pow2(from) && from <= free && buffer == Value(pending + Zeros(free))
    ensures Or(buffer, bits * Pow2(free - from)) == Value(pending + Bits(bits, from) + Zeros(free - from))
  {
    ValueJoin(pending, Zeros(free));
    ValueZeros(free);
    OrGroup(Value(pending), bits, from, free);
    ThreeParts(pending, bits, from, free - from);
  }

  lemma OrGroup(p: nat, bits: nat, from: nat, free: nat)
    requires bits < Pow2(from) && from <= free
    ensures Or(p * Pow2(free), bits * Pow2(free - from)) == (p * Pow2(from) + bits) * Pow2(free - from)
  {
    var group := Pow2(free - from);
    Pow2Add(free - from, from);
    ScaledBelow(bits, Pow2(from), group);
    OrDisjoint(p * Pow2(free), bits * group, p, free);
    Distribute(p, Pow2(from), bits, group);
  }

  lemma ThreeParts(pending: seq<bool>, bits: nat, from: nat, free: nat)
    requires bits < Pow2(from)
    ensures Value(pending + Bits(bits, from) + Zeros(free)) == (Value(pending) * Pow2(from) + bits) * Pow2(free)
  {
    ValueZeros(free);
    ValueOfBits(bits, from);
    JoinThree(pending, Bits(bits, from), Zeros(free), Pow2(from), Pow2(free), bits);
  }

  lemma JoinThree(a: seq<bool>, b: seq<bool>, c: seq<bool>, pb: nat, pc: nat, vb: nat)
    requires pb == Pow2(|b|) && pc == Pow2(|c|) && Value(b) == vb && Value(c) == 0
    ensures Value(a + b + c) == (Value(a) * pb + vb) * pc
  {
    ValueJoin(a, b);
    ValueJoin(a + b, c);
  }

  lemma ScaledBelow(x: nat, y: nat, k: nat)
    requires x < y && k > 0
    ensures 0 <= x * k < k * y
  {
  }

  lemma Distribute(p: int, f: int, b: int, g: int)
    ensures (p * f + b) * g == p * (g * f) + b * g
  {
  }

  /** Taking the oldest `to` bits out of the buffer. */
  lemma Extracted(pending: seq<bool>, to: nat, free: nat, free': nat, buffer: nat, result: nat)
    requires free' == free + to && to <= |pending| && |pending| + free == 16 && buffer == Value(pending + Zeros(free))
    requires result == Value(Top(pending, to))
    ensures result < Pow2(to) && Bits(result, to) == pending[..to]
    ensures buffer * Pow2(to) % 0x1_0000 == Value(pending[to..] + Zeros(free'))
  {
    BitsOfValue(Top(pending, to));
    ShiftedValue(pending, to, free, free');
  }

  lemma PeekedValue(pending: seq<bool>, to: nat, free: nat)
    requires |pending| + free == 16 && to <= 16
    ensures Value(pending + Zeros(free)) / Pow2(16 - to) == Value(Top(pending, to))
  {
    var word := pending + Zeros(free);
    assert word[..to] == Top(pending, to);
    ValueAbove(word, to, 16 - to);
  }

  lemma ValueAbove(word: seq<bool>, n: nat, k: nat)
    requires |word| == n + k
    ensures Value(word) / Pow2(k) == Value(word[..n])
  {
    assert word == word[..n] + word[n..];
    ValueSplit(word[..n], word[n..]);
  }

  lemma ShiftedValue(pending: seq<bool>, to: nat, free: nat, free': nat)
    requires |pending| + free == 16 && to <= |pending| && free' == free + to
    ensures Value(pending + Zeros(free)) * Pow2(to) % 0x1_0000 == Value(pending[to..] + Zeros(free'))
  {
    var low := pending[to..] + Zeros(free');
    ShiftedWord(pending, to, free, free');
    ValueSplit(pending[..to], low);
    Pow2Values();
    assert |low| == 16;
  }

  lemma ShiftedWord(pending: seq<bool>, to: nat, free: nat, free': nat)
    requires to <= |pending| && free' == free + to
    ensures Value(pending + Zeros(free)) * Pow2(to) == Value(pending[..to] + (pending[to..] + Zeros(free')))
  {
    ValueZeros(to);
    ValueJoin(pending + Zeros(free), Zeros(to));
    assert pending + Zeros(free) + Zeros(to) == pending[..to] + (pending[to..] + Zeros(free'));
  }

  // ---------------------------------------------------------------- grouping a stream of bits

  /** The stream of bits of a sequence of k-bit values. */
  function Join(values: seq<nat>, k: nat): (bits: seq<bool>) {
    if |values| == 0 then [] else Join(values[..|values| - 1], k) + Bits(values[|values| - 1], k)
  }

  /** The k-bit groups of a stream; a short last group is filled up with zeros. */
  function Groups(bits: seq<bool>, k: nat): (values: seq<nat>)
    requires k > 0
    decreases |bits|
  {
    if |bits| == 0 then []
    else if |bits| < k then [Value(Top(bits, k))]
    else [Value(bits[..k])] + Groups(bits[k..], k)
  }

  /** The complete k-bit groups of a stream. */
  function Whole(bits: seq<bool>, k: nat): (values: seq<nat>)
    requires k > 0
    decreases |bits|
  {
    if |bits| < k then [] else [Value(bits[..k])] + Whole(bits[k..], k)
  }

  /** The bits after the last complete group. */
  function Left(bits: seq<bool>, k: nat): (rest: seq<bool>)
    requires k > 0
    decreases |bits|
  {
    if |bits| < k then bits else Left(bits[k..], k)
  }

  ghost predicate Below(values: seq<nat>, limit: nat) {
    forall i :: 0 <= i < |values| ==> values[i] < limit
  }

  lemma {:induction false} JoinFront(values: seq<nat>, k: nat)
    requires |values| > 0
    ensures Join(values, k) == Bits(values[0], k) + Join(values[1..], k)
  {
    var n := |values| - 1;
    if n == 0 {
      assert Join(values[..0], k) == [] && Join(values[1..], k) == [];
    } else {
      JoinFront(values[..n], k);
      assert values[..n][1..] == values[1..][..n - 1];
    }
  }

  lemma {:induction false} JoinLength(values: seq<nat>, k: nat)
    ensures |Join(values, k)| == |values| * k
  {
    if |values| > 0 {
      JoinLength(values[..|values| - 1], k);
      MulNext(|values| - 1, k);
    }
  }

  lemma MulNext(n: int, k: int)
    ensures (n + 1) * k == n * k + k
  {
  }

  /** One complete group at the front of a stream. */
  lemma FirstGroup(group: seq<bool>, bits: seq<bool>, k: nat)
    requires |group| == k > 0
    ensures Whole(group + bits, k) == [Value(group)] + Whole(bits, k)
    ensures Left(group + bits, k) == Left(bits, k)
  {
    assert (group + bits)[..k] == group && (group + bits)[k..] == bits;
  }

  /** Regrouping a stream that was put together from k-bit values gives the values back. */
  lemma {:induction false} Regroup(values: seq<nat>, rest: seq<bool>, k: nat)
    requires k > 0 && Below(values, Pow2(k)) && |rest| < k
    ensures Whole(Join(values, k) + rest, k) == values && Left(Join(values, k) + rest, k) == rest
  {
    if |values| == 0 {
      assert Join(values, k) + rest == rest;
    } else {
      var first, others := values[0], values[1..];
      assert values == [first] + others;
      Regroup(others, rest, k);
      RegroupNext(first, others, rest, k);
    }
  }

  lemma RegroupNext(first: nat, others: seq<nat>, rest: seq<bool>, k: nat)
    requires k > 0 && first < Pow2(k)
    ensures Whole(Join([first] + others, k) + rest, k) == [first] + Whole(Join(others, k) + rest, k)
    ensures Left(Join([first] + others, k) + rest, k) == Left(Join(others, k) + rest, k)
  {
    var after := Join(others, k) + rest;
    Prepend(first, others, k);
    ValueOfBits(first, k);
    assert Join([first] + others, k) + rest == Bits(first, k) + after;
    FirstGroup(Bits(first, k), after, k);
  }

  /** The group that holds the bits after the last complete one, if there are any. */
  function LastGroup(rest: seq<bool>, k: nat): (values: seq<nat>) {
    if |rest| == 0 then [] else [Value(Top(rest, k))]
  }

  lemma {:induction false} GroupsOf(bits: seq<bool>, k: nat)
    requires k > 0
    ensures Groups(bits, k) == Whole(bits, k) + LastGroup(Left(bits, k), k)
    decreases |bits|
  {
    if |bits| >= k {
      GroupsOf(bits[k..], k);
    }
  }

  /** Every stream is made of its complete groups and what is left after them. */
  lemma {:induction false} Ungroup(bits: seq<bool>, k: nat)
    requires k > 0
    ensures bits == Join(Whole(bits, k), k) + Left(bits, k) && |Left(bits, k)| < k
    decreases |bits|
  {
    if |bits| >= k {
      var group, after := bits[..k], bits[k..];
      assert bits == group + after;
      Ungroup(after, k);
      BitsOfValue(group);
      FirstGroup(group, after, k);
      Prepend(Value(group), Whole(after, k), k);
      assert group + (Join(Whole(after, k), k) + Left(after, k)) == bits;
    }
  }

  lemma {:induction false} WholeBelow(bits: seq<bool>, k: nat)
    requires k > 0
    ensures Below(Whole(bits, k), Pow2(k))
    decreases |bits|
  {
    if |bits| >= k {
      WholeBelow(bits[k..], k);
    }
  }

  lemma Prepend(value: nat, rest: seq<nat>, k: nat)
    ensures Join([value] + rest, k) == Bits(value, k) + Join(rest, k)
  {
    JoinFront([value] + rest, k);
    assert ([value] + rest)[1..] == rest;
  }

  // ---------------------------------------------------------------- the alphabet

  const ENCODING: string := "ABCDEFGHIJKLMNOPQRSTUVWXYZ234567"

  /** Starts at the character 2. */
  const DECODE_MAP: seq<int> :=
    [26, 27, 28, 29, 30, 31, -1, -1, -1, -1, -1, -1, -1, -1,
     -1, 0, 1, 2, 3, 4, 5, 6, 7, 8, 9, 10, 11, 12,
     13, 14, 15, 16, 17, 18, 19, 20, 21, 22, 23, 24, 25]

  /** The alphabet of section 6 of RFC 4648. */
  function Symbol(v: nat): (c: char)
    requires v < 32
  {
    if v < 26 then 'A' + v as char else '2' + (v - 26) as char
  }

  /** The value of a character, or -1. */
  function Digit(c: char): (d: int)
    ensures -1 <= d < 32
  {
    if 'A' <= c <= 'Z' then c as int - 'A' as int
    else if '2' <= c <= '7' then c as int - '2' as int + 26
    else -1
  }

  method SymbolOf(index: int) returns (c: char)
    requires 0 <= index < 32
    ensures c == Symbol(index)
  {
    c := ENCODING[index];
  }

  /** What the table says of a character; -1 also when it is outside the table. */
  method Lookup(c: char) returns (d: int)
    ensures d == Digit(c)
  {
    var index := c as int - '2' as int;
    if index < 0 || index >= |DECODE_MAP| || DECODE_MAP[index] == -1 {
      return -1;
    }
    return DECODE_MAP[index];
  }

  lemma DigitOfSymbol(v: nat)
    requires v < 32
    ensures Digit(Symbol(v)) == v
  {
  }

  lemma SymbolOfDigit(c: char)
    requires Digit(c) != -1
    ensures Symbol(Digit(c)) == c
  {
  }

  function Symbols(values: seq<nat>): (text: string)
    requires forall i :: 0 <= i < |values| ==> values[i] < 32
    ensures |text| == |values|
  {
    seq(|values|, i requires 0 <= i < |values| => Symbol(values[i]))
  }

  predicate AllDigits(text: string) {
    forall i :: 0 <= i < |text| ==> Digit(text[i]) != -1
  }

  function Digits(text: string): (values: seq<nat>)
    requires AllDigits(text)
    ensures |values| == |text| && forall i :: 0 <= i < |text| ==> values[i] == Digit(text[i]) < 32
  {
    seq(|text|, i requires 0 <= i < |text| => Digit(text[i]))
  }

  // ---------------------------------------------------------------- the code of section 6 of RFC 4648

  /** The code without its padding characters (section 3.2 of RFC 4648). */
  function EncodedText(input: seq<nat>): (text: string) {
    var values := Groups(Join(input, 8), 5);
    GroupsBelow(Join(input, 8));
    Symbols(values)
  }

  lemma GroupsBelow(bits: seq<bool>)
    ensures Below(Groups(bits, 5), 32)
  {
    GroupsOf(bits, 5);
    WholeBelow(bits, 5);
    assert Pow2(5) == 32;
  }

  /** What the encoder comes to.  OutOfRange is a read of the table at a negative index. */
  datatype Encoding = Encoded(ok: bool, text: string) | OutOfRange(index: int)

  const MAX_SIZE: int := 0xFFFF_FFFF_FFFF_FFFF

  /** The first byte reaches the converter as a signed char. */
  function Encode(input: seq<Byte>): Encoding {
    if |input| == 0 then Encoded(true, "")
    else if |input| > MAX_SIZE / 8 then Encoded(false, "")
    else if input[0] >= 128 then OutOfRange(input[0] as int / 8 - 32)
    else Encoded(true, EncodedText(input))
  }

  /** The characters before the first one outside the alphabet. */
  function ValidPrefix(text: string): (n: nat)
    ensures n <= |text| && AllDigits(text[..n])
    ensures n < |text| ==> Digit(text[n]) == -1
  {
    if |text| == 0 || Digit(text[0]) == -1 then 0
    else
      var n := ValidPrefix(text[1..]);
      assert text[..n + 1] == [text[0]] + text[1..][..n];
      n + 1
  }

  datatype Decoding = Decoded(ok: bool, bytes: seq<nat>)

  /** The complete bytes of the valid characters; accepted when no character is outside the
      alphabet and the bits left over are zero (section 3.5 of RFC 4648). */
  function Decode(text: string): Decoding {
    var n := ValidPrefix(text);
    var bits := Join(Digits(text[..n]), 5);
    Decoded(n == |text| && Value(Left(bits, 8)) == 0, Whole(bits, 8))
  }

  // ---------------------------------------------------------------- the loops

  method Base32Encode(input: seq<Byte>) returns (result: Encoding)
    ensures result == Encode(input)
  {
    if |input| == 0 {
      return Encoded(true, "");
    }
    if |input| > MAX_SIZE / 8 {
      return Encoded(false, "");
    }
    var converter := new BitConverter(8, 5);
    Pow2Values();
    if input[0] >= 128 {
      converter.AppendNegative(input[0] as int - 256);
      return OutOfRange(converter.buffer / Pow2(16 - 5));
    }
    converter.Append(input[0]);
    StartOfStream(input);
    var text := EncodeStream(input, converter);
    return Encoded(true, text);
  }

  /** The loop of Base32Encode, with the first byte in the converter. */
  method EncodeStream(input: seq<Byte>, converter: BitConverter) returns (text: string)
    requires converter.Valid() && converter.from == 8 && converter.to == 5
    requires EncoderState(input, 1, [], "", converter.pending) && |converter.pending| == 8
    modifies converter
    ensures text == EncodedText(input)
  {
    var next := 1;
    text := "";
    ghost var values: seq<nat> := [];
    while true
      invariant converter.Valid() && converter.from == 8 && converter.to == 5
      invariant EncoderState(input, next, values, text, converter.pending)
      invariant next < |input| ==> |converter.pending| >= 5
      decreases 8 * (|input| - next) + |converter.pending|
    {
      var can := converter.CanExtract();
      if !can {
        break;
      }
      ghost var before := converter.pending;
      var index := converter.Extract();
      var c := SymbolOf(index);
      MoveSymbol(input, next, values, text, before, index);
      values := values + [index];
      text := text + [c];
      can := converter.CanAppend();
      if can && next < |input| {
        TakeByte(input, next, values, text, converter.pending);
        converter.Append(input[next]);
        next := next + 1;
      }
    }
    FinishEncoding(input, values, text, converter.pending);
    var k := converter.BitsAvailable();
    if k > 0 {
      var index := converter.Peek();
      var c := SymbolOf(index);
      text := text + [c];
    }
  }

  predicate Spelled(text: string, values: seq<nat>) {
    |text| == |values| && forall i :: 0 <= i < |text| ==> values[i] < 32 && text[i] == Symbol(values[i])
  }

  /** The state of the encoder's loop: the values written and the pending bits are the stream
      of the bytes taken. */
  ghost predicate EncoderState(input: seq<Byte>, next: int, values: seq<nat>, text: string, pending: seq<bool>) {
    && 1 <= next <= |input| && Spelled(text, values)
    && Join(values, 5) + pending == Join(input[..next], 8)
  }

  lemma MoveSymbol(input: seq<Byte>, next: int, values: seq<nat>, text: string, pending: seq<bool>, index: nat)
    requires EncoderState(input, next, values, text, pending)
    requires index < 32 && |pending| >= 5 && Bits(index, 5) == pending[..5]
    ensures EncoderState(input, next, values + [index], text + [Symbol(index)], pending[5..])
  {
    MoveGroup(values, pending, index, 5);
  }

  lemma StartOfStream(input: seq<Byte>)
    requires |input| > 0
    ensures EncoderState(input, 1, [], "", Bits(input[0], 8))
  {
    assert input[..1] == [] + [input[0]];
  }

  lemma MoveGroup(values: seq<nat>, pending: seq<bool>, value: nat, k: nat)
    requires |pending| >= k && Bits(value, k) == pending[..k]
    ensures Join(values + [value], k) + pending[k..] == Join(values, k) + pending
  {
    assert (values + [value])[..|values|] == values;
    assert pending == pending[..k] + pending[k..];
  }

  lemma TakeByte(input: seq<Byte>, next: nat, values: seq<nat>, text: string, pending: seq<bool>)
    requires next < |input| && EncoderState(input, next, values, text, pending)
    ensures EncoderState(input, next + 1, values, text, pending + Bits(input[next], 8))
  {
    JoinNext(input, next, 8);
    Associate(Join(values, 5), pending, Bits(input[next], 8), Join(input[..next], 8));
  }

  lemma JoinNext(values: seq<nat>, n: nat, k: nat)
    requires n < |values|
    ensures Join(values[..n + 1], k) == Join(values[..n], k) + Bits(values[n], k)
  {
    assert values[..n + 1][..n] == values[..n];
  }

  lemma Associate<T>(a: seq<T>, b: seq<T>, c: seq<T>, ab: seq<T>)
    requires a + b == ab
    ensures a + (b + c) == ab + c
  {
  }

  lemma FinishEncoding(input: seq<Byte>, values: seq<nat>, text: string, pending: seq<bool>)
    requires EncoderState(input, |input|, values, text, pending) && |pending| < 5
    ensures |pending| == 0 ==> text == EncodedText(input)
    ensures |pending| > 0 ==> Value(Top(pending, 5)) < 32 && text + [Symbol(Value(Top(pending, 5)))] == EncodedText(input)
  {
    assert input[..|input|] == input && Pow2(5) == 32;
    assert Below(values, 32);
    Regroup(values, pending, 5);
    GroupsOf(Join(input, 8), 5);
    assert Groups(Join(input, 8), 5) == values + LastGroup(pending, 5);
  }

  method Base32Decode(text: string) returns (result: Decoding)
    ensures result == Decode(text)
  {
    var bytes: seq<nat> := [];
    var converter := new BitConverter(5, 8);
    for i := 0 to |text|
      invariant converter.Valid() && fresh(converter) && converter.from == 5 && converter.to == 8
      invariant DecoderState(text, i, bytes, converter.pending) && |converter.pending| < 8
    {
      var digit := Lookup(text[i]);
      if digit == -1 {
        StopDecoding(text, i, bytes, converter.pending);
        return Decoded(false, bytes);
      }
      TakeCharacter(text, i, bytes, converter.pending);
      converter.Append(digit);
      var can := converter.CanExtract();
      if can {
        ghost var before := converter.pending;
        var byte := converter.Extract();
        MoveByte(text, i + 1, bytes, before, byte);
        bytes := bytes + [byte];
      }
    }
    StopDecoding(text, |text|, bytes, converter.pending);
    var rest := converter.Peek();
    return Decoded(rest == 0, bytes);
  }

  /** The state of the decoder's loop: the bytes found and the pending bits are the stream of
      the characters read. */
  ghost predicate DecoderState(text: string, i: int, bytes: seq<nat>, pending: seq<bool>) {
    && 0 <= i <= |text| && AllDigits(text[..i]) && Below(bytes, 256)
    && Join(bytes, 8) + pending == Join(Digits(text[..i]), 5)
  }

  lemma TakeCharacter(text: string, i: nat, bytes: seq<nat>, pending: seq<bool>)
    requires i < |text| && DecoderState(text, i, bytes, pending) && Digit(text[i]) != -1
    ensures DecoderState(text, i + 1, bytes, pending + Bits(Digit(text[i]), 5))
  {
    assert text[..i + 1] == text[..i] + [text[i]];
    assert Digits(text[..i + 1])[..i] == Digits(text[..i]);
    Associate(Join(bytes, 8), pending, Bits(Digit(text[i]), 5), Join(Digits(text[..i]), 5));
  }

  lemma MoveByte(text: string, i: nat, bytes: seq<nat>, pending: seq<bool>, byte: nat)
    requires DecoderState(text, i, bytes, pending)
    requires byte < 256 && |pending| >= 8 && Bits(byte, 8) == pending[..8]
    ensures DecoderState(text, i, bytes + [byte], pending[8..])
  {
    MoveGroup(bytes, pending, byte, 8);
  }

  lemma {:induction false} PrefixIs(text: string, n: nat)
    requires n <= |text| && (n < |text| ==> Digit(text[n]) == -1)
    requires forall i :: 0 <= i < n ==> Digit(text[i]) != -1
    ensures ValidPrefix(text) == n
  {
    if n > 0 {
      PrefixIs(text[1..], n - 1);
    }
  }

  lemma StopDecoding(text: string, n: nat, bytes: seq<nat>, pending: seq<bool>)
    requires n <= |text| && (n < |text| ==> Digit(text[n]) == -1)
    requires DecoderState(text, n, bytes, pending) && |pending| < 8
    ensures Decode(text) == Decoded(n == |text| && Value(Top(pending, 8)) == 0, bytes)
  {
    assert forall i :: 0 <= i < n ==> text[..n][i] == text[i];
    PrefixIs(text, n);
    Pow2Values();
    Regroup(bytes, pending, 8);
    TopIsZero(pending, 8);
  }

  lemma TopIsZero(bits: seq<bool>, k: nat)
    requires |bits| <= k
    ensures Value(Top(bits, k)) == 0 <==> Value(bits) == 0
  {
    if |bits| < k {
      ValueJoin(bits, Zeros(k - |bits|));
      ValueZeros(k - |bits|);
      ScaledIsZero(Value(bits), Pow2(k - |bits|));
    } else {
      assert Top(bits, k) == bits;
    }
  }

  lemma ScaledIsZero(x: nat, y: nat)
    requires y > 0
    ensures x * y == 0 <==> x == 0
  {
  }

  // ---------------------------------------------------------------- the two undo each other

  /** The groups, put together, are the stream filled up with zeros. */
  lemma PaddedStream(bits: seq<bool>, k: nat) returns (pad: nat)
    requires k > 0
    ensures pad < k && Join(Groups(bits, k), k) == bits + Zeros(pad)
  {
    var rest := Left(bits, k);
    GroupsOf(bits, k);
    Ungroup(bits, k);
    if |rest| == 0 {
      pad := 0;
      assert Whole(bits, k) + [] == Whole(bits, k);
      assert Join(Whole(bits, k), k) + rest == Join(Whole(bits, k), k);
      assert bits + Zeros(0) == bits;
    } else {
      pad := k - |rest|;
      BitsOfValue(Top(rest, k));
      JoinLast(Whole(bits, k), Value(Top(rest, k)), k);
      assert Join(Whole(bits, k), k) + (rest + Zeros(pad)) == bits + Zeros(pad);
    }
  }

  lemma JoinLast(values: seq<nat>, value: nat, k: nat)
    ensures Join(values + [value], k) == Join(values, k) + Bits(value, k)
  {
    assert (values + [value])[..|values|] == values;
  }

  lemma DigitsOfSymbols(values: seq<nat>)
    requires Below(values, 32)
    ensures AllDigits(Symbols(values)) && Digits(Symbols(values)) == values
  {
    forall i | 0 <= i < |values| ensures Digit(Symbols(values)[i]) == values[i] {
      DigitOfSymbol(values[i]);
    }
  }

  lemma SymbolsOfDigits(text: string)
    requires AllDigits(text)
    ensures Symbols(Digits(text)) == text
  {
    forall i | 0 <= i < |text| ensures Symbols(Digits(text))[i] == text[i] {
      SymbolOfDigit(text[i]);
    }
  }

  /** One character for every five bits, rounded up. */
  lemma EncodedLength(input: seq<nat>)
    ensures |EncodedText(input)| == (8 * |input| + 4) / 5
  {
    var bits := Join(input, 8);
    var pad := PaddedStream(bits, 5);
    JoinLength(input, 8);
    JoinLength(Groups(bits, 5), 5);
  }

  /** Decoding undoes encoding, for all bytes. */
  lemma DecodeUndoesEncode(input: seq<nat>)
    requires Below(input, 256)
    ensures Decode(EncodedText(input)) == Decoded(true, input)
  {
    var bits := Join(input, 8);
    var values := Groups(bits, 5);
    var text := EncodedText(input);
    var pad := PaddedStream(bits, 5);
    GroupsBelow(bits);
    DigitsOfSymbols(values);
    assert text[..|text|] == text;
    StopDecoding(text, |text|, input, Zeros(pad));
    ValueZeros(pad);
    TopIsZero(Zeros(pad), 8);
  }

  /** The round trip through both functions works exactly when the encoder reads its table in
      range: the input is empty, or short enough with a first byte below 0x80. */
  lemma RoundTrip(input: seq<Byte>)
    ensures (exists text :: Encode(input) == Encoded(true, text) && Decode(text) == Decoded(true, input))
       <==> |input| == 0 || (|input| <= MAX_SIZE / 8 && input[0] < 128)
  {
    if |input| == 0 {
      assert Decode("") == Decoded(true, input);
    } else if |input| <= MAX_SIZE / 8 && input[0] < 128 {
      DecodeUndoesEncode(input);
    }
  }

  /** Encoding what a text decodes to. */
  function Recode(text: string): Encoding {
    DecodedBelow(text);
    Encode(Decode(text).bytes)
  }

  lemma DecodedBelow(text: string)
    ensures Below(Decode(text).bytes, 256)
  {
    WholeBelow(Join(Digits(text[..ValidPrefix(text)]), 5), 8);
    Pow2Values();
  }

  /** An accepted text comes out of the encoder again exactly when no character of it carries
      padding bits only and the encoder takes what it decodes to: the first byte is below 0x80,
      so the first character among the first sixteen, and there are not too many. */
  lemma EncodeUndoesDecode(text: string)
    requires Decode(text).ok
    ensures Recode(text) == Encoded(true, text)
       <==> |text| % 8 in {0, 2, 4, 5, 7} && (text == "" || (Digit(text[0]) < 16 && 5 * |text| / 8 <= MAX_SIZE / 8))
  {
    TextAgain(text);
    DecodedLength(text);
    if |text| >= 2 {
      FirstByte(text);
    }
  }

  lemma DecodedLength(text: string)
    requires Decode(text).ok
    ensures |Decode(text).bytes| == 5 * |text| / 8
  {
    assert text[..|text|] == text;
    var bits := Join(Digits(text), 5);
    Ungroup(bits, 8);
    JoinLength(Digits(text), 5);
    JoinLength(Whole(bits, 8), 8);
  }

  /** The top bit of the first byte is that of the first character. */
  lemma FirstByte(text: string)
    requires Decode(text).ok && |text| >= 2
    ensures |Decode(text).bytes| > 0 && (Decode(text).bytes[0] >= 128 <==> Digit(text[0]) >= 16)
  {
    assert text[..|text|] == text;
    var values := Digits(text);
    var bits := Join(values, 5);
    JoinLength(values, 5);
    JoinFront(values, 5);
    Pow2Values();
    assert Pow2(4) == 16 && Pow2(5) == 32;
    Pow2Add(3, 4);
    ValueOfBits(values[0], 5);
    TopBit(Bits(values[0], 5));
    TopBit(bits[..8]);
  }

  lemma TopBit(bits: seq<bool>)
    requires |bits| > 0
    ensures Value(bits) >= Pow2(|bits| - 1) <==> bits[0]
  {
    var a, b := bits[..1], bits[1..];
    assert bits == a + b;
    ValueJoin(a, b);
  }

  /** The symbols of an accepted text are those of what it decodes to exactly when no character
      of it carries padding bits only. */
  lemma TextAgain(text: string)
    requires Decode(text).ok
    ensures EncodedText(Decode(text).bytes) == text <==> |text| % 8 in {0, 2, 4, 5, 7}
  {
    assert text[..|text|] == text;
    var bits := Join(Digits(text), 5);
    var bytes, rest := Whole(bits, 8), Left(bits, 8);
    Ungroup(bits, 8);
    ZeroValue(rest);
    JoinLength(Digits(text), 5);
    JoinLength(bytes, 8);
    Remainder(|text|, |bytes|, |rest|);
    if |rest| < 5 {
      SameGroups(Digits(text), Join(bytes, 8), |rest|);
      SymbolsOfDigits(text);
    } else {
      EncodedLength(bytes);
    }
  }

  lemma Remainder(m: nat, n: nat, r: nat)
    requires 5 * m == 8 * n + r && r < 8
    ensures r < 5 <==> m % 8 in {0, 2, 4, 5, 7}
    ensures r >= 5 ==> (8 * n + 4) / 5 < m
  {
    var a, c := m / 8, m % 8;
    assert 5 * c - 8 * (n - 5 * a) == r;
  }

  /** Groups of five that put together give the stream and fewer than five zeros are its groups. */
  lemma SameGroups(values: seq<nat>, bits: seq<bool>, pad: nat)
    requires Below(values, 32) && pad < 5 && Join(values, 5) == bits + Zeros(pad)
    ensures Groups(bits, 5) == values
  {
    var pad' := PaddedStream(bits, 5);
    var groups := Groups(bits, 5);
    JoinLength(values, 5);
    JoinLength(groups, 5);
    SamePad(|values|, |groups|, |bits|, pad, pad');
    GroupsBelow(bits);
    assert Pow2(5) == 32;
    JoinInjective(values, groups, 5);
  }

  lemma SamePad(m: nat, n: nat, k: nat, pad: nat, pad': nat)
    requires m * 5 == k + pad && n * 5 == k + pad' && pad < 5 && pad' < 5
    ensures pad == pad'
  {
  }

  lemma JoinInjective(a: seq<nat>, b: seq<nat>, k: nat)
    requires k > 0 && Below(a, Pow2(k)) && Below(b, Pow2(k)) && Join(a, k) == Join(b, k)
    ensures a == b
  {
    Regroup(a, [], k);
    Regroup(b, [], k);
  }

  /** The number that digits make in a base, the most significant first. */
  function NumberOf(digits: seq<nat>, base: nat): nat {
    if |digits| == 0 then 0 else NumberOf(digits[..|digits| - 1], base) * base + digits[|digits| - 1]
  }

  lemma {:induction false} JoinNumber(values: seq<nat>, k: nat)
    requires Below(values, Pow2(k))
    ensures Value(Join(values, k)) == NumberOf(values, Pow2(k))
  {
    if |values| > 0 {
      var n := |values| - 1;
      JoinNumber(values[..n], k);
      ValueJoin(Join(values[..n], k), Bits(values[n], k));
      ValueOfBits(values[n], k);
    }
  }

  /** The characters are the letters and then the digits from 2 on. */
  lemma Alphabet(v: nat)
    requires v < 32
    ensures Symbol(v) as int == if v < 26 then 65 + v else 24 + v
    ensures Symbol(0) == 'A' && Symbol(25) == 'Z' && Symbol(26) == '2' && Symbol(31) == '7'
  {
  }

  /** What the code is, in numbers: the characters, as digits in base 32, make the number that the
      bytes make in base 256, times the power of two that fills up the last character. */
  lemma EncodedNumber(input: seq<nat>, digits: seq<nat>)
    requires Below(input, 256)
    requires |digits| == |EncodedText(input)|
    requires forall i :: 0 <= i < |digits| ==> digits[i] < 32 && EncodedText(input)[i] == Symbol(digits[i])
    ensures 0 <= 5 * |digits| - 8 * |input| < 5
    ensures NumberOf(digits, 32) == NumberOf(input, 256) * Pow2(5 * |digits| - 8 * |input|)
  {
    var bits := Join(input, 8);
    var groups := Groups(bits, 5);
    GroupsBelow(bits);
    SameDigits(digits, groups);
    Pow2Values();
    assert Pow2(5) == 32 && Pow2(8) == 256;
    JoinNumber(input, 8);
    JoinNumber(groups, 5);
    var pad := PaddedStream(bits, 5);
    JoinLength(groups, 5);
    JoinLength(input, 8);
    ValueJoin(bits, Zeros(pad));
    ValueZeros(pad);
  }

  lemma SameDigits(digits: seq<nat>, groups: seq<nat>)
    requires Below(groups, 32) && |digits| == |groups|
    requires forall i :: 0 <= i < |digits| ==> digits[i] < 32 && Symbols(groups)[i] == Symbol(digits[i])
    ensures digits == groups
  {
    forall i | 0 <= i < |digits| ensures digits[i] == groups[i] {
      DigitOfSymbol(digits[i]);
      DigitOfSymbol(groups[i]);
    }
  }

  /** What decoding is, in numbers.  Of the n characters before the first one outside the alphabet,
      taken as digits in base 32, the bytes are the number without its last 5n % 8 bits; the text is
      accepted when it has no such character and these bits are zero. */
  lemma DecodedNumber(text: string, n: nat, digits: seq<nat>)
    requires n <= |text| && |digits| == n && forall i :: 0 <= i < n ==> digits[i] < 32 && text[i] == Symbol(digits[i])
    requires n < |text| ==> forall v :: 0 <= v < 32 ==> Symbol(v) != text[n]
    ensures var bytes, rest := Decode(text).bytes, Pow2(5 * n % 8);
            && Below(bytes, 256) && |bytes| == 5 * n / 8
            && NumberOf(bytes, 256) == NumberOf(digits, 32) / rest
            && (Decode(text).ok <==> n == |text| && NumberOf(digits, 32) % rest == 0)
  {
    DecodedBelow(text);
    PrefixDigits(text, n, digits);
    var bits := Join(digits, 5);
    Pow2Values();
    assert Pow2(5) == 32 && Pow2(8) == 256;
    StreamNumber(digits, bits);
  }

  lemma PrefixDigits(text: string, n: nat, digits: seq<nat>)
    requires n <= |text| && |digits| == n && forall i :: 0 <= i < n ==> digits[i] < 32 && text[i] == Symbol(digits[i])
    requires n < |text| ==> forall v :: 0 <= v < 32 ==> Symbol(v) != text[n]
    ensures ValidPrefix(text) == n && Digits(text[..n]) == digits
  {
    forall i | 0 <= i < n ensures Digit(text[i]) == digits[i] {
      DigitOfSymbol(digits[i]);
    }
    if n < |text| {
      NoSymbol(text[n]);
    }
    PrefixIs(text, n);
  }

  lemma NoSymbol(c: char)
    requires forall v :: 0 <= v < 32 ==> Symbol(v) != c
    ensures Digit(c) == -1
  {
    if Digit(c) != -1 {
      SymbolOfDigit(c);
    }
  }

  lemma StreamNumber(digits: seq<nat>, bits: seq<bool>)
    requires Below(digits, 32) && bits == Join(digits, 5)
    ensures var bytes, left, rest := Whole(bits, 8), Left(bits, 8), Pow2(5 * |digits| % 8);
            && |bytes| == 5 * |digits| / 8
            && NumberOf(bytes, 256) == NumberOf(digits, 32) / rest && Value(left) == NumberOf(digits, 32) % rest
  {
    var bytes, left := Whole(bits, 8), Left(bits, 8);
    Pow2Values();
    assert Pow2(5) == 32 && Pow2(8) == 256;
    WholeBelow(bits, 8);
    Ungroup(bits, 8);
    JoinLength(digits, 5);
    JoinLength(bytes, 8);
    JoinNumber(digits, 5);
    JoinNumber(bytes, 8);
    LeftLength(|digits|, |bytes|, |left|);
    ValueSplit(Join(bytes, 8), left);
  }

  lemma LeftLength(n: nat, m: nat, r: nat)
    requires 5 * n == 8 * m + r && r < 8
    ensures m == 5 * n / 8 && r == 5 * n % 8
  {
  }

  /** The encodings are exactly the accepted texts of those lengths. */
  lemma Encodings(text: string)
    ensures (exists input: seq<nat> :: Below(input, 256) && EncodedText(input) == text)
       <==> Decode(text).ok && |text| % 8 in {0, 2, 4, 5, 7}
  {
    if Decode(text).ok && |text| % 8 in {0, 2, 4, 5, 7} {
      TextAgain(text);
      DecodedBelow(text);
    }
    if input: seq<nat> :| Below(input, 256) && EncodedText(input) == text {
      DecodeUndoesEncode(input);
      TextAgain(text);
    }
  }
}
