/**
 What the checksum is, apart from how it is computed: the remainder of a division of polynomials over bits
 (section 6.2.2 of MODBUS over Serial Line V1.02).
 */
module CrcPolynomials {
  import opened Types
  import opened Crc

  /** The coefficients of a polynomial, highest power first. */
  type Poly = seq<bool>

  /** Sixteen coefficients. */
  predicate Sixteen(p: Poly) { |p| == 16 }

  /** x^15 + x^2 + 1: what is left of the divisor x^16 + x^15 + x^2 + 1 below its leading power. */
  const DIVISOR: Poly :=
    [true, false, false, false, false, false, false, false, false, false, false, false, false, true, false, true]

  /** The sum of two polynomials, power by power. */
  function Sum(p: Poly, q: Poly): (r: Poly)
    requires |p| == |q|
    ensures |r| == |p| && forall i | 0 <= i < |r| :: r[i] == (p[i] != q[i])
  {
    if p == [] then [] else [p[0] != q[0]] + Sum(p[1..], q[1..])
  }

  /** Long division: the remainder of a polynomial, of sixteen coefficients. */
  function Remainder(p: Poly): (r: Poly)
    requires |p| >= 16
    ensures Sixteen(r)
    decreases |p|
  {
    if |p| == 16 then p
    else if p[0] then Remainder(Sum(p[1..17], DIVISOR) + p[17..])
    else Remainder(p[1..])
  }

  /** The bits of a message in the order in which a serial line sends them: each byte lowest bit first. */
  function MessageBits(bytes: seq<u8>): Poly {
    if bytes == [] then [] else ByteBits(bytes[0]) + MessageBits(bytes[1..])
  }

  function ByteBits(b: u8): Poly { NumberBits(b, 8) }

  /** The `n` lowest binary digits of a number, lowest first. */
  function NumberBits(v: nat, n: nat): (p: Poly)
    ensures |p| == n
  {
    if n == 0 then [] else [v % 2 == 1] + NumberBits(v / 2, n - 1)
  }

  const ONES: Poly :=
    [true, true, true, true, true, true, true, true, true, true, true, true, true, true, true, true]

  const NOTHING: Poly :=
    [false, false, false, false, false, false, false, false, false, false, false, false, false, false, false, false]

  /** The message moved up by sixteen powers, with `first` added to its sixteen highest ones. */
  function Shifted(first: Poly, message: Poly): (p: Poly)
    requires Sixteen(first)
    ensures |p| == |message| + 16
  {
    var p := message + NOTHING;
    Sum(first, p[..16]) + p[16..]
  }

  // ----- the register, bit by bit -----

  predicate Odd(w: bv16) { w & 1 == 1 }

  function Half(w: bv16): bv16 { w >> 1 }

  /** The `n` lowest bits of a word, lowest first. */
  function WordBits(w: bv16, n: nat): (p: Poly)
    ensures |p| == n
  {
    if n == 0 then [] else [Odd(w)] + WordBits(Half(w), n - 1)
  }

  lemma WordBitsStep(w: bv16, n: nat)
    requires n > 0
    ensures WordBits(w, n) == [Odd(w)] + WordBits(Half(w), n - 1)
  {}

  /** The register as a polynomial: its lowest bit is the coefficient of the highest power. */
  function RegisterPoly(c: bv16): (p: Poly)
    ensures Sixteen(p)
  {
    WordBits(c, 16)
  }

  /** One step of the division: the next bit of the message meets the highest coefficient. */
  function Push(r: Poly, bit: bool): (p: Poly)
    requires Sixteen(r)
    ensures Sixteen(p)
  {
    var moved := r[1..] + [false];
    if r[0] != bit then Sum(moved, DIVISOR) else moved
  }

  function PushAll(r: Poly, bits: Poly): (p: Poly)
    requires Sixteen(r)
    ensures Sixteen(p)
    decreases |bits|
  {
    if bits == [] then r else PushAll(Push(r, bits[0]), bits[1..])
  }

  /** Pushing the bits of a message one by one is dividing it. */
  lemma {:induction false} PushAllIsRemainder(r: Poly, bits: Poly)
    requires Sixteen(r)
    ensures PushAll(r, bits) == Remainder(Shifted(r, bits))
    decreases |bits|
  {
    if bits == [] {
      assert Shifted(r, []) == r;
    } else {
      PushAllIsRemainder(Push(r, bits[0]), bits[1..]);
      DivisionStep(r, bits);
    }
  }

  predicate At(p: Poly, i: nat) { i < |p| && p[i] }

  lemma ShiftedAt(first: Poly, message: Poly)
    requires Sixteen(first)
    ensures forall i: nat | i < |message| + 16 ::
              Shifted(first, message)[i] == (At(first, i) != At(message, i))
  {
    hide Sum;
  }

  lemma PushAt(r: Poly, bit: bool)
    requires Sixteen(r)
    ensures forall i: nat | i < 16 ::
              Push(r, bit)[i] == (At(r, i + 1) != ((r[0] != bit) && DIVISOR[i]))
  {
    hide Sum;
  }

  lemma DivisionStep(r: Poly, bits: Poly)
    requires Sixteen(r) && bits != []
    ensures Remainder(Shifted(r, bits)) == Remainder(Shifted(Push(r, bits[0]), bits[1..]))
  {
    hide Remainder, Shifted, Push, Sum;
    var p, q := Shifted(r, bits), Shifted(Push(r, bits[0]), bits[1..]);
    ShiftedAt(r, bits);
    ShiftedAt(Push(r, bits[0]), bits[1..]);
    PushAt(r, bits[0]);
    var next := if p[0] then Sum(p[1..17], DIVISOR) + p[17..] else p[1..];
    forall i: nat | i < |q|
      ensures q[i] == next[i]
    {
      assert p[i + 1] == (At(r, i + 1) != At(bits, i + 1));
      assert At(bits[1..], i) == At(bits, i + 1);
    }
    assert q == next;
    DivisionOnce(p);
  }

  lemma DivisionOnce(p: Poly)
    requires |p| > 16
    ensures Remainder(p) == if p[0] then Remainder(Sum(p[1..17], DIVISOR) + p[17..]) else Remainder(p[1..])
  {}

  lemma {:induction false} XorBits(a: bv16, b: bv16, d: bv16, n: nat)
    requires Differ(a, b, d)
    ensures WordBits(d, n) == Sum(WordBits(a, n), WordBits(b, n))
    decreases n
  {
    if n > 0 {
      XorLowest(a, b, d);
      hide Differ;
      XorBits(a >> 1, b >> 1, d >> 1, n - 1);
    }
  }

  lemma XorLowest(a: bv16, b: bv16, d: bv16)
    requires Differ(a, b, d)
    ensures (d & 1 == 1) == ((a & 1 == 1) != (b & 1 == 1))
    ensures Differ(a >> 1, b >> 1, d >> 1)
  {
    LowBit(a, b);
    HalfXor(a, b);
  }

  /** Above its bits a word has only zeros. */
  lemma {:induction false} ZeroAbove(w: bv16, n: nat)
    requires OnlyIn(w, LowMask(n))
    ensures WordBits(w, n + 1) == WordBits(w, n) + [false]
    decreases n
  {
    hide OnlyIn, LowMask;
    if n == 0 {
      NoBits(0, w, w);
    } else {
      UpperWord(w, n - 1);
      ZeroAbove(w >> 1, n - 1);
    }
  }

  lemma AllBits(c: bv16)
    ensures OnlyIn(c, LowMask(16))
  {
    assert LowMask(8) == 0xFF;
    assert LowMask(16) == 0xFFFF;
  }

  /** A shift of the register moves every coefficient up, and subtracts the divisor if the highest one leaves. */
  lemma ShiftIsPush(c: bv16, bit: bool, d: bv16)
    requires Differ(c, if bit then 1 else 0, d)
    ensures RegisterPoly(Shift(d)) == Push(RegisterPoly(c), bit)
  {
    FlippedBit(c, bit, d);
    AllBits(c);
    ZeroAbove(c, 16);
    WordBitsStep(c, 17);
    WordBitsStep(c, 16);
    hide WordBits;
    Shorter(WordBits(c, 16), WordBits(c >> 1, 16), c & 1 == 1);
    if d & 1 == 1 {
      DivisorBits();
      XorBits(c >> 1, 0xA001, Shift(d), 16);
    }
  }

  lemma Shorter(p: Poly, q: Poly, bit: bool)
    requires p != [] && [bit] + q == p + [false]
    ensures q == p[1..] + [false]
  {
    assert ([bit] + q)[1..] == q && (p + [false])[1..] == p[1..] + [false];
  }

  lemma FlippedBit(c: bv16, bit: bool, d: bv16)
    requires Differ(c, if bit then 1 else 0, d)
    ensures (d & 1 == 1) == ((c & 1 == 1) != bit)
    ensures Shift(d) == if d & 1 == 1 then (c >> 1) ^ 0xA001 else c >> 1
  {
    XorLowest(c, if bit then 1 else 0, d);
  }

  // ----- a byte at a time -----

  /** The other bits of the word are still to come when its lowest has been pushed. */
  lemma ShiftLeaves(c: bv16, w: bv16, d: bv16, e: bv16)
    requires Differ(c, w, d) && Differ(c, if w & 1 == 1 then 1 else 0, e)
    ensures Differ(Shift(e), w >> 1, Shift(d))
  {
    var f := w & 0xFFFE;
    assert Differ(e, f, d);
    ShiftLinear(e, f, d);
    assert Shift(f) == w >> 1;
  }

  lemma {:induction false} FeedBits(c: bv16, w: bv16, d: bv16, n: nat)
    requires Differ(c, w, d) && OnlyIn(w, LowMask(n))
    ensures RegisterPoly(Shifts(d, n)) == PushAll(RegisterPoly(c), WordBits(w, n))
    decreases n
  {
    hide RegisterPoly, Push, Shift, OnlyIn, NoneIn, LowMask;
    if n == 0 {
      NoBits(c, w, d);
    } else {
      var bit := w & 1 == 1;
      var e := c ^ (if bit then 1 else 0);
      ShiftIsPush(c, bit, e);
      ShiftLeaves(c, w, d, e);
      UpperWord(w, n - 1);
      FeedBits(Shift(e), w >> 1, Shift(d), n - 1);
    }
  }

  lemma NoBits(c: bv16, w: bv16, d: bv16)
    requires Differ(c, w, d) && OnlyIn(w, LowMask(0))
    ensures c == d
  {}

  lemma UpperWord(w: bv16, n: nat)
    requires OnlyIn(w, LowMask(n + 1))
    ensures OnlyIn(w >> 1, LowMask(n))
  {
    LowMaskWidens(n);
    hide LowMask;
    UpperWordBits(w, LowMask(n), LowMask(n + 1));
  }

  lemma UpperWordBits(w: bv16, m: bv16, m': bv16)
    requires OnlyIn(w, m') && Wider(m, m')
    ensures OnlyIn(w >> 1, m)
  {}

  // ----- bits and numbers -----

  /** The number with these binary digits, lowest first. */
  function Value(p: Poly): nat { if p == [] then 0 else (if p[0] then 1 else 0) + 2 * Value(p[1..]) }

  lemma {:induction false} ValueOfBits(v: nat, n: nat)
    requires v < Pow2(n)
    ensures Value(NumberBits(v, n)) == v
    decreases n
  {
    if n > 0 {
      ValueOfBits(v / 2, n - 1);
    }
  }

  lemma {:induction false} SameValue(p: Poly, q: Poly)
    requires |p| == |q| && Value(p) == Value(q)
    ensures p == q
    decreases |p|
  {
    if p != [] {
      SameValue(p[1..], q[1..]);
      assert p == [p[0]] + p[1..] && q == [q[0]] + q[1..];
    }
  }

  lemma {:induction false} ValueConcat(p: Poly, q: Poly)
    ensures Value(p + q) == Value(p) + Pow2(|p|) * Value(q)
    decreases |p|
  {
    if p == [] {
      assert p + q == q;
    } else {
      ValueConcat(p[1..], q);
      assert (p + q)[1..] == p[1..] + q && (p + q)[0] == p[0];
      var a, v := Pow2(|p| - 1), Value(q);
      Twice(a, v);
      assert Pow2(|p|) == 2 * a;
    }
  }

  lemma Twice(a: nat, v: nat)
    ensures (2 * a) * v == 2 * (a * v)
  {}

  function Halved(w: bv16, n: nat): bv16 { if n == 0 then w else Halved(Half(w), n - 1) }

  lemma {:induction false} WordBitsSplit(w: bv16, m: nat, n: nat)
    ensures WordBits(w, m + n) == WordBits(w, m) + WordBits(Halved(w, m), n)
    decreases m
  {
    if m > 0 {
      WordBitsSplit(Half(w), m - 1, n);
    }
  }

  lemma ValueCons(bit: bool, p: Poly)
    ensures Value([bit] + p) == (if bit then 1 else 0) + 2 * Value(p)
    ensures Value([]) == 0
  {
    assert ([bit] + p)[1..] == p;
  }

  lemma LowestValue(w: bv16, n: nat)
    requires n > 0
    ensures Value(WordBits(w, n)) == (if Odd(w) then 1 else 0) + 2 * Value(WordBits(Half(w), n - 1))
    ensures Value(WordBits(w, 0)) == 0
  {
    hide Value;
    ValueCons(Odd(w), WordBits(Half(w), n - 1));
  }

  lemma NibbleValue(w: bv16)
    ensures Value(WordBits(w, 4)) == LowNibble(w)
  {
    NibbleBits(w);
    hide WordBits, Value, Odd, Half;
    var x := Half(w);
    var y := Half(x);
    var z := Half(y);
    LowestValue(w, 4);
    LowestValue(x, 3);
    LowestValue(y, 2);
    LowestValue(z, 1);
    LowestValue(Half(z), 1);
  }

  function FourValue(a: bool, b: bool, c: bool, d: bool): nat {
    (if a then 1 else 0) + (if b then 2 else 0) + (if c then 4 else 0) + (if d then 8 else 0)
  }

  lemma FourMore(a: bool, b: bool, c: bool, d: bool, p: Poly)
    ensures Value([a, b, c, d] + p) == FourValue(a, b, c, d) + 16 * Value(p)
    ensures Value([]) == 0
  {
    hide Value;
    ValueCons(d, p);
    ValueCons(c, [d] + p);
    ValueCons(b, [c] + ([d] + p));
    ValueCons(a, [b] + ([c] + ([d] + p)));
    assert [a, b, c, d] + p == [a] + ([b] + ([c] + ([d] + p)));
  }

  lemma OnesValue()
    ensures Value(ONES) == 0xFFFF
  {
    hide Value;
    var four: Poly := [true, true, true, true];
    FourMore(true, true, true, true, []);
    FourMore(true, true, true, true, four);
    FourMore(true, true, true, true, four + four);
    FourMore(true, true, true, true, four + (four + four));
    assert four + [] == four && ONES == four + (four + (four + four));
  }

  lemma DivisorValue()
    ensures Value(DIVISOR) == 0xA001
  {
    hide Value;
    var high, none, low: Poly := [true, false, false, false], [false, false, false, false], [false, true, false, true];
    FourMore(false, true, false, true, []);
    FourMore(false, false, false, false, low);
    FourMore(false, false, false, false, none + low);
    FourMore(true, false, false, false, none + (none + low));
    assert low + [] == low && DIVISOR == high + (none + (none + low));
  }

  lemma NibbleBits(w: bv16)
    ensures Odd(w) == (w & 1 == 1) && Odd(Half(w)) == (w & 2 == 2)
    ensures Odd(Half(Half(w))) == (w & 4 == 4) && Odd(Half(Half(Half(w)))) == (w & 8 == 8)
  {}

  lemma HalvedStep(w: bv16, n: nat)
    requires n > 0
    ensures Halved(w, n) == Halved(Half(w), n - 1)
  {}

  lemma HalvedByNibble(w: bv16)
    ensures Halved(w, 4) == w >> 4
  {
    hide Half;
    HalvedStep(w, 4);
    HalvedStep(Half(w), 3);
    HalvedStep(Half(Half(w)), 2);
    HalvedStep(Half(Half(Half(w))), 1);
    FourHalves(w);
  }

  lemma FourHalves(w: bv16)
    ensures Half(Half(Half(Half(w)))) == w >> 4 && (w >> 4) >> 4 == w >> 8
  {}

  lemma {:induction false} HalvedTwice(w: bv16, m: nat, n: nat)
    ensures Halved(w, m + n) == Halved(Halved(w, m), n)
    decreases m
  {
    if m > 0 {
      HalvedTwice(Half(w), m - 1, n);
    }
  }

  lemma HalvedByByte(w: bv16)
    ensures Halved(w, 8) == w >> 8
  {
    hide Halved;
    HalvedTwice(w, 4, 4);
    HalvedByNibble(w);
    HalvedByNibble(w >> 4);
    FourHalves(w);
  }

  lemma LowValue(w: bv16)
    ensures Value(WordBits(w, 8)) == Low(w)
  {
    hide WordBits, LowNibble, Value, Halved;
    WordBitsSplit(w, 4, 4);
    HalvedByNibble(w);
    ValueConcat(WordBits(w, 4), WordBits(w >> 4, 4));
    NibbleValue(w);
    NibbleValue(w >> 4);
    assert Pow2(4) == 16;
  }

  lemma RegisterValue(c: bv16)
    ensures Value(RegisterPoly(c)) == Number(c)
  {
    hide WordBits, Low, Value, Halved;
    WordBitsSplit(c, 8, 8);
    HalvedByByte(c);
    ValueConcat(WordBits(c, 8), WordBits(c >> 8, 8));
    LowValue(c);
    LowValue(c >> 8);
    assert Pow2(8) == 256;
  }

  lemma DivisorBits()
    ensures WordBits(0xA001, 16) == DIVISOR
  {
    hide Value, WordBits;
    RegisterValue(0xA001);
    assert Number(0xA001) == 0xA001;
    DivisorValue();
    SameValue(RegisterPoly(0xA001), DIVISOR);
  }

  lemma ByteWordBits(b: u8)
    ensures WordBits(Word(b), 8) == ByteBits(b)
  {
    hide WordBits, Word, Low, Value, NumberBits;
    LowOfWord(b);
    LowValue(Word(b));
    assert Pow2(8) == 256;
    ValueOfBits(b, 8);
    SameValue(WordBits(Word(b), 8), ByteBits(b));
  }

  lemma ByteDiffers(c: bv16, b: u8)
    ensures Differ(c, Word(b), c ^ Word(b)) && OnlyIn(Word(b), LowMask(8))
  {
    hide Word;
    WordIsByte(b);
    ByteMask(Word(b));
  }

  lemma {:induction false} UpdateIsPushAll(c: bv16, bytes: seq<u8>)
    ensures RegisterPoly(Update(c, bytes)) == PushAll(RegisterPoly(c), MessageBits(bytes))
    decreases |bytes|
  {
    hide RegisterPoly, ByteBits, Word, Shifts, WordBits, LowMask, Push;
    if bytes != [] {
      var d := c ^ Word(bytes[0]);
      ByteDiffers(c, bytes[0]);
      FeedBits(c, Word(bytes[0]), d, 8);
      ByteWordBits(bytes[0]);
      UpdateIsPushAll(Step(c, bytes[0]), bytes[1..]);
      PushAllConcat(RegisterPoly(c), ByteBits(bytes[0]), MessageBits(bytes[1..]));
    }
  }

  lemma {:induction false} PushAllConcat(r: Poly, a: Poly, b: Poly)
    requires Sixteen(r)
    ensures PushAll(r, a + b) == PushAll(PushAll(r, a), b)
    decreases |a|
  {
    hide Push;
    if a == [] {
      assert a + b == b;
    } else {
      assert (a + b)[1..] == a[1..] + b;
      PushAllConcat(Push(r, a[0]), a[1..], b);
    }
  }

  // ----- the checksum -----

  /**
   The checksum is CRC-16/MODBUS: take the bits of the message in the order of the line, invert the first
   sixteen, append sixteen zeros, and divide by x^16 + x^15 + x^2 + 1. The remainder, read as a number whose
   lowest binary digit is the coefficient of x^15, is the checksum.
   */
  lemma ChecksumIsRemainder(bytes: seq<u8>)
    ensures Checksum(bytes) == Value(Remainder(Shifted(ONES, MessageBits(bytes))))
  {
    hide RegisterPoly, Update, Value, Number, Remainder, Shifted, PushAll;
    UpdateIsPushAll(INITIAL, bytes);
    RegisterValue(Update(INITIAL, bytes));
    InitialOnes();
    PushAllIsRemainder(ONES, MessageBits(bytes));
  }

  lemma InitialOnes()
    ensures RegisterPoly(INITIAL) == ONES
  {
    hide Value;
    RegisterValue(INITIAL);
    assert Number(INITIAL) == 0xFFFF;
    OnesValue();
    SameValue(RegisterPoly(INITIAL), ONES);
  }

  lemma OneStep(c: bv16, b: u8, bytes: seq<u8>)
    ensures Update(c, [b] + bytes) == Update(Step(c, b), bytes) && Update(c, []) == c
  {
    hide Step;
    assert ([b] + bytes)[1..] == bytes;
  }

  /** The worked example of section 6.2.2, on the line as 0x41, 0x12. */
  lemma WorkedExample()
    ensures CrcBytes([0x02, 0x07]) == [0x41, 0x12] && Checksum([0x02, 0x07]) == 0x1241
  {
    assert Step(0xFFFF, 0x02) == 0x813E;
    assert Step(0x813E, 0x07) == 0x1241;
    assert Number(0x1241) == 0x1241 && Low(0x1241) == 0x41 && High(0x1241) == 0x12;
    hide Step, Low, High, Number, Update;
    OneStep(0xFFFF, 0x02, [0x07]);
    OneStep(0x813E, 0x07, []);
    assert [0x02] + [0x07] == [0x02, 0x07] && [0x07] + [] == [0x07];
    ChecksumOf([0x02, 0x07]);
  }

  lemma ThreeSteps(c: bv16, x: u8, y: u8, z: u8, bytes: seq<u8>)
    ensures Update(c, [x, y, z] + bytes) == Update(Step(Step(Step(c, x), y), z), bytes)
  {
    hide Step;
    assert [x, y, z] + bytes == [x] + ([y] + ([z] + bytes));
    OneStep(c, x, [y] + ([z] + bytes));
    OneStep(Step(c, x), y, [z] + bytes);
    OneStep(Step(Step(c, x), y), z, bytes);
  }

  lemma DigitOne()
    ensures Step(0xFFFF, 0x31) == 0x947E
  {}

  lemma DigitTwo()
    ensures Step(0x947E, 0x32) == 0xF595
  {}

  lemma DigitThree()
    ensures Step(0xF595, 0x33) == 0x7A75
  {}

  lemma DigitFour()
    ensures Step(0x7A75, 0x34) == 0x30BA
  {}

  lemma DigitFive()
    ensures Step(0x30BA, 0x35) == 0xA471
  {}

  lemma DigitSix()
    ensures Step(0xA471, 0x36) == 0x32E4
  {}

  lemma DigitSeven()
    ensures Step(0x32E4, 0x37) == 0x9D73
  {}

  lemma DigitEight()
    ensures Step(0x9D73, 0x38) == 0x37DD
  {}

  lemma DigitNine()
    ensures Step(0x37DD, 0x39) == 0x4B37
  {}

  lemma OneTwoThree(bytes: seq<u8>)
    ensures Update(0xFFFF, [0x31, 0x32, 0x33] + bytes) == Update(0x7A75, bytes)
  {
    hide *;
    DigitOne();
    DigitTwo();
    DigitThree();
    ThreeSteps(0xFFFF, 0x31, 0x32, 0x33, bytes);
  }

  lemma FourFiveSix(bytes: seq<u8>)
    ensures Update(0x7A75, [0x34, 0x35, 0x36] + bytes) == Update(0x32E4, bytes)
  {
    hide *;
    DigitFour();
    DigitFive();
    DigitSix();
    ThreeSteps(0x7A75, 0x34, 0x35, 0x36, bytes);
  }

  lemma SevenEightNine(bytes: seq<u8>)
    ensures Update(0x32E4, [0x37, 0x38, 0x39] + bytes) == Update(0x4B37, bytes)
  {
    hide *;
    DigitSeven();
    DigitEight();
    DigitNine();
    ThreeSteps(0x32E4, 0x37, 0x38, 0x39, bytes);
  }

  /** The usual check value of CRC-16/MODBUS, of the nine digits "123456789". */
  lemma NineDigits()
    ensures Checksum([0x31, 0x32, 0x33, 0x34, 0x35, 0x36, 0x37, 0x38, 0x39]) == 0x4B37
  {
    var digits: seq<u8> := [0x31, 0x32, 0x33, 0x34, 0x35, 0x36, 0x37, 0x38, 0x39];
    CheckValue();
    hide *;
    var last: seq<u8> := [0x37, 0x38, 0x39];
    assert digits == [0x31, 0x32, 0x33] + ([0x34, 0x35, 0x36] + last) && last + [] == last;
    OneTwoThree([0x34, 0x35, 0x36] + last);
    FourFiveSix(last);
    SevenEightNine([]);
    OneStep(0x4B37, 0, []);
    ChecksumOf(digits);
  }

  lemma CheckValue()
    ensures Number(0x4B37) == 0x4B37
  {}

  lemma ChecksumOf(bytes: seq<u8>)
    ensures Checksum(bytes) == Number(Update(0xFFFF, bytes))
    ensures CrcBytes(bytes) == [Low(Update(0xFFFF, bytes)), High(Update(0xFFFF, bytes))]
  {}
}
