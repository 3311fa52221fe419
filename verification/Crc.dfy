/**
 The CRC-16/MODBUS checksum of the RTU framing: reflected polynomial 0xA001, initial value 0xFFFF,
 no final inversion (section 6.2.2 of MODBUS over Serial Line V1.02).
 */
module Crc {
  import opened Types

  const INITIAL: bv16 := 0xFFFF

  // ----- bytes as register words -----

  function Nibble(n: int): bv16
    requires 0 <= n < 16
  {
    if n < 8 then
      if n < 4 then (if n < 2 then (if n == 0 then 0 else 1) else (if n == 2 then 2 else 3))
      else (if n < 6 then (if n == 4 then 4 else 5) else (if n == 6 then 6 else 7))
    else
      if n < 12 then (if n < 10 then (if n == 8 then 8 else 9) else (if n == 10 then 10 else 11))
      else (if n < 14 then (if n == 12 then 12 else 13) else (if n == 14 then 14 else 15))
  }

  function LowNibble(c: bv16): int {
    (if c & 1 == 1 then 1 else 0) + (if c & 2 == 2 then 2 else 0) +
    (if c & 4 == 4 then 4 else 0) + (if c & 8 == 8 then 8 else 0)
  }

  /** A byte, zero-extended to the width of the register. */
  function Word(b: u8): bv16 {
    (Nibble(b / 16) << 4) | Nibble(b % 16)
  }

  /** The low and the high byte of the register: the order in which the checksum goes on the wire. */
  function Low(c: bv16): u8 { 16 * LowNibble(c >> 4) + LowNibble(c) }

  function High(c: bv16): u8 { Low(c >> 8) }

  function Number(c: bv16): u16 { 256 * High(c) + Low(c) }

  lemma NibbleOfLowNibble(c: bv16)
    ensures 0 <= LowNibble(c) < 16 && Nibble(LowNibble(c)) == c & 0xF
  {}

  lemma LowNibbleOfNibble(n: int)
    requires 0 <= n < 16
    ensures LowNibble(Nibble(n)) == n && Nibble(n) & 0xF == Nibble(n)
  {}

  lemma WordOfLow(c: bv16)
    ensures Word(Low(c)) == c & 0xFF
  {
    NibbleOfLowNibble(c);
    NibbleOfLowNibble(c >> 4);
    assert Low(c) / 16 == LowNibble(c >> 4) && Low(c) % 16 == LowNibble(c);
    assert (((c >> 4) & 0xF) << 4) | (c & 0xF) == c & 0xFF;
  }

  lemma LowOfWord(b: u8)
    ensures Low(Word(b)) == b && Word(b) & 0xFF == Word(b)
  {
    var h, l := Nibble(b / 16), Nibble(b % 16);
    LowNibbleOfNibble(b / 16);
    LowNibbleOfNibble(b % 16);
    NibblePair(h, l);
  }

  lemma NibblePair(h: bv16, l: bv16)
    requires h & 0xF == h && l & 0xF == l
    ensures LowNibble((h << 4) | l) == LowNibble(l)
    ensures LowNibble(((h << 4) | l) >> 4) == LowNibble(h)
    ensures ((h << 4) | l) & 0xFF == (h << 4) | l
  {}

  lemma WordInjective(a: u8, b: u8)
    requires Word(a) == Word(b)
    ensures a == b
  {
    LowOfWord(a);
    LowOfWord(b);
  }

  // ----- the register -----

  /** One shift of the register. */
  function Shift(c: bv16): bv16 {
    if c & 1 == 1 then (c >> 1) ^ 0xA001 else c >> 1
  }

  function Shifts(c: bv16, n: nat): bv16
    decreases n
  {
    if n == 0 then c else Shifts(Shift(c), n - 1)
  }

  /** Feed the low byte of a word to the register. */
  function Feed(c: bv16, w: bv16): bv16 {
    Shifts(c ^ w, 8)
  }

  /** Feed one byte to the register. */
  function Step(c: bv16, b: u8): bv16 {
    Feed(c, Word(b))
  }

  /** Feed a slice to a digest whose register is `c`. */
  function Update(c: bv16, bytes: seq<u8>): bv16
    decreases |bytes|
  {
    if bytes == [] then c else Update(Step(c, bytes[0]), bytes[1..])
  }

  function Checksum(bytes: seq<u8>): u16 {
    Number(Update(INITIAL, bytes))
  }

  /** The two checksum bytes in wire order, low byte first. */
  function CrcBytes(bytes: seq<u8>): seq<u8> {
    var c := Update(INITIAL, bytes);
    [Low(c), High(c)]
  }

  lemma {:induction false} ShiftsInjective(a: bv16, b: bv16, n: nat)
    requires Shifts(a, n) == Shifts(b, n)
    ensures a == b
    decreases n
  {
    if n > 0 {
      ShiftsInjective(Shift(a), Shift(b), n - 1);
    }
  }

  // The top bit after a shift is the bit that was shifted out, so registers that agree on their
  // n top bits after n shifts were fed back alike n times.

  lemma Peel(p: bv16, q: bv16, m: bv16)
    requires m & 0x8000 == 0x8000
    requires Shift(p) & m == Shift(q) & m
    ensures p & ((m << 1) | 1) == q & ((m << 1) | 1)
  {}

  function Peeled(m: bv16, n: nat): bv16
    decreases n
  {
    if n == 0 then m else (Peeled(m, n - 1) << 1) | 1
  }

  predicate Peelable(m: bv16, n: nat)
    decreases n
  {
    n == 0 || (Peelable(m, n - 1) && Peeled(m, n - 1) & 0x8000 == 0x8000)
  }

  lemma {:induction false} PeelAll(p: bv16, q: bv16, n: nat, m: bv16)
    requires Peelable(m, n)
    requires Shifts(p, n) & m == Shifts(q, n) & m
    ensures p & Peeled(m, n) == q & Peeled(m, n)
    decreases n
  {
    if n > 0 {
      PeelAll(Shift(p), Shift(q), n - 1, m);
      Peel(p, q, Peeled(m, n - 1));
    }
  }

  lemma PeelMask()
    ensures Peelable(0xFF00, 8) && Peeled(0xFF00, 8) == 0xFF
  {}

  lemma XorCancel(c: bv16, x: bv16, y: bv16)
    requires c ^ x == c ^ y
    ensures x == y
  {}

  predicate IsByte(w: bv16) { w & 0xFF == w }

  lemma FeedDetermines(c: bv16, w: bv16, c': bv16, w': bv16)
    requires IsByte(w) && IsByte(w') && Feed(c, w) == Feed(c', w')
    ensures c == c' ==> w == w'
    ensures w == w' ==> c == c'
  {
    ShiftsInjective(c ^ w, c' ^ w', 8);
    XorSplit(c, w, c', w');
  }

  lemma XorSplit(c: bv16, w: bv16, c': bv16, w': bv16)
    requires w & 0xFF == w && w' & 0xFF == w' && c ^ w == c' ^ w'
    ensures c == c' ==> w == w'
    ensures w == w' ==> c == c'
  {}

  /** With the same byte fed to both, different registers stay different. */
  lemma StepKeepsDifference(c: bv16, d: bv16, b: u8)
    requires c != d
    ensures Step(c, b) != Step(d, b)
  {
    hide Feed, Word, IsByte;
    WordIsByte(b);
    if Step(c, b) == Step(d, b) {
      FeedDetermines(c, Word(b), d, Word(b));
    }
  }

  /** From one register, two different pairs of bytes lead to different registers. */
  lemma TwoSteps(c: bv16, x: u8, y: u8, x': u8, y': u8)
    requires Step(Step(c, x), y) == Step(Step(c, x'), y')
    ensures x == x' && y == y'
  {
    hide Step, LowBitsAgree, HighBitsAgree;
    TwoBytesAreABurst(x, y, x', y', 0);
    ThreeSteps(c, x, y, 0, x', y', 0, 0);
  }

  lemma WordIsByte(b: u8)
    ensures IsByte(Word(b))
  {
    LowOfWord(b);
  }

  lemma CrcBytesAreLittleEndian(bytes: seq<u8>)
    ensures CrcBytes(bytes) == [Checksum(bytes) % 256, Checksum(bytes) / 256]
  {
    hide Update, Low;
  }

  // ----- theorems -----

  /** A digest fed in two parts equals the digest of the concatenation. */
  lemma {:induction false} UpdateConcat(c: bv16, a: seq<u8>, b: seq<u8>)
    ensures Update(c, a + b) == Update(Update(c, a), b)
    decreases |a|
  {
    if a == [] {
      assert a + b == b;
    } else {
      assert (a + b)[1..] == a[1..] + b;
      UpdateConcat(Step(c, a[0]), a[1..], b);
    }
  }

  /** The parser's digest, fed the address and then the payload, is the writer's checksum of both. */
  lemma TwoPartDigest(a: seq<u8>, b: seq<u8>)
    ensures Number(Update(Update(INITIAL, a), b)) == Checksum(a + b)
  {
    UpdateConcat(INITIAL, a, b);
  }

  lemma {:induction false} UpdateKeepsDifference(c: bv16, d: bv16, bytes: seq<u8>)
    requires c != d
    ensures Update(c, bytes) != Update(d, bytes)
    decreases |bytes|
  {
    if bytes != [] {
      StepKeepsDifference(c, d, bytes[0]);
      UpdateKeepsDifference(Step(c, bytes[0]), Step(d, bytes[0]), bytes[1..]);
    }
  }

  // The register is linear: two messages that differ feed it their difference.

  /** `d` is the difference of `a` and `b`. */
  predicate Differ(a: bv16, b: bv16, d: bv16) { d == a ^ b }

  lemma ShiftXor(a: bv16, b: bv16)
    ensures Shift(a ^ b) == Shift(a) ^ Shift(b)
  {
    LowBit(a, b);
    HalfXor(a, b);
    XorAgain(a >> 1, b >> 1, 0xA001);
  }

  lemma ShiftLinear(a: bv16, b: bv16, d: bv16)
    requires Differ(a, b, d)
    ensures Differ(Shift(a), Shift(b), Shift(d))
  {
    hide Shift;
    ShiftXor(a, b);
  }

  lemma LowBit(a: bv16, b: bv16)
    ensures (a ^ b) & 1 == 1 <==> (a & 1 == 1) != (b & 1 == 1)
  {}

  lemma HalfXor(a: bv16, b: bv16)
    ensures (a ^ b) >> 1 == (a >> 1) ^ (b >> 1)
  {}

  lemma XorAgain(a: bv16, b: bv16, p: bv16)
    ensures (a ^ p) ^ (b ^ p) == a ^ b && (a ^ p) ^ b == (a ^ b) ^ p && a ^ (b ^ p) == (a ^ b) ^ p
  {}

  lemma {:induction false} ShiftsLinear(a: bv16, b: bv16, d: bv16, n: nat)
    requires Differ(a, b, d)
    ensures Differ(Shifts(a, n), Shifts(b, n), Shifts(d, n))
    decreases n
  {
    hide Differ, Shift;
    if n > 0 {
      ShiftLinear(a, b, d);
      ShiftsLinear(Shift(a), Shift(b), Shift(d), n - 1);
    }
  }

  lemma FeedLinear(c: bv16, w: bv16, c': bv16, w': bv16, d: bv16, e: bv16)
    requires Differ(c, c', d) && Differ(w, w', e)
    ensures Differ(Feed(c, w), Feed(c', w'), Feed(d, e))
  {
    assert Differ(c ^ w, c' ^ w', d ^ e);
    hide Differ, Shifts;
    ShiftsLinear(c ^ w, c' ^ w', d ^ e, 8);
  }

  lemma {:induction false} ShiftsSplit(c: bv16, m: nat, n: nat)
    ensures Shifts(c, m + n) == Shifts(Shifts(c, m), n)
    decreases m
  {
    if m > 0 {
      ShiftsSplit(Shift(c), m - 1, n);
    }
  }

  lemma {:induction false} ShiftsZero(n: nat)
    ensures Shifts(0, n) == 0
    decreases n
  {
    if n > 0 {
      ShiftsZero(n - 1);
    }
  }

  /** The `k` lowest and the `k` highest bits of a word. */
  function LowMask(k: nat): bv16 { if k == 0 then 0 else (LowMask(k - 1) << 1) | 1 }

  function TopMask(k: nat): bv16 { if k == 0 then 0 else (TopMask(k - 1) >> 1) | 0x8000 }

  predicate OnlyIn(d: bv16, m: bv16) { d & m == d }

  predicate NoneIn(d: bv16, m: bv16) { d & m == 0 }

  /** Only the `n` bits from the `k`-th on are set: after `k` shifts they are the lowest bits. */
  lemma {:induction false} UpperBits(d: bv16, k: nat, n: nat)
    requires NoneIn(d, LowMask(k)) && OnlyIn(d, LowMask(k + n))
    ensures OnlyIn(Shifts(d, k), LowMask(n))
    decreases k
  {
    hide Shift, OnlyIn, NoneIn, LowMask;
    if k > 0 {
      HalfMask(d, k - 1, k - 1 + n);
      UpperBits(Shift(d), k - 1, n);
    }
  }

  lemma HalfMask(d: bv16, k: nat, n: nat)
    requires NoneIn(d, LowMask(k + 1)) && OnlyIn(d, LowMask(n + 1))
    ensures NoneIn(Shift(d), LowMask(k)) && OnlyIn(Shift(d), LowMask(n))
  {
    hide Shift, OnlyIn, NoneIn, LowMask;
    LowMaskWidens(k);
    LowMaskWidens(n);
    HalfBits(d, LowMask(k), LowMask(k + 1), LowMask(n), LowMask(n + 1));
  }

  lemma LowMaskWidens(k: nat)
    ensures Wider(LowMask(k), LowMask(k + 1))
  {}

  predicate Wider(l: bv16, l': bv16) { l' == (l << 1) | 1 }

  lemma HalfBits(d: bv16, l: bv16, l': bv16, m: bv16, m': bv16)
    requires Wider(l, l') && Wider(m, m') && NoneIn(d, l') && OnlyIn(d, m')
    ensures NoneIn(Shift(d), l) && OnlyIn(Shift(d), m)
  {}

  lemma TopMaskPeels(n: nat)
    requires n <= 8
    ensures Peelable(TopMask(n), n) && Peeled(TopMask(n), n) == LowMask(n)
  {
    match n
    case 0 => case 1 => case 2 => case 3 => case 4 => case 5 => case 6 => case 7 => case _ =>
  }

  /** A first difference whose `8 - k` top bits have vanished after a byte was none. */
  lemma FirstByte(d: bv16, k: nat)
    requires k <= 8 && NoneIn(d, LowMask(k)) && OnlyIn(d, LowMask(8))
    requires NoneIn(Shifts(d, 8), TopMask(8 - k))
    ensures d == 0
  {
    assert k + (8 - k) == 8;
    hide *;
    UpperBits(d, k, 8 - k);
    TopMaskPeels(8 - k);
    ShiftsSplit(d, k, 8 - k);
    PeeledAway(Shifts(d, k), TopMask(8 - k), 8 - k);
    ShiftsZero(k);
    ShiftsInjective(d, 0, k);
  }

  lemma PeeledAway(e: bv16, m: bv16, n: nat)
    requires Peelable(m, n) && NoneIn(Shifts(e, n), m) && OnlyIn(e, Peeled(m, n))
    ensures e == 0
  {
    hide *;
    ShiftsZero(n);
    MaskedOut(Shifts(e, n), m);
    PeelAll(e, 0, n, m);
    MaskedOut(e, Peeled(m, n));
  }

  lemma MaskedOut(e: bv16, m: bv16)
    ensures NoneIn(e, m) ==> e & m == 0 & m
    ensures OnlyIn(e, m) && e & m == 0 & m ==> e == 0
  {}

  lemma PlainShifts(p: bv16)
    requires p & 0xFF == 0
    ensures Shifts(p, 8) == p >> 8
  {}

  lemma TopVanishes(c: bv16, dy: bv16, p: bv16, k: nat)
    requires k <= 8 && IsByte(dy) && Differ(c, dy, p) && OnlyIn(p >> 8, LowMask(k))
    ensures NoneIn(c, TopMask(8 - k))
  {
    match k
    case 0 => case 1 => case 2 => case 3 => case 4 => case 5 => case 6 => case 7 => case _ =>
  }

  /** A difference of at most 16 bits, spread over three bytes, does not leave the register. */
  lemma ThreeDifferences(dx: bv16, dy: bv16, p: bv16, dz: bv16, k: nat)
    requires k <= 8 && IsByte(dx) && IsByte(dy) && IsByte(dz)
    requires NoneIn(dx, LowMask(k)) && OnlyIn(dz, LowMask(k))
    requires Differ(Shifts(dx, 8), dy, p) && Shifts(p, 8) == dz
    ensures dx == 0 && dy == 0 && dz == 0
  {
    ByteMask(dx);
    hide Shifts, LowMask, TopMask, Differ, IsByte, Peelable, Peeled, OnlyIn, NoneIn;
    LowByteVanishes(p, dz);
    PlainShifts(p);
    TopVanishes(Shifts(dx, 8), dy, p, k);
    FirstByte(dx, k);
    ShiftsZero(8);
    NothingLeft(dy, p);
  }

  lemma ByteMask(d: bv16)
    ensures IsByte(d) <==> OnlyIn(d, LowMask(8))
  {
    assert LowMask(8) == 0xFF;
  }

  lemma LowByteVanishes(p: bv16, dz: bv16)
    requires IsByte(dz) && Shifts(p, 8) == dz
    ensures p & 0xFF == 0
  {
    hide Shifts, Peelable, Peeled;
    ShiftsZero(8);
    PeelMask();
    assert dz & 0xFF00 == 0 & 0xFF00;
    PeelAll(p, 0, 8, 0xFF00);
  }

  lemma NothingLeft(dy: bv16, p: bv16)
    requires IsByte(dy) && Differ(0, dy, p) && p & 0xFF == 0
    ensures dy == 0 && p >> 8 == 0
  {}

  /** Bytes that agree on their `k` lowest bits, and bytes that agree on all others. */
  predicate LowBitsAgree(a: u8, b: u8, k: nat) { Word(a) & LowMask(k) == Word(b) & LowMask(k) }

  predicate HighBitsAgree(a: u8, b: u8, k: nat) { Word(a) & !LowMask(k) == Word(b) & !LowMask(k) }

  lemma DifferenceBits(a: bv16, b: bv16, d: bv16, m: bv16)
    requires Differ(a, b, d)
    ensures a & m == b & m ==> NoneIn(d, m)
    ensures a & !m == b & !m ==> OnlyIn(d, m)
    ensures IsByte(a) && IsByte(b) ==> IsByte(d)
    ensures d == 0 ==> a == b
  {}

  /** From one register, a change of at most 16 consecutive bits within three bytes shows. */
  lemma ThreeSteps(c: bv16, x: u8, y: u8, z: u8, x': u8, y': u8, z': u8, k: nat)
    requires k <= 8 && LowBitsAgree(x, x', k) && HighBitsAgree(z, z', k)
    requires Step(Step(Step(c, x), y), z) == Step(Step(Step(c, x'), y'), z')
    ensures x == x' && y == y' && z == z'
  {
    hide Feed, Word, IsByte, LowMask, Differ, OnlyIn, NoneIn;
    var dx, dy, dz := Word(x) ^ Word(x'), Word(y) ^ Word(y'), Word(z) ^ Word(z');
    WordIsByte(x); WordIsByte(x'); WordIsByte(y); WordIsByte(y'); WordIsByte(z); WordIsByte(z');
    Difference(Word(x), Word(x'), dx);
    Difference(Word(y), Word(y'), dy);
    Difference(Word(z), Word(z'), dz);
    DifferenceBits(Word(x), Word(x'), dx, LowMask(k));
    DifferenceBits(Word(y), Word(y'), dy, LowMask(k));
    DifferenceBits(Word(z), Word(z'), dz, LowMask(k));
    Difference(c, c, 0);
    FeedLinear(c, Word(x), c, Word(x'), 0, dx);
    FeedLinear(Step(c, x), Word(y), Step(c, x'), Word(y'), Feed(0, dx), dy);
    FeedLinear(Step(Step(c, x), y), Word(z), Step(Step(c, x'), y'), Word(z'), Feed(Feed(0, dx), dy), dz);
    Difference(Step(Step(Step(c, x), y), z), Step(Step(Step(c, x'), y'), z'), Feed(Feed(Feed(0, dx), dy), dz));
    FedToZero(dx, dy, dz);
    ThreeDifferences(dx, dy, Feed(0, dx) ^ dy, dz, k);
    WordInjective(x, x');
    WordInjective(y, y');
    WordInjective(z, z');
  }

  lemma Difference(a: bv16, b: bv16, d: bv16)
    ensures Differ(a, b, d) <==> d == a ^ b
    ensures a == b ==> a ^ b == 0
  {}

  lemma FedToZero(dx: bv16, dy: bv16, dz: bv16)
    requires Feed(Feed(Feed(0, dx), dy), dz) == 0
    ensures Feed(0, dx) == Shifts(dx, 8) && Differ(Feed(0, dx), dy, Feed(0, dx) ^ dy)
    ensures Shifts(Feed(0, dx) ^ dy, 8) == dz
  {
    hide Shifts;
    var c := Feed(Feed(0, dx), dy);
    ShiftsZero(8);
    ShiftsInjective(c ^ dz, 0, 8);
    XorCancel(dz, c, dz);
    assert 0 ^ dx == dx;
  }

  /**
   A change confined to 16 consecutive bits: those from the `k`-th bit of one byte to the one before the
   `k`-th of the next but one. With `k` zero or eight these are two whole bytes.
   */
  predicate WithinSixteenBits(x: u8, z: u8, x': u8, z': u8, k: nat) {
    k <= 8 && LowBitsAgree(x, x', k) && HighBitsAgree(z, z', k)
  }

  /** Every error burst of at most 16 bits changes the register, wherever in a message it is. */
  lemma BurstDetected(c: bv16, pre: seq<u8>, x: u8, y: u8, z: u8, x': u8, y': u8, z': u8, k: nat, post: seq<u8>)
    requires WithinSixteenBits(x, z, x', z', k) && (x != x' || y != y' || z != z')
    ensures Update(c, pre + [x, y, z] + post) != Update(c, pre + [x', y', z'] + post)
  {
    hide LowBitsAgree, HighBitsAgree, Step;
    var d := Update(c, pre);
    UpdateParts(c, pre, [x, y, z], post);
    UpdateParts(c, pre, [x', y', z'], post);
    TripleUpdate(d, x, y, z);
    TripleUpdate(d, x', y', z');
    if Update(d, [x, y, z]) == Update(d, [x', y', z']) {
      ThreeSteps(d, x, y, z, x', y', z', k);
    }
    UpdateKeepsDifference(Update(d, [x, y, z]), Update(d, [x', y', z']), post);
  }

  lemma UpdateParts(c: bv16, pre: seq<u8>, mid: seq<u8>, post: seq<u8>)
    ensures Update(c, pre + mid + post) == Update(Update(Update(c, pre), mid), post)
  {
    UpdateConcat(c, pre + mid, post);
    UpdateConcat(c, pre, mid);
  }

  lemma TripleUpdate(c: bv16, x: u8, y: u8, z: u8)
    ensures Update(c, [x, y, z]) == Step(Step(Step(c, x), y), z)
  {
    hide Step;
    assert [x, y, z][1..] == [y, z];
    PairUpdate(Step(c, x), y, z);
  }

  /** An error within two neighbouring bytes is a burst, whichever byte comes before or after. */
  lemma TwoBytesAreABurst(x: u8, y: u8, x': u8, y': u8, z: u8)
    ensures WithinSixteenBits(x, z, x', z, 0) && WithinSixteenBits(z, y, z, y', 8)
  {
    LowOfWord(y);
    LowOfWord(y');
  }

  lemma PairUpdate(c: bv16, x: u8, y: u8)
    ensures Update(c, [x, y]) == Step(Step(c, x), y)
  {
    assert [x, y][1..] == [y] && [y][1..] == [];
    assert Update(Step(c, x), [y]) == Update(Step(Step(c, x), y), []);
  }

  lemma Residue(c: bv16)
    ensures Step(Step(c, Low(c)), High(c)) == 0
  {
    hide Feed, Word, Low;
    WordOfLow(c);
    WordOfHigh(c);
    ResidueBits(c, Word(Low(c)), Word(High(c)));
  }

  lemma WordOfHigh(c: bv16)
    ensures Word(High(c)) == c >> 8
  {
    hide Word, Low;
    WordOfLow(c >> 8);
    assert (c >> 8) & 0xFF == c >> 8;
  }

  lemma ResidueBits(c: bv16, lo: bv16, hi: bv16)
    requires lo == c & 0xFF && hi == c >> 8
    ensures Feed(Feed(c, lo), hi) == 0
  {}

  /** A frame carries its own checksum exactly when the whole frame leaves the register at zero. */
  lemma FrameRegister(data: seq<u8>, lo: u8, hi: u8)
    ensures Update(INITIAL, data + [lo, hi]) == 0 <==> 256 * hi + lo == Checksum(data)
  {
    hide Feed, Word, Low, High, Update;
    var c := Update(INITIAL, data);
    UpdateConcat(INITIAL, data, [lo, hi]);
    PairUpdate(c, lo, hi);
    Residue(c);
    if Step(Step(c, lo), hi) == 0 {
      TwoSteps(c, lo, hi, Low(c), High(c));
    }
  }
}
