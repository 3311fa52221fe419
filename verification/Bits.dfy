/**
 Packing of bits into bytes and of registers into big-endian words, and the iterators that undo it.
 */
module Bits {
  import opened Types

  /** Bit `k` of `v`. */
  predicate TestBit(v: nat, k: nat) {
    if k == 0 then v % 2 == 1 else TestBit(v / 2, k - 1)
  }

  /** `v | (1 << k)` */
  function SetBit(v: nat, k: nat): nat {
    if k == 0 then (if v % 2 == 1 then v else v + 1)
    else 2 * SetBit(v / 2, k - 1) + v % 2
  }

  /** At most eight bits, first bit lowest. */
  function PackByte(bits: seq<bool>): nat {
    if bits == [] then 0 else (if bits[0] then 1 else 0) + 2 * PackByte(bits[1..])
  }

  function NumBytes(bits: nat): nat { (bits + 7) / 8 }

  function Head(bits: seq<bool>): seq<bool> { if |bits| <= 8 then bits else bits[..8] }

  function Tail(bits: seq<bool>): seq<bool> { if |bits| <= 8 then [] else bits[8..] }

  function PackBits(bits: seq<bool>): seq<u8>
    decreases |bits|
  {
    if bits == [] then [] else
      PackByteFits(Head(bits));
      [PackByte(Head(bits))] + PackBits(Tail(bits))
  }

  /** Bit `i` of a packed sequence. */
  predicate BitOf(bytes: seq<u8>, i: nat)
    requires i / 8 < |bytes|
  {
    TestBit(bytes[i / 8], i % 8)
  }

  lemma {:induction false} PackByteBound(bits: seq<bool>)
    ensures PackByte(bits) < Pow2(|bits|)
  {
    if bits != [] {
      PackByteBound(bits[1..]);
    }
  }

  lemma {:induction false} Pow2Monotone(m: nat, n: nat)
    requires m <= n
    ensures Pow2(m) <= Pow2(n)
    decreases n
  {
    if m < n {
      Pow2Monotone(m, n - 1);
    }
  }

  lemma PackByteFits(bits: seq<bool>)
    requires |bits| <= 8
    ensures PackByte(bits) < 256
  {
    PackByteBound(bits);
    Pow2Monotone(|bits|, 8);
    assert Pow2(8) == 256;
  }

  lemma {:induction false} PackByteBit(bits: seq<bool>, k: nat)
    ensures TestBit(PackByte(bits), k) <==> k < |bits| && bits[k]
    decreases k
  {
    if bits == [] {
      TestZero(k);
    } else if k > 0 {
      PackByteBit(bits[1..], k - 1);
      assert PackByte(bits) / 2 == PackByte(bits[1..]);
    }
  }

  lemma {:induction false} TestZero(k: nat)
    ensures !TestBit(0, k)
  {
    if k > 0 {
      TestZero(k - 1);
    }
  }

  /** Merging the next bit into the accumulator, as both packing loops do. */
  lemma {:induction false} PackByteAppend(bits: seq<bool>, b: bool)
    ensures PackByte(bits + [b]) == if b then SetBit(PackByte(bits), |bits|) else PackByte(bits)
  {
    if bits != [] {
      PackByteAppend(bits[1..], b);
      assert (bits + [b])[1..] == bits[1..] + [b];
      assert PackByte(bits) / 2 == PackByte(bits[1..]);
    }
  }

  lemma {:induction false} PackedLength(bits: seq<bool>)
    ensures |PackBits(bits)| == NumBytes(|bits|)
    decreases |bits|
  {
    if bits != [] {
      PackedLength(Tail(bits));
    }
  }

  /** Every bit comes back, and the padding of the last byte is zero. */
  lemma {:induction false} PackedBit(bits: seq<bool>, i: nat)
    requires i < 8 * NumBytes(|bits|)
    ensures |PackBits(bits)| == NumBytes(|bits|)
    ensures BitOf(PackBits(bits), i) <==> i < |bits| && bits[i]
    decreases |bits|
  {
    hide PackBits, PackByte, TestBit;
    PackedLength(bits);
    PackBitsUnfold(bits);
    if i < 8 {
      PackByteBit(Head(bits), i);
    } else {
      PackedBit(Tail(bits), i - 8);
      assert (i - 8) / 8 == i / 8 - 1 && (i - 8) % 8 == i % 8;
    }
  }

  /** The bit at an index is the binary digit of that weight in its byte, lowest first. */
  lemma {:induction false} TestBitIsDigit(v: nat, k: nat)
    ensures TestBit(v, k) <==> v / Pow2(k) % 2 == 1
    decreases k
  {
    if k > 0 {
      TestBitIsDigit(v / 2, k - 1);
      HalfQuotient(v, Pow2(k - 1));
    }
  }

  lemma HalfQuotient(v: nat, p: nat)
    requires p > 0
    ensures v / 2 / p == v / (2 * p)
  {
    var q := v / (2 * p);
    assert v == 2 * p * q + v % (2 * p);
    assert 2 * p * q == 2 * (p * q);
    assert v / 2 == p * q + v % (2 * p) / 2;
    assert p * q <= v / 2 < p * q + p;
    Quotient(v / 2, p, q);
  }

  lemma Quotient(v: nat, p: nat, q: nat)
    requires p > 0 && p * q <= v < p * q + p
    ensures v / p == q
  {
    var d := v / p;
    assert v == p * d + v % p;
    if d < q {
      Multiples(p, d, q);
    } else if d > q {
      Multiples(p, q, d);
    }
  }

  lemma {:induction false} Multiples(p: nat, a: nat, b: nat)
    requires a < b
    ensures p * a + p <= p * b
    decreases b
  {
    if a + 1 < b {
      Multiples(p, a, b - 1);
    }
    assert p * b == p * (b - 1) + p;
  }

  lemma PackBitsUnfold(bits: seq<bool>)
    requires bits != []
    ensures PackByte(Head(bits)) < 256
    ensures PackBits(bits) == [PackByte(Head(bits))] + PackBits(Tail(bits))
  {
    PackByteFits(Head(bits));
  }

  /** Whole bytes at the front do not depend on what follows. */
  lemma {:induction false} PackBitsSplit(a: seq<bool>, b: seq<bool>, k: nat)
    requires |a| == 8 * k
    ensures PackBits(a + b) == PackBits(a) + PackBits(b)
    decreases k
  {
    hide PackBits, PackByte;
    if k == 0 {
      PackNothing();
      assert a + b == b && a == [];
    } else {
      var x, a' := PackByte(a[..8]), a[8..];
      PackBitsSplit(a', b, k - 1);
      PackBitsUnfold(a);
      PackBitsUnfold(a + b);
      assert Head(a + b) == a[..8] && Tail(a + b) == a' + b;
      assert Head(a) == a[..8] && Tail(a) == a';
      assert [x] + (PackBits(a') + PackBits(b)) == ([x] + PackBits(a')) + PackBits(b);
    }
  }

  lemma PackNothing()
    ensures PackBits([]) == [] && PackByte([]) == 0
  {}

  // ----- registers -----

  function PackWords(words: seq<u16>): seq<u8> {
    if words == [] then [] else Be16(words[0]) + PackWords(words[1..])
  }

  /** Register `i` of a packed sequence. */
  function WordOf(bytes: seq<u8>, i: nat): u16
    requires 2 * i + 1 < |bytes|
  {
    FromBe16(bytes[2 * i], bytes[2 * i + 1])
  }

  lemma {:induction false} PackedWord(words: seq<u16>, i: nat)
    requires i < |words|
    ensures |PackWords(words)| == 2 * |words|
    ensures WordOf(PackWords(words), i) == words[i]
  {
    PackedWordsLength(words);
    if i > 0 {
      PackedWord(words[1..], i - 1);
    }
  }

  lemma {:induction false} PackedWordsLength(words: seq<u16>)
    ensures |PackWords(words)| == 2 * |words|
  {
    if words != [] {
      PackedWordsLength(words[1..]);
    }
  }

  lemma {:induction false} PackWordsAppend(words: seq<u16>, w: u16)
    ensures PackWords(words + [w]) == PackWords(words) + Be16(w)
  {
    if words == [] {
      assert words + [w] == [w];
      assert PackWords([w]) == Be16(w) + PackWords([]);
    } else {
      PackWordsAppend(words[1..], w);
      assert (words + [w])[1..] == words[1..] + [w];
      assert (words + [w])[0] == words[0];
      assert PackWords(words + [w]) == Be16(words[0]) + (PackWords(words[1..]) + Be16(w));
    }
  }

  // ----- iterators -----

  /** What a bit iterator yields over the packed bytes of a range. */
  function BitItems(range: AddressRange, bytes: seq<u8>): (items: seq<Indexed<bool>>)
    requires WellFormed(range) && |bytes| == NumBytes(range.count)
    ensures |items| == range.count
  {
    seq(range.count, i requires 0 <= i < range.count => Indexed(range.start + i, BitOf(bytes, i)))
  }

  function RegisterItems(range: AddressRange, bytes: seq<u8>): (items: seq<Indexed<u16>>)
    requires WellFormed(range) && |bytes| == 2 * range.count
    ensures |items| == range.count
  {
    seq(range.count, i requires 0 <= i < range.count => Indexed(range.start + i, WordOf(bytes, i)))
  }

  /** Values paired with consecutive addresses. */
  function Zip<T>(start: nat, values: seq<T>): (items: seq<Indexed<T>>)
    requires start + |values| <= 0x1_0000
    ensures |items| == |values|
  {
    seq(|values|, i requires 0 <= i < |values| => Indexed(start + i, values[i]))
  }

  /** Packing, then iterating, pairs every value with its address. */
  lemma BitRoundTrip(range: AddressRange, bits: seq<bool>)
    requires WellFormed(range) && |bits| == range.count
    ensures |PackBits(bits)| == NumBytes(range.count)
    ensures BitItems(range, PackBits(bits)) == Zip(range.start, bits)
  {
    PackedLength(bits);
    forall i | 0 <= i < range.count
      ensures BitOf(PackBits(bits), i) == bits[i]
    {
      PackedBit(bits, i);
    }
  }

  lemma RegisterRoundTrip(range: AddressRange, words: seq<u16>)
    requires WellFormed(range) && |words| == range.count
    ensures |PackWords(words)| == 2 * range.count
    ensures RegisterItems(range, PackWords(words)) == Zip(range.start, words)
  {
    PackedWordsLength(words);
    forall i | 0 <= i < range.count
      ensures WordOf(PackWords(words), i) == words[i]
    {
      PackedWord(words, i);
    }
  }

  class BitIterator {
    const bytes: seq<u8>
    const range: AddressRange
    var pos: u16

    ghost predicate Valid()
      reads this
    {
      WellFormed(range) && |bytes| == NumBytes(range.count) && pos <= range.count
    }

    constructor (range: AddressRange, bytes: seq<u8>)
      requires WellFormed(range) && |bytes| == NumBytes(range.count)
      ensures Valid() && this.range == range && this.bytes == bytes && pos == 0
    {
      this.range := range;
      this.bytes := bytes;
      pos := 0;
    }

    method Next() returns (r: Option<Indexed<bool>>)
      requires Valid()
      modifies this
      ensures Valid()
      ensures old(pos) == range.count ==> r.None? && pos == old(pos)
      ensures old(pos) < range.count ==> r == Some(BitItems(range, bytes)[old(pos)]) && pos == old(pos) + 1
    {
      if pos == range.count {
        return None;
      }
      var bit := TestBit(bytes[pos / 8], pos % 8);
      r := Some(Indexed(range.start + pos, bit));
      pos := pos + 1;
    }

    method Collect() returns (items: seq<Indexed<bool>>)
      requires Valid()
      modifies this
      ensures items == BitItems(range, bytes)[old(pos)..]
    {
      items := [];
      var next := Next();
      while next.Some?
        invariant Valid() && old(pos) <= pos
        invariant if next.Some? then
                    && old(pos) < pos
                    && next.value == BitItems(range, bytes)[pos - 1]
                    && items == BitItems(range, bytes)[old(pos)..pos - 1]
                  else
                    pos == range.count && items == BitItems(range, bytes)[old(pos)..]
        decreases range.count - pos, next.Some?
      {
        items := items + [next.value];
        next := Next();
      }
    }
  }

  class RegisterIterator {
    const bytes: seq<u8>
    const range: AddressRange
    var pos: u16

    ghost predicate Valid()
      reads this
    {
      WellFormed(range) && |bytes| == 2 * range.count && pos <= range.count
    }

    constructor (range: AddressRange, bytes: seq<u8>)
      requires WellFormed(range) && |bytes| == 2 * range.count
      ensures Valid() && this.range == range && this.bytes == bytes && pos == 0
    {
      this.range := range;
      this.bytes := bytes;
      pos := 0;
    }

    method Next() returns (r: Option<Indexed<u16>>)
      requires Valid()
      modifies this
      ensures Valid()
      ensures old(pos) == range.count ==> r.None? && pos == old(pos)
      ensures old(pos) < range.count ==> r == Some(RegisterItems(range, bytes)[old(pos)]) && pos == old(pos) + 1
    {
      if pos == range.count {
        return None;
      }
      var at := 2 * pos;
      r := Some(Indexed(pos + range.start, FromBe16(bytes[at], bytes[at + 1])));
      pos := pos + 1;
    }
  }

  /**
   `AddressIterator`. The increment wraps; `overflowed` records that it did, which is where a build
   with overflow checks stops instead.
   */
  class AddressIterator {
    var current: u16
    var remain: u16
    var overflowed: bool

    constructor (start: u16, count: u16)
      ensures current == start && remain == count && !overflowed
    {
      current, remain, overflowed := start, count, false;
    }

    method Next() returns (r: Option<u16>)
      modifies this
      ensures old(remain) == 0 ==>
                r.None? && current == old(current) && remain == 0 && overflowed == old(overflowed)
      ensures old(remain) > 0 ==>
                && r == Some(old(current)) && remain == old(remain) - 1
                && current == (old(current) + 1) % 0x1_0000
                && overflowed == (old(overflowed) || old(current) == 0xFFFF)
    {
      if remain == 0 {
        return None;
      }
      r := Some(current);
      remain := remain - 1;
      if current == 0xFFFF {
        current, overflowed := 0, true;
      } else {
        current := current + 1;
      }
    }
  }

  /**
   The addresses of a range, in order. The iterator overflows exactly on the ranges that end at the
   last address, and never before it has produced them all.
   */
  method Addresses(range: AddressRange) returns (addresses: seq<u16>, overflowed: bool)
    requires WellFormed(range)
    ensures |addresses| == range.count
    ensures forall i | 0 <= i < range.count :: addresses[i] == range.start + i
    ensures overflowed <==> range.start + range.count == 0x1_0000
  {
    var it := new AddressIterator(range.start, range.count);
    addresses := [];
    while it.remain > 0
      invariant |addresses| == range.count - it.remain
      invariant forall i | 0 <= i < |addresses| :: addresses[i] == range.start + i
      invariant it.remain > 0 ==> it.current == range.start + |addresses|
      invariant it.overflowed <==> range.start + |addresses| == 0x1_0000
      decreases it.remain
    {
      var next := it.Next();
      addresses := addresses + [next.value];
    }
    overflowed := it.overflowed;
  }
}
