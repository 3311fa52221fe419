/**
 The message bodies and how they are written through a bounded cursor.
 */
module Serialize {
  import opened Types
  import opened Bits

  type Getter<T> = u16 -> Result<T, ExceptionCode>

  /** Everything that implements `Serialize`. */
  datatype Body =
    | RangeBody(range: AddressRange)
    | CoilBody(coil: Indexed<bool>)
    | RegisterBody(register: Indexed<u16>)
    | ExceptionBody(ex: ExceptionCode)
    | BitReply(bits: AddressRange, getBit: Getter<bool>)
    | RegisterReply(registers: AddressRange, getRegister: Getter<u16>)
    | WriteCoilsBody(coilRange: AddressRange, coils: seq<bool>)
    | WriteRegistersBody(registerRange: AddressRange, words: seq<u16>)
  {
    /** A reply body has a range that the parser of requests let through. */
    predicate Valid() {
      match this
      case BitReply(range, _) => WellFormed(range)
      case RegisterReply(range, _) => WellFormed(range)
      case _ => true
    }
  }

  /** What a serializer writes, and the error with which it stops if it does not reach the end. */
  datatype Emission = Emission(bytes: seq<u8>, error: Option<RequestError>)

  function ByteCountForBits(n: nat): Result<u8, InternalError> {
    var count := if n % 8 == 0 then n / 8 else n / 8 + 1;
    if count < 256 then Ok(count) else Err(BadByteCount(count))
  }

  function ByteCountForRegisters(n: nat): Result<u8, InternalError> {
    if 2 * n < 256 then Ok(2 * n) else Err(BadByteCount(2 * n))
  }

  /** The values of consecutive addresses up to the first one that fails. */
  function Values<T>(getter: Getter<T>, start: nat, count: nat): (seq<T>, Option<ExceptionCode>)
    requires start + count <= 0x1_0000
    decreases count
  {
    if count == 0 then ([], None) else
    match getter(start)
    case Err(ex) => ([], Some(ex))
    case Ok(v) =>
      var (rest, ex) := Values(getter, start + 1, count - 1);
      ([v] + rest, ex)
  }

  function WholeBytes(bits: seq<bool>): seq<bool> { bits[..|bits| / 8 * 8] }

  function EmitBools(values: seq<bool>): Emission {
    match ByteCountForBits(|values|)
    case Err(e) => Emission([], Some(Internal(e)))
    case Ok(n) => Emission([n] + PackBits(values), None)
  }

  function EmitWords(values: seq<u16>): Emission {
    match ByteCountForRegisters(|values|)
    case Err(e) => Emission([], Some(Internal(e)))
    case Ok(n) => Emission([n] + PackWords(values), None)
  }

  function EmitBits(range: AddressRange, getter: Getter<bool>): Emission
    requires WellFormed(range)
  {
    match ByteCountForBits(range.count)
    case Err(e) => Emission([], Some(Internal(e)))
    case Ok(n) =>
      var (bits, ex) := Values(getter, range.start, range.count);
      if ex.None? then Emission([n] + PackBits(bits), None)
      else Emission([n] + PackBits(WholeBytes(bits)), Some(Exception(ex.value)))
  }

  function EmitRegisters(range: AddressRange, getter: Getter<u16>): Emission
    requires WellFormed(range)
  {
    match ByteCountForRegisters(range.count)
    case Err(e) => Emission([], Some(Internal(e)))
    case Ok(n) =>
      var (words, ex) := Values(getter, range.start, range.count);
      Emission([n] + PackWords(words), if ex.None? then None else Some(Exception(ex.value)))
  }

  function EmitRange(range: AddressRange): seq<u8> { Be16(range.start) + Be16(range.count) }

  function Emit(body: Body): Emission
    requires body.Valid()
  {
    match body
    case RangeBody(range) => Emission(EmitRange(range), None)
    case CoilBody(x) => Emission(Be16(x.index) + Be16(CoilToWord(x.value)), None)
    case RegisterBody(x) => Emission(Be16(x.index) + Be16(x.value), None)
    case ExceptionBody(ex) => Emission([ex.ToByte()], None)
    case BitReply(range, getter) => EmitBits(range, getter)
    case RegisterReply(range, getter) => EmitRegisters(range, getter)
    case WriteCoilsBody(range, values) =>
      var e := EmitBools(values); e.(bytes := EmitRange(range) + e.bytes)
    case WriteRegistersBody(range, values) =>
      var e := EmitWords(values); e.(bytes := EmitRange(range) + e.bytes)
  }

  /** The outcome of writing an emission where there is room for `room` bytes. */
  function Fit(e: Emission, room: int): Result<seq<u8>, RequestError> {
    if |e.bytes| > room then Err(Internal(InsufficientWriteSpace))
    else if e.error.Some? then Err(e.error.value)
    else Ok(e.bytes)
  }

  // ----- the cursor -----

  datatype Written = Done | Stopped(error: RequestError)

  class WriteCursor {
    const dest: array<u8>
    var pos: nat

    ghost predicate Valid()
      reads this
    {
      pos <= dest.Length
    }

    ghost function Text(): seq<u8>
      requires Valid()
      reads this, dest
    {
      dest[..pos]
    }

    constructor (dest: array<u8>)
      ensures Valid() && this.dest == dest && pos == 0
    {
      this.dest := dest;
      pos := 0;
    }

    method WriteU8(b: u8) returns (r: Written)
      requires Valid()
      modifies this, dest
      ensures Valid()
      ensures r == (if old(pos) < dest.Length then Done else Stopped(Internal(InsufficientWriteSpace)))
      ensures Text() == old(Text()) + (if r.Done? then [b] else [])
    {
      if pos == dest.Length {
        return Stopped(Internal(InsufficientWriteSpace));
      }
      dest[pos] := b;
      pos := pos + 1;
      r := Done;
    }

    method WriteU16Be(v: u16) returns (r: Written)
      requires Valid()
      modifies this, dest
      ensures Valid()
      ensures r == (if old(pos) + 2 <= dest.Length then Done else Stopped(Internal(InsufficientWriteSpace)))
      ensures Text() == old(Text()) + (if r.Done? then Be16(v) else [])
    {
      if pos + 2 > dest.Length {
        return Stopped(Internal(InsufficientWriteSpace));
      }
      dest[pos] := v / 256;
      dest[pos + 1] := v % 256;
      pos := pos + 2;
      r := Done;
    }

    method WriteU16Le(v: u16) returns (r: Written)
      requires Valid()
      modifies this, dest
      ensures Valid()
      ensures r == (if old(pos) + 2 <= dest.Length then Done else Stopped(Internal(InsufficientWriteSpace)))
      ensures Text() == old(Text()) + (if r.Done? then [v % 256, v / 256] else [])
    {
      if pos + 2 > dest.Length {
        return Stopped(Internal(InsufficientWriteSpace));
      }
      dest[pos] := v % 256;
      dest[pos + 1] := v / 256;
      pos := pos + 2;
      r := Done;
    }

    /** Step over bytes that are written later; whatever the buffer held stays there for now. */
    method Skip(n: nat) returns (r: Written)
      requires Valid()
      modifies this
      ensures Valid()
      ensures r == (if old(pos) + n <= dest.Length then Done else Stopped(Internal(InsufficientWriteSpace)))
      ensures pos == old(pos) + (if r.Done? then n else 0) && dest[..old(pos)] == old(Text())
    {
      if pos + n > dest.Length {
        return Stopped(Internal(InsufficientWriteSpace));
      }
      pos := pos + n;
      r := Done;
    }

    /** Seek back, write a word over skipped bytes, and seek to where the cursor was. */
    method PatchU16Be(at: nat, v: u16)
      requires Valid() && at + 2 <= pos
      modifies this, dest
      ensures Valid() && pos == old(pos)
      ensures Text() == old(Text())[..at] + Be16(v) + old(Text())[at + 2..]
    {
      var end := pos;
      pos := at;
      dest[pos] := v / 256;
      dest[pos + 1] := v % 256;
      pos := end;
    }

    /** A serializer has run from `start`: all of `e` is there, or it stopped with the error `e` and the room dictate. */
    ghost predicate Holds(start: seq<u8>, r: Written, e: Emission)
      reads this, dest
    {
      && Valid()
      && start <= Text()
      && match Fit(e, dest.Length - |start|)
         case Ok(bytes) => r == Done && Text() == start + bytes
         case Err(error) => r == Stopped(error)
    }

    method SerializeBools(values: seq<bool>) returns (r: Written)
      requires Valid()
      modifies this, dest
      ensures Holds(old(Text()), r, EmitBools(values))
    {
      hide PackBits, PackByte;
      var count := ByteCountForBits(|values|);
      if count.Err? {
        return Stopped(Internal(count.error));
      }
      r := WriteU8(count.value);
      ghost var start := old(Text()) + [count.value];
      var chunk := 0;
      PackNothing();
      while r.Done? && chunk < |values|
        invariant Valid() && old(Text()) <= Text()
        invariant chunk <= |values| && (chunk < |values| ==> chunk % 8 == 0)
        invariant r.Done? ==> Text() == start + PackBits(values[..chunk])
        invariant !r.Done? ==>
                    r == Stopped(Internal(InsufficientWriteSpace)) && dest.Length < |start| + |PackBits(values)|
        decreases |values| - chunk, r.Done?
      {
        var end := if chunk + 8 <= |values| then chunk + 8 else |values|;
        var acc := PackChunk(values[chunk..end]);
        NextByte(values, chunk, end);
        r := WriteU8(acc);
        chunk := end;
      }
      assert values[..|values|] == values;
    }

    method SerializeWords(values: seq<u16>) returns (r: Written)
      requires Valid()
      modifies this, dest
      ensures Holds(old(Text()), r, EmitWords(values))
    {
      hide PackWords;
      var count := ByteCountForRegisters(|values|);
      if count.Err? {
        return Stopped(Internal(count.error));
      }
      PackedWordsLength(values);
      r := WriteU8(count.value);
      if r.Stopped? {
        return;
      }
      ghost var start := Text();
      PackNoWords(values);
      for i := 0 to |values|
        invariant Valid() && r.Done? && old(Text()) <= Text()
        invariant Text() == start + PackWords(values[..i])
      {
        PackWordsAppend(values[..i], values[i]);
        assert values[..i] + [values[i]] == values[..i + 1];
        PackedWordsLength(values[..i]);
        r := WriteU16Be(values[i]);
        if r.Stopped? {
          return;
        }
      }
      assert values[..|values|] == values;
    }

    /** `BitWriter`: an accumulator that is flushed whenever it holds eight bits. */
    method SerializeBits(range: AddressRange, getter: Getter<bool>) returns (r: Written)
      requires Valid() && WellFormed(range)
      modifies this, dest
      ensures Holds(old(Text()), r, EmitBits(range, getter))
    {
      hide PackBits, PackByte, Values, SetBit, Packed;
      var count := ByteCountForBits(range.count);
      if count.Err? {
        return Stopped(Internal(count.error));
      }
      r := WriteU8(count.value);
      if r.Stopped? {
        return;
      }
      ghost var start: seq<u8>, bits: seq<bool>, flushed: seq<u8> := Text(), [], [];
      var acc, numBits := 0, 0;
      PackedInitially();
      for i := 0 to range.count
        invariant Valid() && r.Done? && old(Text()) <= Text()
        invariant |bits| == i && Good(getter, range, bits)
        invariant numBits < 8 && Packed(bits, numBits, acc, flushed)
        invariant Text() == start + flushed
      {
        var bit := getter(range.start + i);
        if bit.Err? {
          PackedStops(getter, range, bits, numBits, acc, flushed);
          return Stopped(Exception(bit.error));
        }
        PackedStep(getter, range, bits, numBits, acc, flushed, bit.value);
        if bit.value {
          acc := SetBit(acc, numBits);
        }
        bits := bits + [bit.value];
        numBits := numBits + 1;
        if numBits == 8 {
          r := WriteU8(acc);
          if r.Stopped? {
            return;
          }
          flushed := flushed + [acc];
          acc, numBits := 0, 0;
        }
      }
      PackedEnds(getter, range, bits, numBits, acc, flushed);
      if numBits > 0 {
        r := WriteU8(acc);
      }
    }

    method SerializeRegisters(range: AddressRange, getter: Getter<u16>) returns (r: Written)
      requires Valid() && WellFormed(range)
      modifies this, dest
      ensures Holds(old(Text()), r, EmitRegisters(range, getter))
    {
      hide PackWords, Values;
      var count := ByteCountForRegisters(range.count);
      if count.Err? {
        return Stopped(Internal(count.error));
      }
      r := WriteU8(count.value);
      if r.Stopped? {
        return;
      }
      ghost var start := Text();
      ghost var words: seq<u16> := [];
      PackNoWords(words);
      for i := 0 to range.count
        invariant Valid() && r.Done? && old(Text()) <= Text()
        invariant |words| == i && Good(getter, range, words)
        invariant Text() == start + PackWords(words)
      {
        PackedWordsLength(words);
        var word := getter(range.start + i);
        if word.Err? {
          StopsAt(getter, range, words);
          return Stopped(Exception(word.error));
        }
        PackWordsAppend(words, word.value);
        words := words + [word.value];
        WordsSoFar(getter, range, words);
        r := WriteU16Be(word.value);
        if r.Stopped? {
          return;
        }
      }
      Complete(getter, range, words);
    }

    method SerializeRange(range: AddressRange) returns (r: Written)
      requires Valid()
      modifies this, dest
      ensures Holds(old(Text()), r, Emission(EmitRange(range), None))
    {
      r := WriteU16Be(range.start);
      if r.Stopped? {
        return;
      }
      r := WriteU16Be(range.count);
    }

    /** `Serialize::serialize` */
    method SerializeBody(body: Body) returns (r: Written)
      requires Valid() && body.Valid()
      modifies this, dest
      ensures Holds(old(Text()), r, Emit(body))
    {
      hide EmitBits, EmitRegisters, EmitBools, EmitWords;
      match body
      case RangeBody(range) => r := SerializeRange(range);
      case CoilBody(x) =>
        r := SerializeRange(AddressRange(x.index, CoilToWord(x.value)));
      case RegisterBody(x) =>
        r := SerializeRange(AddressRange(x.index, x.value));
      case ExceptionBody(ex) => r := WriteU8(ex.ToByte());
      case BitReply(range, getter) => r := SerializeBits(range, getter);
      case RegisterReply(range, getter) => r := SerializeRegisters(range, getter);
      case WriteCoilsBody(range, values) =>
        r := SerializeRange(range);
        if r.Done? {
          r := SerializeBools(values);
        }
      case WriteRegistersBody(range, values) =>
        r := SerializeRange(range);
        if r.Done? {
          r := SerializeWords(values);
        }
    }
  }

  /** The inner loop of the chunked packer. */
  method PackChunk(bits: seq<bool>) returns (acc: nat)
    requires |bits| <= 8
    ensures acc == PackByte(bits)
  {
    acc := 0;
    for count := 0 to |bits|
      invariant acc == PackByte(bits[..count])
    {
      PackByteAppend(bits[..count], bits[count]);
      assert bits[..count] + [bits[count]] == bits[..count + 1];
      if bits[count] {
        acc := SetBit(acc, count);
      }
    }
    assert bits[..|bits|] == bits;
  }

  /** Packing up to `end` adds one byte to packing up to `chunk`. */
  lemma NextByte(values: seq<bool>, chunk: nat, end: nat)
    requires chunk < end <= |values| && chunk % 8 == 0 && end <= chunk + 8
    requires end == chunk + 8 || end == |values|
    ensures PackByte(values[chunk..end]) < 256
    ensures PackBits(values[..end]) == PackBits(values[..chunk]) + [PackByte(values[chunk..end])]
    ensures |PackBits(values[..end])| <= |PackBits(values)|
  {
    hide PackByte;
    var byte := values[chunk..end];
    PackByteFits(byte);
    PackBitsSplit(values[..chunk], byte, chunk / 8);
    assert values[..chunk] + byte == values[..end];
    assert Head(byte) == byte && Tail(byte) == [];
    assert PackBits(byte) == [PackByte(byte)] + PackBits([]);
    PackedLength(values[..end]);
    PackedLength(values);
  }

  lemma PackNoWords(words: seq<u16>)
    ensures PackWords(words[..0]) == [] && (words == [] ==> PackWords(words) == [])
  {}

  // ----- the values read so far -----

  /** `values` are what the getter returns for the first addresses of the range. */
  ghost predicate Good<T>(getter: Getter<T>, range: AddressRange, values: seq<T>)
    requires WellFormed(range)
  {
    && |values| <= range.count
    && forall i | 0 <= i < |values| :: getter(range.start + i) == Ok(values[i])
  }

  lemma {:induction false} ValuesFrom<T>(getter: Getter<T>, start: nat, count: nat, values: seq<T>)
    requires start + count <= 0x1_0000 && |values| <= count
    requires forall i | 0 <= i < |values| :: getter(start + i) == Ok(values[i])
    ensures values <= Values(getter, start, count).0
    ensures |values| == count ==> Values(getter, start, count) == (values, None)
    ensures |values| < count && getter(start + |values|).Err? ==>
              Values(getter, start, count) == (values, Some(getter(start + |values|).error))
    decreases count
  {
    if values != [] {
      assert getter(start + 0) == Ok(values[0]);
      forall i | 0 <= i < |values[1..]|
        ensures getter(start + 1 + i) == Ok(values[1..][i])
      {
        assert getter(start + (i + 1)) == Ok(values[i + 1]);
      }
      ValuesFrom(getter, start + 1, count - 1, values[1..]);
      assert values == [values[0]] + values[1..];
    }
  }

  lemma GoodIsPrefix<T>(getter: Getter<T>, range: AddressRange, values: seq<T>)
    requires WellFormed(range) && Good(getter, range, values)
    ensures values <= Values(getter, range.start, range.count).0
  {
    ValuesFrom(getter, range.start, range.count, values);
  }

  lemma Complete<T>(getter: Getter<T>, range: AddressRange, values: seq<T>)
    requires WellFormed(range) && Good(getter, range, values) && |values| == range.count
    ensures Values(getter, range.start, range.count) == (values, None)
  {
    ValuesFrom(getter, range.start, range.count, values);
  }

  lemma StopsAt<T>(getter: Getter<T>, range: AddressRange, values: seq<T>)
    requires WellFormed(range) && Good(getter, range, values) && |values| < range.count
    requires getter(range.start + |values|).Err?
    ensures Values(getter, range.start, range.count) == (values, Some(getter(range.start + |values|).error))
  {
    ValuesFrom(getter, range.start, range.count, values);
  }

  lemma WordsSoFar(getter: Getter<u16>, range: AddressRange, words: seq<u16>)
    requires WellFormed(range) && Good(getter, range, words)
    requires ByteCountForRegisters(range.count).Ok?
    ensures |PackWords(words)| == 2 * |words|
    ensures |EmitRegisters(range, getter).bytes| >= 1 + 2 * |words|
  {
    GoodIsPrefix(getter, range, words);
    PackedWordsLength(Values(getter, range.start, range.count).0);
    PackedWordsLength(words);
  }

  /** Both bit packers write the same bytes for the same bits. */
  lemma PackersAgree(getter: Getter<bool>, range: AddressRange, bits: seq<bool>)
    requires WellFormed(range) && Good(getter, range, bits) && |bits| == range.count
    ensures EmitBits(range, getter) == EmitBools(bits)
  {
    Complete(getter, range, bits);
  }

  lemma RegisterWritersAgree(getter: Getter<u16>, range: AddressRange, words: seq<u16>)
    requires WellFormed(range) && Good(getter, range, words) && |words| == range.count
    ensures EmitRegisters(range, getter) == EmitWords(words)
  {
    Complete(getter, range, words);
  }

  // ----- the accumulator of the bit writer -----

  /** The bits so far: whole bytes flushed, the rest in the accumulator. */
  ghost predicate Packed(bits: seq<bool>, numBits: nat, acc: nat, flushed: seq<u8>) {
    var k := |flushed|;
    && |bits| == 8 * k + numBits && numBits < 8
    && acc == PackByte(bits[8 * k..])
    && flushed == PackBits(bits[..8 * k])
  }

  lemma PackedInitially()
    ensures Packed([], 0, 0, [])
  {}

  lemma PackedStep(getter: Getter<bool>, range: AddressRange, bits: seq<bool>, numBits: nat, acc: nat,
                   flushed: seq<u8>, bit: bool)
    requires Packed(bits, numBits, acc, flushed) && WellFormed(range) && Good(getter, range, bits)
    requires |bits| < range.count && getter(range.start + |bits|) == Ok(bit)
    requires ByteCountForBits(range.count).Ok?
    ensures var acc' := if bit then SetBit(acc, numBits) else acc;
            if numBits < 7 then
              Packed(bits + [bit], numBits + 1, acc', flushed)
            else
              && acc' < 256 && Packed(bits + [bit], 0, 0, flushed + [acc'])
              && |EmitBits(range, getter).bytes| >= 2 + |flushed|
  {
    hide PackByte, PackBits, SetBit;
    var k, more := |flushed|, bits + [bit];
    PackByteAppend(bits[8 * k..], bit);
    assert bits[8 * k..] + [bit] == more[8 * k..] && bits[..8 * k] == more[..8 * k];
    if numBits == 7 {
      NextByte(more, 8 * k, 8 * k + 8);
      assert more[..8 * k + 8] == more && more[8 * (k + 1)..] == [];
      PackNothing();
      FlushedSoFar(getter, range, more, k + 1);
    }
  }

  lemma PackedStops(getter: Getter<bool>, range: AddressRange, bits: seq<bool>, numBits: nat, acc: nat,
                    flushed: seq<u8>)
    requires Packed(bits, numBits, acc, flushed) && WellFormed(range) && Good(getter, range, bits)
    requires |bits| < range.count && getter(range.start + |bits|).Err?
    requires ByteCountForBits(range.count).Ok?
    ensures EmitBits(range, getter) ==
            Emission([ByteCountForBits(range.count).value] + flushed,
                     Some(Exception(getter(range.start + |bits|).error)))
  {
    StopsAt(getter, range, bits);
    assert WholeBytes(bits) == bits[..8 * |flushed|];
  }

  lemma PackedEnds(getter: Getter<bool>, range: AddressRange, bits: seq<bool>, numBits: nat, acc: nat,
                   flushed: seq<u8>)
    requires Packed(bits, numBits, acc, flushed) && WellFormed(range) && Good(getter, range, bits)
    requires |bits| == range.count && ByteCountForBits(range.count).Ok?
    ensures acc < 256
    ensures EmitBits(range, getter) ==
            Emission([ByteCountForBits(range.count).value] + flushed + (if numBits > 0 then [acc] else []), None)
  {
    hide PackByte, PackBits;
    Complete(getter, range, bits);
    PackByteFits(bits[8 * |flushed|..]);
    if numBits > 0 {
      NextByte(bits, 8 * |flushed|, |bits|);
      assert bits[..|bits|] == bits && bits[8 * |flushed|..|bits|] == bits[8 * |flushed|..];
    } else {
      assert bits[..8 * |flushed|] == bits;
    }
  }

  /** The emission is at least as long as what has been flushed. */
  lemma FlushedSoFar(getter: Getter<bool>, range: AddressRange, bits: seq<bool>, k: nat)
    requires WellFormed(range) && Good(getter, range, bits) && |bits| == 8 * k
    requires ByteCountForBits(range.count).Ok?
    ensures |PackBits(bits)| == k
    ensures |EmitBits(range, getter).bytes| >= 1 + k
  {
    GoodIsPrefix(getter, range, bits);
    var (all, ex) := Values(getter, range.start, range.count);
    PackedLength(all);
    PackedLength(WholeBytes(all));
    PackedLength(bits);
  }
}
