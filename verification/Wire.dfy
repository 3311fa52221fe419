/**
 What is on the wire, byte by byte: the formats that the encoders and the decoders have in common, said without
 either of them (sections 6.1 to 6.6, 6.11, 6.12 and 7 of MODBUS Application Protocol V1.1b3, section 3.1.3 of
 MODBUS Messaging on TCP/IP Implementation Guide V1.0b, section 2.5.1 of MODBUS over Serial Line V1.02).
 */
module WireFormats {
  import opened Types
  import opened Bits
  import opened Serialize
  import opened FrameWriters
  import opened ServerRequests
  import opened ServerSessions
  import opened ClientRequests
  import opened EndToEnd
  import Framing
  import Crc
  import CrcPolynomials

  // ----- tables -----

  /** Section 7: the codes of exceptions, and that they come back as what they were. */
  lemma ExceptionCodes(ex: ExceptionCode)
    ensures match ex
            case IllegalFunction => ex.ToByte() == 1
            case IllegalDataAddress => ex.ToByte() == 2
            case IllegalDataValue => ex.ToByte() == 3
            case ServerDeviceFailure => ex.ToByte() == 4
            case Acknowledge => ex.ToByte() == 5
            case ServerDeviceBusy => ex.ToByte() == 6
            case MemoryParityError => ex.ToByte() == 8
            case GatewayPathUnavailable => ex.ToByte() == 10
            case GatewayTargetDeviceFailedToRespond => ex.ToByte() == 11
            case Unknown(b) => ex.ToByte() == b
    ensures !ex.Unknown? || ex.code !in {1, 2, 3, 4, 5, 6, 8, 10, 11} ==> ex.OnTheWire() == ex
  {}

  // ----- PDUs of requests -----

  /** A function code and two words, high byte first. */
  predicate HeadIs(pdu: seq<u8>, f: u8, v: u16, w: u16) {
    |pdu| >= 5 && pdu[0] == f && WordAt(pdu, 1) == v && WordAt(pdu, 3) == w
  }

  /** The bits of `values`, from the byte `at` on, lowest bit first. */
  ghost predicate BitsFrom(pdu: seq<u8>, at: nat, values: seq<bool>) {
    && |pdu| == at + (|values| + 7) / 8
    && forall i | 0 <= i < |values| :: (pdu[at + i / 8] / Pow2(i % 8) % 2 == 1) == values[i]
  }

  /** The words of `values`, from the byte `at` on. */
  ghost predicate WordsFrom(pdu: seq<u8>, at: nat, values: seq<u16>) {
    && |pdu| == at + 2 * |values|
    && forall i | 0 <= i < |values| :: WordAt(pdu, at + 2 * i) == values[i]
  }

  lemma HeadOf(f: u8, v: u16, w: u16, more: seq<u8>)
    ensures HeadIs([f] + (Be16(v) + Be16(w) + more), f, v, w)
    ensures ([f] + (Be16(v) + Be16(w) + more))[5..] == more
  {
    var pdu := [f] + (Be16(v) + Be16(w) + more);
    assert pdu[1] == v / 256 && pdu[2] == v % 256 && pdu[3] == w / 256 && pdu[4] == w % 256;
  }

  lemma ShortHead(f: u8, v: u16, w: u16)
    ensures var pdu := [f] + (Be16(v) + Be16(w)); |pdu| == 5 && HeadIs(pdu, f, v, w)
  {
    HeadOf(f, v, w, []);
    assert Be16(v) + Be16(w) + [] == Be16(v) + Be16(w);
  }

  lemma PackedFrom(pdu: seq<u8>, at: nat, values: seq<bool>)
    requires at <= |pdu| && pdu[at..] == PackBits(values)
    ensures BitsFrom(pdu, at, values)
  {
    hide PackBits;
    PackedLength(values);
    forall i | 0 <= i < |values|
      ensures (pdu[at + i / 8] / Pow2(i % 8) % 2 == 1) == values[i]
    {
      PackedBit(values, i);
      TestBitIsDigit(pdu[at + i / 8], i % 8);
      assert pdu[at..][i / 8] == pdu[at + i / 8];
    }
  }

  lemma PackedWordsFrom(pdu: seq<u8>, at: nat, values: seq<u16>)
    requires at <= |pdu| && pdu[at..] == PackWords(values)
    ensures WordsFrom(pdu, at, values)
  {
    hide PackWords;
    PackedWordsLength(values);
    forall i | 0 <= i < |values|
      ensures WordAt(pdu, at + 2 * i) == values[i]
    {
      PackedWord(values, i);
      assert pdu[at..][2 * i] == pdu[at + 2 * i] && pdu[at..][2 * i + 1] == pdu[at + 2 * i + 1];
    }
  }

  /** Every request, byte by byte. */
  lemma RequestLayout(details: RequestDetails)
    requires Emit(details.Body()).error.None?
    ensures var pdu := PduOf(details);
            match details
            case ReadCoilsOf(r) => |pdu| == 5 && HeadIs(pdu, 1, r.start, r.count)
            case ReadDiscreteInputsOf(r) => |pdu| == 5 && HeadIs(pdu, 2, r.start, r.count)
            case ReadHoldingRegistersOf(r) => |pdu| == 5 && HeadIs(pdu, 3, r.start, r.count)
            case ReadInputRegistersOf(r) => |pdu| == 5 && HeadIs(pdu, 4, r.start, r.count)
            case WriteCoil(x) => |pdu| == 5 && HeadIs(pdu, 5, x.index, if x.value then 0xFF00 else 0)
            case WriteRegister(x) => |pdu| == 5 && HeadIs(pdu, 6, x.index, x.value)
            case WriteCoils(r, values) =>
              HeadIs(pdu, 15, r.start, r.count) && |pdu| > 5 && pdu[5] == (r.count + 7) / 8 && BitsFrom(pdu, 6, values)
            case WriteRegisters(r, values) =>
              HeadIs(pdu, 16, r.start, r.count) && |pdu| > 5 && pdu[5] == 2 * r.count && WordsFrom(pdu, 6, values)
  {
    hide HeadIs, BitsFrom, WordsFrom, PackBits, PackWords, Be16;
    var pdu := PduOf(details);
    match details
    case ReadCoilsOf(r) => ShortHead(1, r.start, r.count);
    case ReadDiscreteInputsOf(r) => ShortHead(2, r.start, r.count);
    case ReadHoldingRegistersOf(r) => ShortHead(3, r.start, r.count);
    case ReadInputRegistersOf(r) => ShortHead(4, r.start, r.count);
    case WriteCoil(x) => ShortHead(5, x.index, if x.value then 0xFF00 else 0);
    case WriteRegister(x) => ShortHead(6, x.index, x.value);
    case WriteCoils(r, values) =>
      var more := [(r.count + 7) / 8] + PackBits(values);
      HeadOf(15, r.start, r.count, more);
      assert pdu[5..] == more && pdu[6..] == more[1..] == PackBits(values);
      PackedFrom(pdu, 6, values);
    case WriteRegisters(r, values) =>
      var more := [2 * r.count] + PackWords(values);
      HeadOf(16, r.start, r.count, more);
      assert pdu[5..] == more && pdu[6..] == more[1..] == PackWords(values);
      PackedWordsFrom(pdu, 6, values);
  }

  // ----- PDUs of replies -----

  /** The value that the handler returns for an address of a range. */
  lemma {:induction false} ValuesAre<T>(getter: Getter<T>, start: nat, count: nat)
    requires start + count <= 0x1_0000 && Values(getter, start, count).1.None?
    ensures var values := Values(getter, start, count).0;
            |values| == count && forall i | 0 <= i < count :: getter(start + i) == Ok(values[i])
    decreases count
  {
    if count > 0 {
      ValuesAre(getter, start + 1, count - 1);
    }
  }

  /** The PDU of a reply that is not an exception. */
  function ReplyPdu<S>(h: Handler<S>, state: S, request: Request): seq<u8>
    requires request.Valid()
  {
    [request.Function().Value()] + Emit(ReplyBody(h, state, request)).bytes
  }

  /** A byte count and the bits of a range, from a handler's point of view. */
  ghost predicate BitsOf(pdu: seq<u8>, f: u8, r: AddressRange, read: u16 -> Result<bool, ExceptionCode>)
    requires WellFormed(r)
  {
    && |pdu| == 2 + (r.count + 7) / 8 && pdu[0] == f && pdu[1] == (r.count + 7) / 8
    && forall i | 0 <= i < r.count :: read(r.start + i) == Ok(pdu[2 + i / 8] / Pow2(i % 8) % 2 == 1)
  }

  ghost predicate RegistersOf(pdu: seq<u8>, f: u8, r: AddressRange, read: u16 -> Result<u16, ExceptionCode>)
    requires WellFormed(r)
  {
    && |pdu| == 2 + 2 * r.count && pdu[0] == f && pdu[1] == 2 * r.count
    && forall i | 0 <= i < r.count :: read(r.start + i) == Ok(WordAt(pdu, 2 + 2 * i))
  }

  lemma BitsLaidOut(f: u8, r: AddressRange, read: Getter<bool>)
    requires WellFormed(r) && EmitBits(r, read).error.None?
    ensures BitsOf([f] + EmitBits(r, read).bytes, f, r, read)
  {
    hide PackBits;
    ValuesLength(read, r.start, r.count);
    ValuesAre(read, r.start, r.count);
    var values := Values(read, r.start, r.count).0;
    var pdu := [f] + EmitBits(r, read).bytes;
    assert pdu[2..] == PackBits(values);
    PackedFrom(pdu, 2, values);
  }

  lemma RegistersLaidOut(f: u8, r: AddressRange, read: Getter<u16>)
    requires WellFormed(r) && EmitRegisters(r, read).error.None?
    ensures RegistersOf([f] + EmitRegisters(r, read).bytes, f, r, read)
  {
    hide PackWords;
    ValuesLength(read, r.start, r.count);
    ValuesAre(read, r.start, r.count);
    var values := Values(read, r.start, r.count).0;
    var pdu := [f] + EmitRegisters(r, read).bytes;
    assert pdu[2..] == PackWords(values);
    PackedWordsFrom(pdu, 2, values);
    forall i | 0 <= i < r.count
      ensures read(r.start + i) == Ok(WordAt(pdu, 2 + 2 * i))
    {
      assert WordAt(pdu, 2 + 2 * i) == values[i];
    }
  }

  /** Every reply that is not an exception, byte by byte, with the handler's values at their addresses. */
  lemma ReplyLayout<S>(h: Handler<S>, state: S, request: Request)
    requires request.Valid() && Emit(ReplyBody(h, state, request)).error.None?
    ensures var pdu := ReplyPdu(h, state, request);
            match request
            case ReadCoils(r) => BitsOf(pdu, 1, r, (i: u16) => h.readCoil(state, i))
            case ReadDiscreteInputs(r) => BitsOf(pdu, 2, r, (i: u16) => h.readDiscreteInput(state, i))
            case ReadHoldingRegisters(r) => RegistersOf(pdu, 3, r, (i: u16) => h.readHoldingRegister(state, i))
            case ReadInputRegisters(r) => RegistersOf(pdu, 4, r, (i: u16) => h.readInputRegister(state, i))
            case WriteSingleCoil(x) => |pdu| == 5 && HeadIs(pdu, 5, x.index, if x.value then 0xFF00 else 0)
            case WriteSingleRegister(x) => |pdu| == 5 && HeadIs(pdu, 6, x.index, x.value)
            case WriteMultipleCoils(r, _) => |pdu| == 5 && HeadIs(pdu, 15, r.start, r.count)
            case WriteMultipleRegisters(r, _) => |pdu| == 5 && HeadIs(pdu, 16, r.start, r.count)
  {
    hide HeadIs, BitsOf, RegistersOf, EmitBits, EmitRegisters, Be16;
    var body := ReplyBody(h, state, request);
    match request
    case ReadCoils(r) => BitsLaidOut(1, r, body.getBit);
    case ReadDiscreteInputs(r) => BitsLaidOut(2, r, body.getBit);
    case ReadHoldingRegisters(r) => RegistersLaidOut(3, r, body.getRegister);
    case ReadInputRegisters(r) => RegistersLaidOut(4, r, body.getRegister);
    case WriteSingleCoil(x) => ShortHead(5, x.index, if x.value then 0xFF00 else 0);
    case WriteSingleRegister(x) => ShortHead(6, x.index, x.value);
    case WriteMultipleCoils(r, _) => ShortHead(15, r.start, r.count);
    case WriteMultipleRegisters(r, _) => ShortHead(16, r.start, r.count);
  }

  /** The PDU of an exception reply: the function code of the request with its top bit set, and the code. */
  lemma ExceptionLayout(frame: Frame, ex: ExceptionCode)
    requires frame.payload != []
    ensures ExceptionPdu(frame, ex.ToByte()) ==
            [if frame.payload[0] >= 128 then frame.payload[0] else frame.payload[0] + 128, ex.ToByte()]
  {}

  // ----- frames -----

  /** An MBAP frame: transaction id, protocol zero, the length of unit and PDU, the unit, and the PDU. */
  lemma MbapLayout(txId: u16, unit: u8, pdu: seq<u8>)
    requires |pdu| <= MAX_ADU_LENGTH
    ensures MAX_ADU_LENGTH == 253
    ensures var f := MbapFrame(txId, unit, pdu);
            && |f| == 7 + |pdu| && f[7..] == pdu && f[6] == unit
            && WordAt(f, 0) == txId && WordAt(f, 2) == 0 && WordAt(f, 4) == |pdu| + 1
  {
    var f := MbapFrame(txId, unit, pdu);
    assert f[0] == txId / 256 && f[1] == txId % 256 && f[2] == 0 && f[3] == 0;
    assert f[4] == 0 && f[5] == |pdu| + 1;
  }

  /** An MBAP header is accepted exactly with protocol zero and a length of 1 to 254. */
  lemma MbapHeaderIff(b: seq<u8>)
    requires |b| >= 7
    ensures Framing.MbapHeaderOf(b).Ok? <==> WordAt(b, 2) == 0 && 1 <= WordAt(b, 4) <= 254
    ensures Framing.MbapHeaderOf(b).Ok? ==>
              Framing.MbapHeaderOf(b).value == Framing.Header(WordAt(b, 0), WordAt(b, 4), b[6], WordAt(b, 4) - 1)
  {}

  /** An RTU frame: address, PDU, and the two bytes of the checksum of both, low byte first. */
  lemma RtuLayout(destination: u8, pdu: seq<u8>)
    ensures var f := RtuFrame(destination, pdu);
            var bits := CrcPolynomials.MessageBits([destination] + pdu);
            var crc := CrcPolynomials.Value(
                         CrcPolynomials.Remainder(CrcPolynomials.Shifted(CrcPolynomials.ONES, bits)));
            f == [destination] + pdu + f[|pdu| + 1..] && |f| == |pdu| + 3 &&
            f[|pdu| + 1] == crc % 256 && f[|pdu| + 2] == crc / 256
  {
    hide Crc.CrcBytes, Crc.Checksum, CrcPolynomials.Value, CrcPolynomials.Remainder, CrcPolynomials.Shifted;
    Crc.CrcBytesAreLittleEndian([destination] + pdu);
    CrcPolynomials.ChecksumIsRemainder([destination] + pdu);
  }

  // ----- what the parsers accept -----

  /** How many bytes the PDU of an RTU frame has, once enough of it is there to tell: `b` starts at the address. */
  function PduLength(kind: Framing.ParserType, b: seq<u8>): Option<nat>
    requires |b| >= 2
  {
    if kind.Response? && b[1] >= 128 then Some(2)
    else if kind.Response? && b[1] in {1, 2, 3, 4} then (if |b| < 3 then None else Some(2 + (b[2] as int)))
    else if kind.Request? && b[1] in {15, 16} then (if |b| < 7 then None else Some(6 + (b[6] as int)))
    else Some(5)
  }

  /** The checksum in the two bytes after the PDU is the one of the address and the PDU. */
  predicate ChecksumMatches(b: seq<u8>, n: nat)
    requires |b| >= n + 3
  {
    (b[n + 1] as int) + 256 * (b[n + 2] as int) == Crc.Checksum(b[..n + 1])
  }

  lemma RtuBody(b: seq<u8>, n: nat)
    requires |b| >= 2 && n > 0
    ensures var p := Framing.RtuFull(Framing.DestinationOf(b[0]), n - 1, b[1..]);
            if n > 253 then p.outcome == Framing.Bad(FrameLengthTooBig(n, 253)) && p.rest == b[1..]
            else if |b| < n + 3 then p.outcome == Framing.More && p.rest == b[1..]
            else
              && p.rest == b[n + 3..]
              && if ChecksumMatches(b, n)
                 then p.outcome == Framing.Got(Frame(if b[0] == 0 then Broadcast else UnitId(b[0]), None, b[1..n + 1]))
                 else p.outcome.Bad? && p.outcome.error.CrcValidationFailure?
  {
    hide Crc.Checksum;
    if |b| >= n + 3 {
      assert [b[0]] + b[1..][..n] == b[..n + 1] && b[1..][..n] == b[1..n + 1] && b[1..][n + 2..] == b[n + 3..];
    }
  }

  /** The table of the parser, against the one above. */
  lemma LengthTable(kind: Framing.ParserType, b: seq<u8>)
    requires |b| >= 2
    ensures var n := PduLength(kind, b);
            match Framing.LengthModeOf(kind, b[1])
            case UnknownLength => b[1] !in {1, 2, 3, 4, 5, 6, 15, 16} && (kind.Response? ==> b[1] < 128)
            case Fixed(length) => (b[1] in {1, 2, 3, 4, 5, 6, 15, 16} || (kind.Response? && b[1] >= 128)) && n == Some(1 + length)
            case Offset(offset) =>
              && b[1] in {1, 2, 3, 4, 15, 16}
              && n == if |b| < 2 + offset then None else Some(1 + offset + (b[1 + offset] as int))
  {}

  /**
   A new RTU frame is read in one of these ways, and in no other: its function code is unknown; it is not all
   there; its PDU is longer than 253 bytes; its checksum does not match; or it is a frame.
   */
  lemma RtuFrameIff(kind: Framing.ParserType, b: seq<u8>)
    ensures var p, n := Framing.RtuParse(kind, Framing.Start, b), if |b| < 2 then None else PduLength(kind, b);
            var known := |b| >= 2 && (b[1] in {1, 2, 3, 4, 5, 6, 15, 16} || (kind.Response? && b[1] >= 128));
            && (|b| >= 2 && !known <==> p.outcome.Bad? && p.outcome.error.UnknownFunctionCode?)
            && (|b| >= 2 && !known ==> p.outcome.error.code == b[1] && p.rest == b[1..])
            && (|b| < 2 || (known && (n.None? || (n.value <= 253 && |b| < n.value + 3))) <==> p.outcome.More?)
            && (known && n.Some? && n.value > 253 <==> p.outcome.Bad? && p.outcome.error.FrameLengthTooBig?)
            && (known && n.Some? && n.value > 253 ==> p.outcome == Framing.Bad(FrameLengthTooBig(n.value, 253)) && p.rest == b[1..])
            && (known && n.Some? && n.value <= 253 && |b| >= n.value + 3 ==>
                  && p.rest == b[n.value + 3..]
                  && if ChecksumMatches(b, n.value)
                     then p.outcome == Framing.Got(Frame(if b[0] == 0 then Broadcast else UnitId(b[0]), None, b[1..n.value + 1]))
                     else p.outcome.Bad? && p.outcome.error.CrcValidationFailure?)
  {
    if |b| >= 2 {
      LengthTable(kind, b);
      if PduLength(kind, b).Some? {
        RtuBody(b, PduLength(kind, b).value);
      }
    }
    hide Framing.RtuFull, Framing.LengthModeOf, ChecksumMatches, PduLength;
  }

  /** A new MBAP frame is read in one of these ways, and in no other. */
  lemma MbapFrameIff(b: seq<u8>)
    ensures var p := Framing.MbapParse(Framing.Begin, b);
            if |b| < 7 then p == Framing.Parsed(Framing.Begin, b, Framing.More)
            else if WordAt(b, 2) != 0 then p.outcome == Framing.Bad(UnknownProtocolId(WordAt(b, 2))) && p.rest == b[7..]
            else if WordAt(b, 4) > 254 then p.outcome == Framing.Bad(FrameLengthTooBig(WordAt(b, 4), 254)) && p.rest == b[7..]
            else if WordAt(b, 4) == 0 then p.outcome == Framing.Bad(MbapLengthZero) && p.rest == b[7..]
            else if |b| < 6 + WordAt(b, 4) then p.outcome.More? && p.rest == b[7..]
            else
              && p.outcome == Framing.Got(Frame(UnitId(b[6]), Some(WordAt(b, 0)), b[7..6 + WordAt(b, 4)]))
              && p.rest == b[6 + WordAt(b, 4)..]
  {
    if |b| >= 7 {
      MbapHeaderIff(b);
    }
  }
}
