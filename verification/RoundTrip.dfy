/**
 What the writers print, the parsers read back: single frames, whole streams, and corrupted frames.
 */
module RoundTrip {
  import opened Types
  import opened Bits
  import opened Serialize
  import opened FrameWriters
  import opened Framing
  import Crc

  // ----- MBAP -----

  lemma MbapRoundTrip(txId: u16, unit: u8, pdu: seq<u8>)
    requires |pdu| <= MAX_ADU_LENGTH
    ensures ParseOne(Tcp(Begin), MbapFrame(txId, unit, pdu)) ==
            Parsed(Tcp(Begin), [], Got(Frame(UnitId(unit), Some(txId), pdu)))
  {
    var f := MbapFrame(txId, unit, pdu);
    assert f[MBAP_HEADER_LENGTH..] == pdu && pdu[..|pdu|] == pdu && pdu[|pdu|..] == [];
    MbapHeaderRoundTrip(txId, unit, pdu);
    hide MbapFrame, MbapHeaderOf;
  }

  /** The length field survives the cast and is one that the parser accepts. */
  lemma MbapHeaderRoundTrip(txId: u16, unit: u8, pdu: seq<u8>)
    requires |pdu| <= MAX_ADU_LENGTH
    ensures MbapHeaderOf(MbapFrame(txId, unit, pdu)) == Ok(Header(txId, |pdu| + 1, unit, |pdu|))
  {
    var f := MbapFrame(txId, unit, pdu);
    assert f[0] == txId / 256 && f[1] == txId % 256 && f[2] == 0 && f[3] == 0;
    assert f[4] == 0 && f[5] == |pdu| + 1 && f[6] == unit;
  }

  /** Every frame that the MBAP writer returns has a length field in 2..254 that its parser accepts. */
  lemma WrittenHeaderIsAccepted(header: FrameHeader, field: FunctionField, body: Body)
    requires header.txId.Some? && body.Valid() && Formatted(TcpFormat, header, field, body).Ok?
    ensures var f := Formatted(TcpFormat, header, field, body).value;
            && |f| >= MBAP_HEADER_LENGTH
            && MbapHeaderOf(f).Ok?
            && var h := MbapHeaderOf(f).value;
               && h == Header(header.txId.value, h.lengthField, header.destination.Value(), h.lengthField - 1)
               && 2 <= h.lengthField <= MAX_LENGTH_FIELD
               && |f| == 6 + h.lengthField
  {
    hide Emit, MbapHeaderOf;
    var pdu := [field.Value()] + Emit(body).bytes;
    MbapHeaderRoundTrip(header.txId.value, header.destination.Value(), pdu);
  }

  // ----- RTU -----

  /** The length that the parser infers for a PDU is its real length. */
  predicate Delimited(kind: ParserType, pdu: seq<u8>) {
    pdu != [] &&
    match LengthModeOf(kind, pdu[0])
    case Fixed(n) => |pdu| == 1 + n
    case Offset(o) => |pdu| > o && |pdu| == 1 + o + pdu[o]
    case UnknownLength => false
  }

  /** The parser's verdict on the bytes of one delimited frame. */
  lemma RtuVerdict(kind: ParserType, d: u8, pdu: seq<u8>, lo: u8, hi: u8)
    requires Delimited(kind, pdu)
    ensures var f := [d] + pdu + [lo, hi];
            ParseOne(Rtu(kind, Start), f) ==
            if |pdu| > MAX_ADU_LENGTH then
              Parsed(Rtu(kind, Start), f[1..], Bad(FrameLengthTooBig(|pdu|, MAX_ADU_LENGTH)))
            else if FromBe16(hi, lo) != Crc.Checksum([d] + pdu) then
              Parsed(Rtu(kind, Start), [], Bad(CrcValidationFailure(FromBe16(hi, lo), Crc.Checksum([d] + pdu))))
            else
              Parsed(Rtu(kind, Start), [], Got(Frame(DestinationOf(d), None, pdu)))
  {
    hide Crc.Checksum;
    var f := [d] + pdu + [lo, hi];
    assert f[1..] == pdu + [lo, hi] && f[1] == pdu[0];
    RtuFullVerdict(DestinationOf(d), pdu, lo, hi);
    hide RtuFull;
  }

  lemma RtuFullVerdict(destination: Destination, pdu: seq<u8>, lo: u8, hi: u8)
    requires pdu != []
    ensures var d := destination.Value();
            var state := ReadFullBody(destination, |pdu| - 1);
            RtuFull(destination, |pdu| - 1, pdu + [lo, hi]) ==
            if |pdu| > MAX_ADU_LENGTH then
              Parsed(state, pdu + [lo, hi], Bad(FrameLengthTooBig(|pdu|, MAX_ADU_LENGTH)))
            else if FromBe16(hi, lo) != Crc.Checksum([d] + pdu) then
              Parsed(state, [], Bad(CrcValidationFailure(FromBe16(hi, lo), Crc.Checksum([d] + pdu))))
            else
              Parsed(Start, [], Got(Frame(destination, None, pdu)))
  {
    hide Crc.Checksum;
    assert (pdu + [lo, hi])[..|pdu|] == pdu && (pdu + [lo, hi])[|pdu| + 2..] == [];
  }

  /** A frame as the writer prints it comes back exactly when its PDU is within the limit. */
  lemma RtuRoundTripIff(kind: ParserType, d: u8, pdu: seq<u8>)
    requires Delimited(kind, pdu)
    ensures var r := ParseOne(Rtu(kind, Start), RtuFrame(d, pdu));
            && (|pdu| <= MAX_ADU_LENGTH <==> r == Parsed(Rtu(kind, Start), [], Got(Frame(DestinationOf(d), None, pdu))))
            && (|pdu| > MAX_ADU_LENGTH ==> r.outcome == Bad(FrameLengthTooBig(|pdu|, MAX_ADU_LENGTH)))
  {
    hide Crc.Checksum, Crc.CrcBytes, ParseOne;
    Crc.CrcBytesAreLittleEndian([d] + pdu);
    var c := Crc.Checksum([d] + pdu);
    RtuVerdict(kind, d, pdu, c % 256, c / 256);
  }

  /**
   An error burst of at most 16 bits anywhere in an accepted frame, checksum included, is always reported
   as a checksum failure, as long as the frame's inferred length is unchanged. A change within one byte or
   within two neighbouring bytes is such a burst (`Crc.TwoBytesAreABurst`).
   */
  lemma CorruptionDetected(kind: ParserType, pre: seq<u8>, x: u8, y: u8, z: u8, x': u8, y': u8, z': u8, k: nat,
                           post: seq<u8>)
    requires Crc.WithinSixteenBits(x, z, x', z', k) && (x != x' || y != y' || z != z')
    requires |pre| + |post| >= 1
    requires var f := pre + [x, y, z] + post;
             Delimited(kind, f[1..|f| - 2]) && ParseOne(Rtu(kind, Start), f).outcome.Got?
    requires var f' := pre + [x', y', z'] + post;
             Delimited(kind, f'[1..|f'| - 2])
    ensures var r := ParseOne(Rtu(kind, Start), pre + [x', y', z'] + post);
            r.outcome.Bad? && r.outcome.error.CrcValidationFailure?
  {
    hide ParseOne, Crc.Update, Crc.Checksum, Crc.WithinSixteenBits, Delimited;
    var f, f' := pre + [x, y, z] + post, pre + [x', y', z'] + post;
    Crc.BurstDetected(Crc.INITIAL, pre, x, y, z, x', y', z', k, post);
    RegisterVerdict(kind, f);
    RegisterVerdict(kind, f');
  }

  lemma RegisterVerdict(kind: ParserType, f: seq<u8>)
    requires |f| >= 4 && Delimited(kind, f[1..|f| - 2])
    ensures var outcome := ParseOne(Rtu(kind, Start), f).outcome;
            if |f| - 3 > MAX_ADU_LENGTH then outcome.Bad?
            else if Crc.Update(Crc.INITIAL, f) == 0 then outcome.Got?
            else outcome.Bad? && outcome.error.CrcValidationFailure?
  {
    hide ParseOne, Crc.Update, Crc.Checksum, Delimited;
    var d, pdu, lo, hi := f[0], f[1..|f| - 2], f[|f| - 2], f[|f| - 1];
    PartsOfFrame(f);
    RtuVerdict(kind, d, pdu, lo, hi);
    Crc.FrameRegister([d] + pdu, lo, hi);
  }

  lemma PartsOfFrame(f: seq<u8>)
    requires |f| >= 4
    ensures f == [f[0]] + f[1..|f| - 2] + [f[|f| - 2], f[|f| - 1]]
  {}

  // ----- streams of frames -----

  /** The bytes of exactly one frame, and what the parser makes of them. */
  ghost predicate Carries(p: Parser, bytes: seq<u8>, frame: Frame) {
    ParseOne(p.Reset(), bytes) == Parsed(p.Reset(), [], Got(frame))
  }

  function Gots(frames: seq<Frame>): seq<Outcome> {
    if frames == [] then [] else [Got(frames[0])] + Gots(frames[1..])
  }

  /** Frames printed one after the other come back one after the other, with nothing left over. */
  lemma {:induction false} FramesInARow(p: Parser, bytes: seq<seq<u8>>, frames: seq<Frame>)
    requires |bytes| == |frames|
    requires forall i | 0 <= i < |bytes| :: Carries(p, bytes[i], frames[i])
    ensures p.Reset().Valid()
    ensures ParseAll(p.Reset(), Concat(bytes)) == Stream(Gots(frames), p.Reset(), [])
    decreases |bytes|
  {
    hide ParseOne, ParseAll, Carries;
    if bytes == [] {
      NothingToParse(p);
    } else {
      FramesInARow(p, bytes[1..], frames[1..]);
      FrameThenRest(p, bytes[0], frames[0], Concat(bytes[1..]));
    }
  }

  lemma NothingToParse(p: Parser)
    ensures p.Reset().Valid() && ParseAll(p.Reset(), []) == Stream([], p.Reset(), [])
  {}

  lemma FrameThenRest(p: Parser, f: seq<u8>, frame: Frame, later: seq<u8>)
    requires Carries(p, f, frame) && p.Reset().Valid()
    ensures ParseAll(p.Reset(), f + later) ==
            var s := ParseAll(p.Reset(), later); s.(outputs := [Got(frame)] + s.outputs)
  {
    hide ParseOne;
    ParseOneStable(p.Reset(), f, later);
    assert [] + later == later;
  }
}
