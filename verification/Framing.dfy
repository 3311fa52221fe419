/**
 The two stream parsers as functions of the parser state and the unread bytes, and the theorem
 that the way a stream is cut into reads does not matter.
 */
module Framing {
  import opened Types
  import Crc

  datatype ParserType = Request | Response

  datatype RtuState =
    | Start
    | ReadFullBody(destination: Destination, length: nat)
    | ReadToOffsetForLength(destination: Destination, offset: nat)

  datatype MbapState =
    | Begin
    | Header(txId: u16, lengthField: u16, unit: u8, aduLength: nat)

  datatype Parser =
    | Tcp(mbap: MbapState)
    | Rtu(kind: ParserType, rtu: RtuState)
  {
    function Reset(): Parser {
      match this
      case Tcp(_) => Tcp(Begin)
      case Rtu(kind, _) => Rtu(kind, Start)
    }

    /** The states that a parser can be in between two calls. */
    predicate Valid() {
      match this
      case Tcp(Begin) => true
      case Tcp(Header(_, _, _, n)) => n <= MAX_ADU_LENGTH
      case Rtu(_, Start) => true
      case Rtu(_, ReadFullBody(_, _)) => true
      case Rtu(_, ReadToOffsetForLength(_, n)) => n == 1 || n == 5
    }
  }

  datatype Outcome = More | Got(frame: Frame) | Bad(error: FrameParseError)

  datatype Parsed<+S> = Parsed(state: S, rest: seq<u8>, outcome: Outcome)

  // ----- RTU -----

  datatype LengthMode = Fixed(length: nat) | Offset(offset: nat) | UnknownLength

  function LengthModeOf(kind: ParserType, code: u8): LengthMode {
    if kind.Response? && code >= 0x80 then Fixed(1) else
    match FunctionCode.Get(code)
    case None => UnknownLength
    case Some(f) =>
      match kind
      case Request =>
        (match f
         case WriteMultipleCoils | WriteMultipleRegisters => Offset(5)
         case _ => Fixed(4))
      case Response =>
        (match f
         case ReadCoils | ReadDiscreteInputs | ReadHoldingRegisters | ReadInputRegisters => Offset(1)
         case _ => Fixed(4))
  }

  function DestinationOf(b: u8): Destination {
    if b == 0 then Broadcast else UnitId(b)
  }

  function RtuFull(destination: Destination, length: nat, buf: seq<u8>): Parsed<RtuState> {
    var state := ReadFullBody(destination, length);
    if 1 + length > MAX_ADU_LENGTH then
      Parsed(state, buf, Bad(FrameLengthTooBig(1 + length, MAX_ADU_LENGTH)))
    else if |buf| < 1 + length + 2 then
      Parsed(state, buf, More)
    else
      var pdu := buf[..1 + length];
      var received := FromBe16(buf[2 + length], buf[1 + length]);
      var expected := Crc.Checksum([destination.Value()] + pdu);
      if received != expected then
        Parsed(state, buf[3 + length..], Bad(CrcValidationFailure(received, expected)))
      else
        Parsed(Start, buf[3 + length..], Got(Frame(destination, None, pdu)))
  }

  function RtuToOffset(destination: Destination, offset: nat, buf: seq<u8>): Parsed<RtuState> {
    if |buf| < 1 + offset then Parsed(ReadToOffsetForLength(destination, offset), buf, More)
    else RtuFull(destination, offset + buf[offset], buf)
  }

  function RtuParse(kind: ParserType, state: RtuState, buf: seq<u8>): Parsed<RtuState> {
    match state
    case ReadFullBody(destination, length) => RtuFull(destination, length, buf)
    case ReadToOffsetForLength(destination, offset) => RtuToOffset(destination, offset, buf)
    case Start =>
      if |buf| < 2 then Parsed(Start, buf, More) else
      match LengthModeOf(kind, buf[1])
      case Fixed(length) => RtuFull(DestinationOf(buf[0]), length, buf[1..])
      case Offset(offset) => RtuToOffset(DestinationOf(buf[0]), offset, buf[1..])
      case UnknownLength => Parsed(Start, buf[1..], Bad(UnknownFunctionCode(buf[1])))
  }

  // ----- MBAP -----

  function MbapHeaderOf(buf: seq<u8>): Result<MbapState, FrameParseError>
    requires |buf| >= MBAP_HEADER_LENGTH
  {
    var txId := FromBe16(buf[0], buf[1]);
    var protocolId := FromBe16(buf[2], buf[3]);
    var length := FromBe16(buf[4], buf[5]);
    if protocolId != 0 then Err(UnknownProtocolId(protocolId))
    else if length > MAX_LENGTH_FIELD then Err(FrameLengthTooBig(length, MAX_LENGTH_FIELD))
    else if length == 0 then Err(MbapLengthZero)
    else Ok(Header(txId, length, buf[6], length - 1))
  }

  function MbapParse(state: MbapState, buf: seq<u8>): Parsed<MbapState> {
    match state
    case Header(txId, _, unit, n) =>
      if |buf| < n then Parsed(state, buf, More)
      else Parsed(Begin, buf[n..], Got(Frame(UnitId(unit), Some(txId), buf[..n])))
    case Begin =>
      if |buf| < MBAP_HEADER_LENGTH then Parsed(Begin, buf, More) else
      match MbapHeaderOf(buf)
      case Err(e) => Parsed(Begin, buf[MBAP_HEADER_LENGTH..], Bad(e))
      case Ok(h) =>
        var body := buf[MBAP_HEADER_LENGTH..];
        if |body| < h.aduLength then Parsed(h, body, More)
        else Parsed(Begin, body[h.aduLength..],
                    Got(Frame(UnitId(h.unit), Some(h.txId), body[..h.aduLength])))
  }

  // ----- both -----

  /** One call of `FrameParser::parse`. */
  function Parse(p: Parser, buf: seq<u8>): Parsed<Parser> {
    match p
    case Tcp(s) => var r := MbapParse(s, buf); Parsed(Tcp(r.state), r.rest, r.outcome)
    case Rtu(k, s) => var r := RtuParse(k, s, buf); Parsed(Rtu(k, r.state), r.rest, r.outcome)
  }

  /** A call of `parse`, followed by the reset with which `next_frame` answers an error. */
  function ParseOne(p: Parser, buf: seq<u8>): Parsed<Parser> {
    var r := Parse(p, buf);
    if r.outcome.Bad? then r.(state := r.state.Reset()) else r
  }

  function Work(p: Parser, buf: seq<u8>): nat {
    2 * |buf| + (if p == p.Reset() then 0 else 1)
  }

  ghost predicate IsSuffix(rest: seq<u8>, buf: seq<u8>) {
    |rest| <= |buf| && rest == buf[|buf| - |rest|..]
  }

  lemma RtuFullProgress(destination: Destination, length: nat, buf: seq<u8>)
    ensures var r := RtuFull(destination, length, buf);
            && (r.state == Start || r.state == ReadFullBody(destination, length))
            && IsSuffix(r.rest, buf)
            && (r.outcome.Got? ==>
                  |r.rest| < |buf| && r.state == Start && |r.outcome.frame.payload| <= MAX_ADU_LENGTH)
  {
    hide Crc.Checksum;
  }

  lemma RtuProgress(kind: ParserType, state: RtuState, buf: seq<u8>)
    requires Rtu(kind, state).Valid()
    ensures var r := RtuParse(kind, state, buf);
            && Rtu(kind, r.state).Valid()
            && IsSuffix(r.rest, buf)
            && (r.outcome.Got? ==>
                  |r.rest| < |buf| && r.state == Start && |r.outcome.frame.payload| <= MAX_ADU_LENGTH)
            && (r.outcome.Bad? && state == Start ==> |r.rest| < |buf|)
  {
    hide RtuFull;
    match state
    case ReadFullBody(destination, length) =>
      RtuFullProgress(destination, length, buf);
    case ReadToOffsetForLength(destination, offset) =>
      if |buf| > offset {
        RtuFullProgress(destination, offset + buf[offset], buf);
      }
    case Start =>
      if |buf| >= 2 {
        var tail := buf[1..];
        match LengthModeOf(kind, buf[1])
        case Fixed(length) => RtuFullProgress(DestinationOf(buf[0]), length, tail);
        case Offset(offset) =>
          if |tail| > offset {
            RtuFullProgress(DestinationOf(buf[0]), offset + tail[offset], tail);
          }
        case UnknownLength =>
      }
  }

  lemma MbapProgress(state: MbapState, buf: seq<u8>)
    requires Tcp(state).Valid()
    ensures var r := MbapParse(state, buf);
            && Tcp(r.state).Valid()
            && IsSuffix(r.rest, buf)
            && (!r.outcome.More? ==> r.state == Begin && (state == Begin ==> |r.rest| < |buf|))
            && (r.outcome.Got? ==> |r.outcome.frame.payload| <= MAX_ADU_LENGTH)
  {}

  /** A call consumes from the front only, and a frame or an error is never returned for nothing. */
  lemma ParseOneProgress(p: Parser, buf: seq<u8>)
    requires p.Valid()
    ensures var r := ParseOne(p, buf);
            && r.state.Valid()
            && IsSuffix(r.rest, buf)
            && (!r.outcome.More? ==> Work(r.state, r.rest) < Work(p, buf) && r.state == p.Reset())
            && (r.outcome.Got? ==> |r.outcome.frame.payload| <= MAX_ADU_LENGTH)
  {
    hide RtuParse, MbapParse;
    match p
    case Tcp(s) => MbapProgress(s, buf);
    case Rtu(k, s) => RtuProgress(k, s, buf);
  }

  datatype Stream = Stream(outputs: seq<Outcome>, state: Parser, rest: seq<u8>)

  /** The frames and errors of a one-shot parse of `buf`, and what is left when it asks for more. */
  function ParseAll(p: Parser, buf: seq<u8>): Stream
    requires p.Valid()
    decreases Work(p, buf)
  {
    ParseOneProgress(p, buf);
    var r := ParseOne(p, buf);
    if r.outcome.More? then Stream([], r.state, r.rest)
    else
      var s := ParseAll(r.state, r.rest);
      s.(outputs := [r.outcome] + s.outputs)
  }

  function Concat(parts: seq<seq<u8>>): seq<u8> {
    if parts == [] then [] else parts[0] + Concat(parts[1..])
  }

  // ----- stability -----

  /** A decision once taken is not changed by bytes that arrive later. */
  lemma RtuFullStable(destination: Destination, length: nat, a: seq<u8>, b: seq<u8>)
    ensures var r := RtuFull(destination, length, a);
            if r.outcome.More? then
              RtuFull(destination, length, a + b) == RtuParse(Request, r.state, r.rest + b)
            else
              RtuFull(destination, length, a + b) == r.(rest := r.rest + b)
  {
    hide Crc.Checksum;
    if 1 + length <= MAX_ADU_LENGTH && |a| >= 3 + length {
      assert (a + b)[..1 + length] == a[..1 + length];
      assert (a + b)[3 + length..] == a[3 + length..] + b;
    }
  }

  lemma RtuToOffsetStable(destination: Destination, offset: nat, a: seq<u8>, b: seq<u8>)
    ensures var r := RtuToOffset(destination, offset, a);
            if r.outcome.More? then
              RtuToOffset(destination, offset, a + b) == RtuParse(Request, r.state, r.rest + b)
            else
              RtuToOffset(destination, offset, a + b) == r.(rest := r.rest + b)
  {
    hide RtuFull;
    if |a| >= 1 + offset {
      RtuFullStable(destination, offset + a[offset], a, b);
      assert (a + b)[offset] == a[offset];
    }
  }

  lemma RtuStable(kind: ParserType, state: RtuState, a: seq<u8>, b: seq<u8>)
    ensures var r := RtuParse(kind, state, a);
            RtuParse(kind, state, a + b) ==
            if r.outcome.More? then RtuParse(kind, r.state, r.rest + b) else r.(rest := r.rest + b)
  {
    match state
    case ReadFullBody(destination, length) =>
      RtuFullStable(destination, length, a, b);
    case ReadToOffsetForLength(destination, offset) =>
      RtuToOffsetStable(destination, offset, a, b);
    case Start =>
      hide RtuFull, RtuToOffset;
      if |a| >= 2 {
        assert (a + b)[1..] == a[1..] + b;
        match LengthModeOf(kind, a[1])
        case Fixed(length) => RtuFullStable(DestinationOf(a[0]), length, a[1..], b);
        case Offset(offset) => RtuToOffsetStable(DestinationOf(a[0]), offset, a[1..], b);
        case UnknownLength =>
      }
  }

  lemma MbapStable(state: MbapState, a: seq<u8>, b: seq<u8>)
    ensures var r := MbapParse(state, a);
            MbapParse(state, a + b) ==
            if r.outcome.More? then MbapParse(r.state, r.rest + b) else r.(rest := r.rest + b)
  {
    match state
    case Header(_, _, _, n) =>
      if |a| >= n {
        assert (a + b)[n..] == a[n..] + b && (a + b)[..n] == a[..n];
      }
    case Begin =>
      if |a| >= MBAP_HEADER_LENGTH {
        var body := a[MBAP_HEADER_LENGTH..];
        assert (a + b)[MBAP_HEADER_LENGTH..] == body + b;
        match MbapHeaderOf(a)
        case Err(_) =>
        case Ok(h) =>
          if |body| >= h.aduLength {
            assert (body + b)[h.aduLength..] == body[h.aduLength..] + b;
            assert (body + b)[..h.aduLength] == body[..h.aduLength];
          }
      }
  }

  lemma ParseOneStable(p: Parser, a: seq<u8>, b: seq<u8>)
    ensures var r := ParseOne(p, a);
            ParseOne(p, a + b) ==
            if r.outcome.More? then ParseOne(r.state, r.rest + b) else r.(rest := r.rest + b)
  {
    hide RtuParse, MbapParse;
    match p
    case Tcp(s) => MbapStable(s, a, b);
    case Rtu(k, s) => RtuStable(k, s, a, b);
  }

  /** Parsing what has arrived, then parsing again when the rest arrives, is parsing all of it. */
  lemma {:induction false} ParseAllResumes(p: Parser, a: seq<u8>, b: seq<u8>)
    requires p.Valid()
    ensures ParseAll(p, a).state.Valid()
    ensures var s := ParseAll(p, a);
            var t := ParseAll(s.state, s.rest + b);
            ParseAll(p, a + b) == t.(outputs := s.outputs + t.outputs)
    decreases Work(p, a)
  {
    hide ParseOne;
    ParseOneProgress(p, a);
    ParseOneStable(p, a, b);
    var r := ParseOne(p, a);
    if !r.outcome.More? {
      ParseAllResumes(r.state, r.rest, b);
      var s := ParseAll(r.state, r.rest);
      var t := ParseAll(s.state, s.rest + b);
      assert [r.outcome] + (s.outputs + t.outputs) == ([r.outcome] + s.outputs) + t.outputs;
    } else {
      ParseAllSettled(p, a, b);
    }
  }

  lemma ParseAllSettled(p: Parser, a: seq<u8>, b: seq<u8>)
    requires p.Valid() && ParseOne(p, a).outcome.More?
    ensures var r := ParseOne(p, a); r.state.Valid() && ParseAll(p, a + b) == ParseAll(r.state, r.rest + b)
    ensures ParseAll(p, a) == Stream([], ParseOne(p, a).state, ParseOne(p, a).rest)
  {
    hide ParseOne;
    ParseOneProgress(p, a);
    ParseOneStable(p, a, b);
  }
}
