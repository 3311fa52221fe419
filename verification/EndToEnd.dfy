/**
 A request from the client's hands to the handler and back, over either framing.
 */
module EndToEnd {
  import opened Types
  import opened Bits
  import opened Serialize
  import opened FrameWriters
  import opened Framing
  import opened RoundTrip
  import opened ServerRequests
  import opened ServerSessions
  import opened ClientRequests
  import Reading
  import Crc

  // ----- requests survive the wire -----

  /** The request as it should reach the handler. */
  function ServerView(details: RequestDetails): (r: Request)
    ensures r.Valid() && r.Function() == details.Function()
  {
    match details
    case ReadCoilsOf(r) => Request.ReadCoils(r)
    case ReadDiscreteInputsOf(r) => Request.ReadDiscreteInputs(r)
    case ReadHoldingRegistersOf(r) => Request.ReadHoldingRegisters(r)
    case ReadInputRegistersOf(r) => Request.ReadInputRegisters(r)
    case WriteCoil(x) => Request.WriteSingleCoil(x)
    case WriteRegister(x) => Request.WriteSingleRegister(x)
    case WriteCoils(r, values) => Request.WriteMultipleCoils(r, Zip(r.start, values))
    case WriteRegisters(r, values) => Request.WriteMultipleRegisters(r, Zip(r.start, values))
  }

  lemma WordsParse(v: u16, w: u16, more: seq<u8>)
    ensures var b := Be16(v) + Be16(w) + more;
            |b| == 4 + |more| && FromBe16(b[0], b[1]) == v && FromBe16(b[2], b[3]) == w && b[4..] == more
  {
    var b := Be16(v) + Be16(w) + more;
    assert b[0] == v / 256 && b[1] == v % 256 && b[2] == w / 256 && b[3] == w % 256;
  }

  lemma RangeParses(range: AddressRange, more: seq<u8>)
    requires WellFormed(range)
    ensures ParseRange(EmitRange(range) + more) == Ok(range)
  {
    hide Be16, FromBe16;
    WordsParse(range.start, range.count, more);
  }

  lemma ItemParses(v: u16, w: u16)
    ensures var b := Be16(v) + Be16(w);
            |b| == 4 && FromBe16(b[0], b[1]) == v && FromBe16(b[2], b[3]) == w
  {
    WordsParse(v, w, []);
    assert Be16(v) + Be16(w) + [] == Be16(v) + Be16(w);
  }

  lemma ReadParses(range: AddressRange, limit: u16)
    requires WellFormed(range) && range.count <= limit
    ensures ParseLimited(EmitRange(range), limit) == Ok(range)
  {
    hide ParseRange;
    RangeParses(range, []);
    assert EmitRange(range) + [] == EmitRange(range);
  }

  lemma WriteCoilsParses(range: AddressRange, values: seq<bool>)
    requires WellFormed(range) && |values| == range.count && EmitBools(values).error.None?
    ensures ParseRequest(FunctionCode.WriteMultipleCoils, EmitRange(range) + EmitBools(values).bytes) ==
            Ok(Request.WriteMultipleCoils(range, Zip(range.start, values)))
  {
    hide PackBits, ParseRange, Be16, BitItems, Zip;
    var b := EmitRange(range) + EmitBools(values).bytes;
    BitRoundTrip(range, values);
    RangeParses(range, EmitBools(values).bytes);
    EmitRangeLength(range);
    assert b[5..] == PackBits(values) && PackBits(values)[..|PackBits(values)|] == PackBits(values);
  }

  lemma WriteRegistersParses(range: AddressRange, values: seq<u16>)
    requires WellFormed(range) && |values| == range.count && EmitWords(values).error.None?
    ensures ParseRequest(FunctionCode.WriteMultipleRegisters, EmitRange(range) + EmitWords(values).bytes) ==
            Ok(Request.WriteMultipleRegisters(range, Zip(range.start, values)))
  {
    hide PackWords, ParseRange, Be16, RegisterItems, Zip;
    var b := EmitRange(range) + EmitWords(values).bytes;
    RegisterRoundTrip(range, values);
    RangeParses(range, EmitWords(values).bytes);
    EmitRangeLength(range);
    assert b[5..] == PackWords(values) && PackWords(values)[..|PackWords(values)|] == PackWords(values);
  }

  lemma EmitRangeLength(range: AddressRange)
    ensures |EmitRange(range)| == 4
  {}

  /** The server reads back the request that the client wrote. */
  lemma RequestParses(details: RequestDetails)
    requires Emit(details.Body()).error.None?
    ensures ParseRequest(details.Function(), Emit(details.Body()).bytes) == Ok(ServerView(details))
  {
    hide EmitBools, EmitWords, EmitRange, ParseLimited, Be16, FromBe16, Zip, ParseBits, ParseRegisters, ParseRange;
    match details
    case ReadCoilsOf(r) => ReadParses(r, MAX_READ_COILS_COUNT);
    case ReadDiscreteInputsOf(r) => ReadParses(r, MAX_READ_COILS_COUNT);
    case ReadHoldingRegistersOf(r) => ReadParses(r, MAX_READ_REGISTERS_COUNT);
    case ReadInputRegistersOf(r) => ReadParses(r, MAX_READ_REGISTERS_COUNT);
    case WriteCoil(x) => ItemParses(x.index, CoilToWord(x.value));
    case WriteRegister(x) => ItemParses(x.index, x.value);
    case WriteCoils(range, values) => WriteCoilsParses(range, values);
    case WriteRegisters(range, values) => WriteRegistersParses(range, values);
  }

  // ----- what a direct call would give -----

  function BitsRead(range: AddressRange, getter: Getter<bool>): RequestResult
    requires WellFormed(range)
  {
    ValuesLength(getter, range.start, range.count);
    var (bits, ex) := Values(getter, range.start, range.count);
    if ex.None? then Ok(BitValues(Zip(range.start, bits))) else Err(Exception(ex.value.OnTheWire()))
  }

  function RegistersRead(range: AddressRange, getter: Getter<u16>): RequestResult
    requires WellFormed(range)
  {
    ValuesLength(getter, range.start, range.count);
    var (words, ex) := Values(getter, range.start, range.count);
    if ex.None? then Ok(RegisterValues(Zip(range.start, words))) else Err(Exception(ex.value.OnTheWire()))
  }

  function Written(ex: Option<ExceptionCode>, echo: Success): RequestResult {
    if ex.None? then Ok(echo) else Err(Exception(ex.value.OnTheWire()))
  }

  /**
   The request carried out on the handler without any network: each address read in order up to the
   first failure, or the one write call. Exception codes are compared as the bytes they become.
   */
  function DirectCall<S>(h: Handler<S>, state: S, details: RequestDetails): (S, RequestResult) {
    match details
    case ReadCoilsOf(r) => (state, BitsRead(r, (i: u16) => h.readCoil(state, i)))
    case ReadDiscreteInputsOf(r) => (state, BitsRead(r, (i: u16) => h.readDiscreteInput(state, i)))
    case ReadHoldingRegistersOf(r) => (state, RegistersRead(r, (i: u16) => h.readHoldingRegister(state, i)))
    case ReadInputRegistersOf(r) => (state, RegistersRead(r, (i: u16) => h.readInputRegister(state, i)))
    case WriteCoil(x) =>
      var (s, ex) := h.writeSingleCoil(state, x); (s, Written(ex, CoilEcho(x)))
    case WriteRegister(x) =>
      var (s, ex) := h.writeSingleRegister(state, x); (s, Written(ex, RegisterEcho(x)))
    case WriteCoils(r, values) =>
      var (s, ex) := h.writeMultipleCoils(state, r, Zip(r.start, values)); (s, Written(ex, RangeEcho(r)))
    case WriteRegisters(r, values) =>
      var (s, ex) := h.writeMultipleRegisters(state, r, Zip(r.start, values)); (s, Written(ex, RangeEcho(r)))
  }

  // ----- replies survive the wire -----

  lemma ExceptionDecodes(details: RequestDetails, ex: ExceptionCode)
    ensures HandledResponse(details, [details.Function().AsError(), ex.ToByte()]) ==
            Err(Exception(ex.OnTheWire()))
  {
    assert [details.Function().AsError(), ex.ToByte()][1..] == [ex.ToByte()];
  }

  lemma BitsDecode(range: AddressRange, getter: Getter<bool>)
    requires WellFormed(range) && EmitBits(range, getter).error.None?
    ensures BitsResponse(range, EmitBits(range, getter).bytes) == BitsRead(range, getter)
  {
    hide PackBits;
    ValuesLength(getter, range.start, range.count);
    var (bits, ex) := Values(getter, range.start, range.count);
    BitRoundTrip(range, bits);
    var b := EmitBits(range, getter).bytes;
    assert b[1..] == PackBits(bits) && b[1..][..|b[1..]|] == b[1..];
  }

  lemma RegistersDecode(range: AddressRange, getter: Getter<u16>)
    requires WellFormed(range) && EmitRegisters(range, getter).error.None?
    ensures RegistersResponse(range, EmitRegisters(range, getter).bytes) == RegistersRead(range, getter)
  {
    hide PackWords;
    ValuesLength(getter, range.start, range.count);
    var (words, ex) := Values(getter, range.start, range.count);
    RegisterRoundTrip(range, words);
    var b := EmitRegisters(range, getter).bytes;
    assert b[1..] == PackWords(words) && b[1..][..|b[1..]|] == b[1..];
  }

  /** A reply that is not an exception decodes to the outcome of the direct call. */
  lemma ReplyDecodes<S>(h: Handler<S>, state: S, details: RequestDetails)
    requires Execute(h, state, ServerView(details)).1.None?
    requires Emit(ReplyBody(h, state, ServerView(details))).error.None?
    ensures HandledResponse(details, [details.Function().Value()] + Emit(ReplyBody(h, state, ServerView(details))).bytes)
            == DirectCall(h, state, details).1
  {
    hide EmitBits, EmitRegisters, BitsRead, RegistersRead, BitsResponse, RegistersResponse;
    hide EmitRange, Be16, EchoResponse, RangeResponse, ParseCoil, ParseRegister, ParseRange, Zip;
    var body := ReplyBody(h, state, ServerView(details));
    var payload := [details.Function().Value()] + Emit(body).bytes;
    assert payload[1..] == Emit(body).bytes;
    match details
    case ReadCoilsOf(r) => BitsDecode(r, body.getBit);
    case ReadDiscreteInputsOf(r) => BitsDecode(r, body.getBit);
    case ReadHoldingRegistersOf(r) => RegistersDecode(r, body.getRegister);
    case ReadInputRegistersOf(r) => RegistersDecode(r, body.getRegister);
    case WriteCoils(r, _) => RangeDecodes(r);
    case WriteRegisters(r, _) => RangeDecodes(r);
    case WriteCoil(x) => CoilDecodes(x);
    case WriteRegister(x) => RegisterDecodes(x);
  }

  lemma CoilDecodes(x: Indexed<bool>)
    ensures var b := Be16(x.index) + Be16(CoilToWord(x.value)); EchoResponse(x, ParseCoil(b), b) == Ok(x)
  {
    hide Be16, FromBe16;
    ItemParses(x.index, CoilToWord(x.value));
  }

  lemma RegisterDecodes(x: Indexed<u16>)
    ensures var b := Be16(x.index) + Be16(x.value); EchoResponse(x, ParseRegister(b), b) == Ok(x)
  {
    hide Be16, FromBe16;
    ItemParses(x.index, x.value);
  }

  lemma RangeDecodes(r: AddressRange)
    requires WellFormed(r)
    ensures RangeResponse(r, EmitRange(r)) == Ok(r)
  {
    hide ParseRange;
    RangeParses(r, []);
    EmitRangeLength(r);
    assert EmitRange(r) + [] == EmitRange(r);
  }

  // ----- frames -----

  function ServerParser(format: FormatType): Parser {
    if format.TcpFormat? then Tcp(Begin) else Rtu(Framing.Request, Start)
  }

  function ClientParser(format: FormatType): Parser {
    if format.TcpFormat? then Tcp(Begin) else Rtu(Framing.Response, Start)
  }

  function PduOf(details: RequestDetails): seq<u8> {
    [details.Function().Value()] + Emit(details.Body()).bytes
  }

  function EncodedFrame(format: FormatType, txId: u16, unit: u8, pdu: seq<u8>): seq<u8> {
    if format.TcpFormat? then MbapFrame(txId, unit, pdu) else RtuFrame(unit, pdu)
  }

  function DecodedFrame(format: FormatType, txId: u16, unit: u8, pdu: seq<u8>): Frame {
    if format.TcpFormat? then Frame(UnitId(unit), Some(txId), pdu) else Frame(DestinationOf(unit), None, pdu)
  }

  /** The byte count of a write request is the byte from which the server infers its length. */
  lemma RequestDelimited(details: RequestDetails)
    requires Emit(details.Body()).error.None?
    ensures Delimited(Framing.Request, PduOf(details))
  {
    hide PackBits, PackWords;
    match details
    case WriteCoils(_, values) => PackedLength(values);
    case WriteRegisters(_, values) => PackedWordsLength(values);
    case _ =>
  }

  lemma FormattedRequestIs(format: FormatType, unit: u8, txId: u16, details: RequestDetails)
    requires FormattedRequest(format, unit, txId, details).Ok?
    ensures Emit(details.Body()).error.None?
    ensures FormattedRequest(format, unit, txId, details).value == EncodedFrame(format, txId, unit, PduOf(details))
    ensures format.TcpFormat? ==> |PduOf(details)| <= MAX_ADU_LENGTH
    ensures |EncodedFrame(format, txId, unit, PduOf(details))| == |PduOf(details)| + (if format.TcpFormat? then 7 else 3)
  {
    hide Emit, Crc.Update, Crc.Low, Crc.High;
  }

  /** A PDU within the limit, and delimited where the framing has no length field, crosses the wire. */
  lemma FrameCrosses(format: FormatType, kind: ParserType, txId: u16, unit: u8, pdu: seq<u8>)
    requires |pdu| <= MAX_ADU_LENGTH
    requires format.RtuFormat? ==> Delimited(kind, pdu)
    ensures Carries(if format.TcpFormat? then Tcp(Begin) else Rtu(kind, Start),
                    EncodedFrame(format, txId, unit, pdu), DecodedFrame(format, txId, unit, pdu))
  {
    hide ParseOne, MbapFrame, RtuFrame, Delimited;
    if format.TcpFormat? {
      MbapRoundTrip(txId, unit, pdu);
    } else {
      RtuRoundTripIff(kind, unit, pdu);
    }
  }

  lemma OneFrame(p: Parser, bytes: seq<u8>, frame: Frame)
    requires Carries(p, bytes, frame)
    ensures p.Reset().Valid() && ParseAll(p.Reset(), bytes) == Stream([Got(frame)], p.Reset(), [])
  {
    hide ParseOne, ParseAll;
    FramesInARow(p, [bytes], [frame]);
    assert Concat([bytes]) == bytes by { assert [bytes][1..] == []; assert bytes + [] == bytes; }
    assert Gots([frame]) == [Got(frame)] by { assert [frame][1..] == []; }
  }

  // ----- the exchange -----

  /**
   One transaction: the client formats, the server parses and answers, the client parses and decodes.
   Nothing is returned when no response that carries the transaction's id is decoded.
   */
  function Exchange<S>(format: FormatType, unit: u8, txId: u16, auth: Authorization, h: Handler<S>,
                       devices: Devices<S>, details: RequestDetails): (Devices<S>, Option<RequestResult>)
    requires devices.Valid()
  {
    match FormattedRequest(format, unit, txId, details)
    case Err(e) => (devices, Some(Err(e)))
    case Ok(bytes) =>
      var received := ParseAll(ServerParser(format), bytes).outputs;
      if |received| != 1 || !received[0].Got? || !Formattable(format, HeaderOf(received[0].frame)) then
        (devices, None)
      else
        var (d, answer) := HandledFrame(format, auth, h, devices, received[0].frame);
        if !answer.Reply? then (d, None)
        else (d, Decoded(format, txId, details, answer.bytes))
  }

  function Decoded(format: FormatType, txId: u16, details: RequestDetails, bytes: seq<u8>): Option<RequestResult> {
    var received := ParseAll(ClientParser(format), bytes).outputs;
    if |received| != 1 || !received[0].Got? then None
    else
      var frame := received[0].frame;
      if frame.txId.Some? && frame.txId != Some(txId) then None
      else Some(HandledResponse(details, frame.payload))
  }

  lemma DecodedFrameDecodes(format: FormatType, txId: u16, unit: u8, details: RequestDetails, pdu: seq<u8>)
    requires |pdu| <= MAX_ADU_LENGTH && (format.RtuFormat? ==> Delimited(Framing.Response, pdu))
    ensures Decoded(format, txId, details, EncodedFrame(format, txId, unit, pdu)) == Some(HandledResponse(details, pdu))
  {
    hide ParseAll, ParseOne, EncodedFrame, HandledResponse, Delimited;
    FrameCrosses(format, Framing.Response, txId, unit, pdu);
    OneFrame(ClientParser(format), EncodedFrame(format, txId, unit, pdu), DecodedFrame(format, txId, unit, pdu));
  }

  /** The reply to a request, decoded by the client that sent it, is the outcome of the direct call. */
  lemma ReplyComesBack<S>(format: FormatType, unit: u8, txId: u16, h: Handler<S>, state: S, details: RequestDetails)
    ensures var header := FrameHeader(UnitId(unit), if format.TcpFormat? then Some(txId) else None);
            var (state', reply) := GetReply(format, header, h, state, ServerView(details));
            && reply.Ok?
            && state' == DirectCall(h, state, details).0
            && Decoded(format, txId, details, reply.value) == Some(DirectCall(h, state, details).1)
  {
    hide Emit, Decoded, HandledResponse, Formatted, FormattedException;
    var request, code := ServerView(details), details.Function();
    var header := FrameHeader(UnitId(unit), if format.TcpFormat? then Some(txId) else None);
    var body := ReplyBody(h, state, request);
    ReplyFits(format, header, h, state, request);
    DirectState(h, state, details);
    var ex := Execute(h, state, request).1;
    if ex.Some? {
      ExceptionComesBack(format, unit, txId, details, ex.value);
    } else {
      ReplyBodyFits(h, state, request);
      FormattedBody(format, unit, txId, code, body);
      if Emit(body).error.None? {
        ReplyDelimited(h, state, request);
        ReplyDecodes(h, state, details);
        DecodedFrameDecodes(format, txId, unit, details, [code.Value()] + Emit(body).bytes);
      } else {
        ExceptionComesBack(format, unit, txId, details, Emit(body).error.value.ex);
        FailedRead(h, state, details);
      }
    }
  }

  lemma DirectState<S>(h: Handler<S>, state: S, details: RequestDetails)
    ensures Execute(h, state, ServerView(details)).0 == DirectCall(h, state, details).0
    ensures Execute(h, state, ServerView(details)).1.Some? ==>
              DirectCall(h, state, details).1 ==
              Err(Exception(Execute(h, state, ServerView(details)).1.value.OnTheWire()))
  {
    hide BitsRead, RegistersRead, Zip;
  }

  lemma FailedRead<S>(h: Handler<S>, state: S, details: RequestDetails)
    requires var e := Emit(ReplyBody(h, state, ServerView(details))).error; e.Some? && e.value.Exception?
    ensures DirectCall(h, state, details).1 ==
            Err(Exception(Emit(ReplyBody(h, state, ServerView(details))).error.value.ex.OnTheWire()))
  {
    hide Values, PackBits, PackWords, Zip;
  }

  lemma FormattedBody(format: FormatType, unit: u8, txId: u16, code: FunctionCode, body: Body)
    requires body.Valid() && |Emit(body).bytes| <= 251
    ensures var header := FrameHeader(UnitId(unit), if format.TcpFormat? then Some(txId) else None);
            Formatted(format, header, Valid(code), body) ==
            if Emit(body).error.None? then
              Ok(EncodedFrame(format, txId, unit, [code.Value()] + Emit(body).bytes))
            else
              Err(Emit(body).error.value)
  {
    hide Emit, MbapFrame, RtuFrame;
  }

  lemma ExceptionComesBack(format: FormatType, unit: u8, txId: u16, details: RequestDetails, ex: ExceptionCode)
    ensures var header := FrameHeader(UnitId(unit), if format.TcpFormat? then Some(txId) else None);
            var reply := FormattedException(format, header, ExceptionFor(details.Function()), ex);
            reply.Ok? && Decoded(format, txId, details, reply.value) == Some(Err(Exception(ex.OnTheWire())))
  {
    hide Decoded, HandledResponse, MbapFrame, RtuFrame;
    var pdu := [details.Function().AsError(), ex.ToByte()];
    ExceptionDecodes(details, ex);
    DecodedFrameDecodes(format, txId, unit, details, pdu);
    assert [details.Function().AsError()] + [ex.ToByte()] == pdu;
  }

  /** The request can be sent as it is: it was formatted, and an RTU server accepts its length. */
  predicate Sendable(format: FormatType, unit: u8, txId: u16, details: RequestDetails) {
    var r := FormattedRequest(format, unit, txId, details);
    r.Ok? && (format.RtuFormat? ==> |r.value| <= 256)
  }

  lemma RequestArrives(format: FormatType, unit: u8, txId: u16, details: RequestDetails)
    requires Sendable(format, unit, txId, details)
    ensures ServerParser(format).Valid()
    ensures var bytes := FormattedRequest(format, unit, txId, details).value;
            ParseAll(ServerParser(format), bytes) ==
            Stream([Got(DecodedFrame(format, txId, unit, PduOf(details)))], ServerParser(format), [])
  {
    hide ParseAll, ParseOne, FormattedRequest, EncodedFrame, PduOf, Delimited;
    FormattedRequestIs(format, unit, txId, details);
    RequestDelimited(details);
    FrameCrosses(format, Framing.Request, txId, unit, PduOf(details));
    OneFrame(ServerParser(format), EncodedFrame(format, txId, unit, PduOf(details)),
             DecodedFrame(format, txId, unit, PduOf(details)));
  }

  lemma RequestAccepted(format: FormatType, unit: u8, txId: u16, auth: Authorization, details: RequestDetails)
    requires Sendable(format, unit, txId, details) && auth.Allows(unit, ServerView(details))
    ensures Accepted(auth, DecodedFrame(format, txId, unit, PduOf(details))) == Some(ServerView(details))
  {
    hide Emit, ParseRequest, FormattedRequest, ServerView;
    FormattedRequestIs(format, unit, txId, details);
    RequestParses(details);
    var pdu := PduOf(details);
    assert pdu[0] == details.Function().Value() && pdu[1..] == Emit(details.Body()).bytes;
    assert FunctionCode.Get(details.Function().Value()) == Some(details.Function());
  }

  /** What the server makes of a request that has arrived: the direct call, and a reply that says so. */
  lemma HandledIsDirectCall<S>(format: FormatType, unit: u8, txId: u16, auth: Authorization, h: Handler<S>,
                               devices: Devices<S>, details: RequestDetails)
    requires devices.Valid() && unit in devices.units
    requires Sendable(format, unit, txId, details) && (format.RtuFormat? ==> unit != 0)
    requires auth.Allows(unit, ServerView(details))
    ensures var frame := DecodedFrame(format, txId, unit, PduOf(details));
            Formattable(format, HeaderOf(frame)) &&
            var ref := devices.units[unit];
            var (state, outcome) := DirectCall(h, devices.store[ref], details);
            var (d, answer) := HandledFrame(format, auth, h, devices, frame);
            && d == devices.(store := devices.store[ref := state])
            && answer.Reply?
            && Decoded(format, txId, details, answer.bytes) == Some(outcome)
  {
    hide ParseAll, ParseRequest, GetReply, Decoded, DirectCall, PduOf, FormattedRequest, ServerView;
    RequestAccepted(format, unit, txId, auth, details);
    ReplyComesBack(format, unit, txId, h, devices.store[devices.units[unit]], details);
  }

  /**
   End to end. For every request that can be sent, to a mapped unit, allowed by the authorization,
   over TCP or to a unit other than zero over RTU: the handler is left as the direct call leaves it,
   no other handler changes, and the client's promise gets the outcome of the direct call.
   */
  lemma ExchangeIsDirectCall<S>(format: FormatType, unit: u8, txId: u16, auth: Authorization, h: Handler<S>,
                                devices: Devices<S>, details: RequestDetails)
    requires devices.Valid() && unit in devices.units
    requires Sendable(format, unit, txId, details) && (format.RtuFormat? ==> unit != 0)
    requires auth.Allows(unit, ServerView(details))
    ensures var ref := devices.units[unit];
            var (state, outcome) := DirectCall(h, devices.store[ref], details);
            Exchange(format, unit, txId, auth, h, devices, details) ==
            (devices.(store := devices.store[ref := state]), Some(outcome))
  {
    hide ParseAll, HandledFrame, Decoded, DirectCall, PduOf, FormattedRequest, ServerView;
    RequestArrives(format, unit, txId, details);
    HandledIsDirectCall(format, unit, txId, auth, h, devices, details);
  }

  /** Over RTU, unit zero is a broadcast: it is carried out but never answered. */
  lemma BroadcastIsNeverAnswered<S>(txId: u16, auth: Authorization, h: Handler<S>, devices: Devices<S>,
                                    details: RequestDetails)
    requires devices.Valid() && Sendable(RtuFormat, 0, txId, details) && auth.Allows(0, ServerView(details))
    ensures Exchange(RtuFormat, 0, txId, auth, h, devices, details) ==
            (if ServerView(details).IsWrite() then BroadcastFrom(h, devices, ServerView(details), 0) else devices, None)
  {
    hide ParseAll, ParseRequest, GetReply, Decoded, PduOf, FormattedRequest, ServerView, BroadcastFrom;
    RequestArrives(RtuFormat, 0, txId, details);
    RequestAccepted(RtuFormat, 0, txId, auth, details);
  }

  /** Which requests can be sent: all but the oversized multiple writes, whose limits are not enforced earlier. */
  lemma SendableIff(format: FormatType, unit: u8, txId: u16, details: RequestDetails)
    ensures Sendable(format, unit, txId, details) <==>
            match details
            case WriteCoils(range, _) => range.count <= 1976
            case WriteRegisters(range, _) => range.count <= 123
            case _ => true
  {
    hide Emit, RtuFrame, MbapFrame;
    EmissionSize(details);
    if format.RtuFormat? && FormattedRequest(format, unit, txId, details).Ok? {
      FormattedRequestIs(format, unit, txId, details);
    }
  }

  /** The request is formatted, and the server's parser finds exactly it in the bytes. */
  ghost predicate Arrives(format: FormatType, unit: u8, txId: u16, details: RequestDetails) {
    var r := FormattedRequest(format, unit, txId, details);
    r.Ok? && ServerParser(format).Valid() &&
    ParseAll(ServerParser(format), r.value) ==
    Stream([Got(DecodedFrame(format, txId, unit, PduOf(details)))], ServerParser(format), [])
  }

  /**
   Which requests reach the server: exactly those that are no multiple write of more than 1976 coils or
   123 registers. Of the others, those that an RTU client still formats are refused by the server's parser
   as too long.
   */
  lemma ArrivesIff(format: FormatType, unit: u8, txId: u16, details: RequestDetails)
    ensures Arrives(format, unit, txId, details) <==>
            match details
            case WriteCoils(range, _) => range.count <= 1976
            case WriteRegisters(range, _) => range.count <= 123
            case _ => true
    ensures ServerParser(format).Valid()
    ensures var r := FormattedRequest(format, unit, txId, details);
            r.Ok? && !Arrives(format, unit, txId, details) ==>
              && format.RtuFormat?
              && var outputs := ParseAll(ServerParser(format), r.value).outputs;
                 outputs != [] && outputs[0] == Bad(FrameLengthTooBig(|PduOf(details)|, MAX_ADU_LENGTH))
  {
    hide ParseAll, ParseOne, FormattedRequest, EncodedFrame, DecodedFrame, PduOf;
    SendableIff(format, unit, txId, details);
    var r := FormattedRequest(format, unit, txId, details);
    if Sendable(format, unit, txId, details) {
      RequestArrives(format, unit, txId, details);
    } else if r.Ok? {
      TooLongIsRefused(format, unit, txId, details);
    }
  }

  lemma TooLongIsRefused(format: FormatType, unit: u8, txId: u16, details: RequestDetails)
    requires FormattedRequest(format, unit, txId, details).Ok? && !Sendable(format, unit, txId, details)
    ensures format.RtuFormat? && ServerParser(format).Valid()
    ensures var outputs := ParseAll(ServerParser(format), FormattedRequest(format, unit, txId, details).value).outputs;
            outputs != [] && outputs[0] == Bad(FrameLengthTooBig(|PduOf(details)|, MAX_ADU_LENGTH))
  {
    hide ParseOne, FormattedRequest, RtuFrame, MbapFrame, PduOf, Delimited;
    FormattedRequestIs(format, unit, txId, details);
    RequestDelimited(details);
    RtuRoundTripIff(Framing.Request, unit, PduOf(details));
    ParseOneProgress(ServerParser(format), RtuFrame(unit, PduOf(details)));
  }

  lemma EmissionSize(details: RequestDetails)
    ensures var e := Emit(details.Body());
            match details
            case WriteCoils(range, _) =>
              if range.count <= 2040 then e.error.None? && |e.bytes| == 5 + NumBytes(range.count) else e.error.Some?
            case WriteRegisters(range, _) =>
              if range.count <= 127 then e.error.None? && |e.bytes| == 5 + 2 * range.count else e.error.Some?
            case _ => e.error.None? && |e.bytes| == 4
  {
    hide PackBits, PackWords, Be16;
    match details
    case WriteCoils(range, values) => PackedLength(values); EmitRangeLength(range);
    case WriteRegisters(range, values) => PackedWordsLength(values); EmitRangeLength(range);
    case WriteCoil(x) => ItemParses(x.index, CoilToWord(x.value));
    case WriteRegister(x) => ItemParses(x.index, x.value);
    case _ => EmitRangeLength(details.range);
  }
}
