/**
 A server session: dispatch of one frame to the handlers, and what a frame cannot do.
 */
module ServerSessions {
  import opened Types
  import opened Serialize
  import opened FrameWriters
  import opened ServerRequests
  import Framing
  import RoundTrip
  import Bits
  import Crc

  /** Handlers are shared: the map takes a unit to a reference, and two units may hold the same one. */
  type Ref = nat

  datatype Devices<S> = Devices(units: map<u8, Ref>, store: map<Ref, S>)
  {
    ghost predicate Valid() { forall u | u in units :: units[u] in store }
  }

  datatype Authorization = NoAuthorization | AuthorizedBy(allow: (u8, Request) -> bool)
  {
    predicate Allows(unit: u8, request: Request) {
      NoAuthorization? || allow(unit, request)
    }
  }

  /** What is written to the peer for one frame. */
  datatype Answer = Silent | Reply(bytes: seq<u8>) | Broken(error: RequestError)

  function AnswerOf(r: Result<seq<u8>, RequestError>): Answer {
    match r
    case Ok(bytes) => Reply(bytes)
    case Err(e) => Broken(e)
  }

  function HeaderOf(frame: Frame): FrameHeader { FrameHeader(frame.destination, frame.txId) }

  function ErrorReply(format: FormatType, header: FrameHeader, field: FunctionField, ex: ExceptionCode): Answer
    requires Formattable(format, header)
  {
    if header.destination.Broadcast? then Silent
    else AnswerOf(FormattedException(format, header, field, ex))
  }

  /** Execute a write on the handler of every mapped unit from `unit` on, in ascending order. */
  function BroadcastFrom<S>(h: Handler<S>, devices: Devices<S>, request: Request, unit: nat): (d: Devices<S>)
    requires devices.Valid() && unit <= 256
    ensures d.Valid() && d.units == devices.units && d.store.Keys == devices.store.Keys
    decreases 256 - unit
  {
    if unit == 256 then devices
    else if unit in devices.units then
      var ref := devices.units[unit];
      var state := Execute(h, devices.store[ref], request).0;
      BroadcastFrom(h, devices.(store := devices.store[ref := state]), request, unit + 1)
    else
      BroadcastFrom(h, devices, request, unit + 1)
  }

  /** `handle_frame` */
  function HandledFrame<S>(format: FormatType, auth: Authorization, h: Handler<S>, devices: Devices<S>, frame: Frame)
    : (Devices<S>, Answer)
    requires Formattable(format, HeaderOf(frame)) && devices.Valid()
  {
    var header := HeaderOf(frame);
    if frame.payload == [] then (devices, Silent) else
    match FunctionCode.Get(frame.payload[0])
    case None => (devices, ErrorReply(format, header, UnknownFunction(frame.payload[0]), IllegalFunction))
    case Some(code) =>
      match ParseRequest(code, frame.payload[1..])
      case Err(_) => (devices, ErrorReply(format, header, ExceptionFor(code), IllegalDataValue))
      case Ok(request) =>
        ParsedRequestIsValid(code, frame.payload[1..]);
        if !auth.Allows(frame.destination.Value(), request) then
          (devices, ErrorReply(format, header, ExceptionFor(request.Function()), IllegalFunction))
        else
          match frame.destination
          case UnitId(unit) =>
            if unit !in devices.units then (devices, Silent)
            else
              var ref := devices.units[unit];
              var (state, reply) := GetReply(format, header, h, devices.store[ref], request);
              (devices.(store := devices.store[ref := state]), AnswerOf(reply))
          case Broadcast =>
            (if request.IsWrite() then BroadcastFrom(h, devices, request, 0) else devices, Silent)
  }

  // ----- what a frame cannot do -----

  /** The request that a frame carries, if it is one that the session goes on to execute. */
  function Accepted(auth: Authorization, frame: Frame): Option<Request> {
    if frame.payload == [] then None else
    match FunctionCode.Get(frame.payload[0])
    case None => None
    case Some(code) =>
      match ParseRequest(code, frame.payload[1..])
      case Err(_) => None
      case Ok(request) => if auth.Allows(frame.destination.Value(), request) then Some(request) else None
  }

  /** Whatever cannot be parsed, is denied, is not for a mapped unit, or only reads, changes no handler. */
  lemma NothingElseChanges<S>(format: FormatType, auth: Authorization, h: Handler<S>, devices: Devices<S>, frame: Frame)
    requires Formattable(format, HeaderOf(frame)) && devices.Valid()
    requires var request := Accepted(auth, frame);
             || request.None?
             || !request.value.IsWrite()
             || (frame.destination.UnitId? && frame.destination.unit !in devices.units)
    ensures HandledFrame(format, auth, h, devices, frame).0 == devices
  {
    hide ParseRequest, FormattedException, FormattedReply;
    var request := Accepted(auth, frame);
    if request.Some? && frame.destination.UnitId? && frame.destination.unit in devices.units {
      var ref := devices.units[frame.destination.unit];
      assert devices.store[ref := devices.store[ref]] == devices.store;
    }
  }

  /** A unicast write reaches the handler of its unit as a direct call would, and no other. */
  lemma UnicastWrite<S>(format: FormatType, auth: Authorization, h: Handler<S>, devices: Devices<S>, frame: Frame)
    requires Formattable(format, HeaderOf(frame)) && devices.Valid()
    requires Accepted(auth, frame).Some?
    requires frame.destination.UnitId? && frame.destination.unit in devices.units
    ensures var ref := devices.units[frame.destination.unit];
            var d := HandledFrame(format, auth, h, devices, frame).0;
            && d.units == devices.units
            && d.store.Keys == devices.store.Keys
            && d.store[ref] == Execute(h, devices.store[ref], Accepted(auth, frame).value).0
            && forall other | other in devices.store && other != ref :: d.store[other] == devices.store[other]
  {
    hide ParseRequest, FormattedException, FormattedReply, Execute;
  }

  /** How many of the units from `unit` on share the handler `ref`. */
  function Mappings(units: map<u8, Ref>, ref: Ref, unit: nat): nat
    requires unit <= 256
    decreases 256 - unit
  {
    if unit == 256 then 0
    else (if unit in units && units[unit] == ref then 1 else 0) + Mappings(units, ref, unit + 1)
  }

  function ExecuteTimes<S>(h: Handler<S>, state: S, request: Request, n: nat): S {
    if n == 0 then state else ExecuteTimes(h, Execute(h, state, request).0, request, n - 1)
  }

  /** A broadcast write executes on a handler once for every unit that maps to it. */
  lemma {:induction false} BroadcastReaches<S>(h: Handler<S>, devices: Devices<S>, request: Request, unit: nat, ref: Ref)
    requires devices.Valid() && unit <= 256 && ref in devices.store
    ensures BroadcastFrom(h, devices, request, unit).store[ref] ==
            ExecuteTimes(h, devices.store[ref], request, Mappings(devices.units, ref, unit))
    decreases 256 - unit
  {
    hide Execute;
    if unit < 256 {
      if unit in devices.units {
        var r := devices.units[unit];
        var d := devices.(store := devices.store[r := Execute(h, devices.store[r], request).0]);
        BroadcastReaches(h, d, request, unit + 1, ref);
      } else {
        BroadcastReaches(h, devices, request, unit + 1, ref);
      }
    }
  }

  ghost predicate Unshared(units: map<u8, Ref>) {
    forall u, v | u in units && v in units && u != v :: units[u] != units[v]
  }

  lemma {:induction false} MappedOnce(units: map<u8, Ref>, ref: Ref, unit: nat)
    requires unit <= 256
    ensures Mappings(units, ref, unit) == 0 <==> forall u | u in units && units[u] == ref :: u < unit
    ensures Unshared(units) ==> Mappings(units, ref, unit) <= 1
    ensures Mappings(units, ref, unit) > 1 ==> !Unshared(units)
    decreases 256 - unit
  {
    if unit < 256 {
      MappedOnce(units, ref, unit + 1);
    }
  }

  /**
   A broadcast write that is accepted reaches every mapped handler, exactly once unless it is mapped
   under several units, leaves every other handler alone, and is not answered.
   */
  lemma BroadcastWrite<S>(format: FormatType, auth: Authorization, h: Handler<S>, devices: Devices<S>, frame: Frame, ref: Ref)
    requires Formattable(format, HeaderOf(frame)) && devices.Valid()
    requires frame.destination.Broadcast?
    requires Accepted(auth, frame).Some? && Accepted(auth, frame).value.IsWrite()
    requires ref in devices.store
    ensures var request := Accepted(auth, frame).value;
            var (d, answer) := HandledFrame(format, auth, h, devices, frame);
            && answer == Silent
            && d.units == devices.units && d.store.Keys == devices.store.Keys
            && d.store[ref] == ExecuteTimes(h, devices.store[ref], request, Mappings(devices.units, ref, 0))
            && (ref !in devices.units.Values ==> d.store[ref] == devices.store[ref])
            && (ref in devices.units.Values && Unshared(devices.units) ==>
                  d.store[ref] == Execute(h, devices.store[ref], request).0)
  {
    hide ParseRequest, FormattedException, FormattedReply, Execute;
    var request := Accepted(auth, frame).value;
    BroadcastReaches(h, devices, request, 0, ref);
    MappedOnce(devices.units, ref, 0);
    if ref in devices.units.Values {
      var u :| u in devices.units && devices.units[u] == ref;
    }
    assert ExecuteTimes(h, devices.store[ref], request, 1) == Execute(h, devices.store[ref], request).0;
  }

  // ----- replies -----

  /** The frame that carries `pdu` back in answer to `frame`. */
  function Enclosed(format: FormatType, frame: Frame, pdu: seq<u8>): seq<u8>
    requires Formattable(format, HeaderOf(frame))
  {
    match format
    case TcpFormat => MbapFrame(frame.txId.value, frame.destination.Value(), pdu)
    case RtuFormat => RtuFrame(frame.destination.Value(), pdu)
  }

  /**
   A reply to `frame`: its address and transaction id, its function code, plain or marked, and a PDU
   whose length an RTU client can infer.
   */
  ghost predicate Answers(format: FormatType, frame: Frame, bytes: seq<u8>)
    requires Formattable(format, HeaderOf(frame))
  {
    frame.payload != [] && exists pdu: seq<u8> ::
      && bytes == Enclosed(format, frame, pdu)
      && 2 <= |pdu| <= MAX_ADU_LENGTH
      && RoundTrip.Delimited(Framing.Response, pdu)
      && (pdu[0] == frame.payload[0] || pdu[0] == SetTopBit(frame.payload[0]))
  }

  lemma FormattedAnswers(format: FormatType, frame: Frame, field: FunctionField, body: Body)
    requires Formattable(format, HeaderOf(frame)) && body.Valid()
    requires Formatted(format, HeaderOf(frame), field, body).Ok? && 1 <= |Emit(body).bytes| <= 252
    requires RoundTrip.Delimited(Framing.Response, [field.Value()] + Emit(body).bytes)
    requires frame.payload != []
    requires field.Value() == frame.payload[0] || field.Value() == SetTopBit(frame.payload[0])
    ensures Answers(format, frame, Formatted(format, HeaderOf(frame), field, body).value)
  {
    hide Emit, MbapFrame, RtuFrame, RoundTrip.Delimited;
    var pdu := [field.Value()] + Emit(body).bytes;
    assert Formatted(format, HeaderOf(frame), field, body).value == Enclosed(format, frame, pdu);
  }

  /** The byte that a client uses to infer the length of a reply is the byte count that was written. */
  lemma ReplyDelimited<S>(h: Handler<S>, state: S, request: Request)
    requires request.Valid() && Emit(ReplyBody(h, state, request)).error.None?
    ensures RoundTrip.Delimited(Framing.Response,
                                [request.Function().Value()] + Emit(ReplyBody(h, state, request)).bytes)
  {
    hide Bits.PackBits, Bits.PackWords, Values;
    var body := ReplyBody(h, state, request);
    if body.BitReply? {
      var (bits, ex) := Values(body.getBit, body.bits.start, body.bits.count);
      ValuesLength(body.getBit, body.bits.start, body.bits.count);
      Bits.PackedLength(bits);
    } else if body.RegisterReply? {
      var (words, ex) := Values(body.getRegister, body.registers.start, body.registers.count);
      ValuesLength(body.getRegister, body.registers.start, body.registers.count);
      Bits.PackedWordsLength(words);
    }
  }

  /** Every answer is a well-formed reply to its frame; a broadcast is never answered. */
  lemma ReplyMatchesRequest<S>(format: FormatType, auth: Authorization, h: Handler<S>, devices: Devices<S>, frame: Frame)
    requires Formattable(format, HeaderOf(frame)) && devices.Valid()
    ensures var answer := HandledFrame(format, auth, h, devices, frame).1;
            && !answer.Broken?
            && (answer.Reply? ==> frame.destination.UnitId? && Answers(format, frame, answer.bytes))
  {
    hide ParseRequest, ReplyBody, FormattedException, FormattedReply, GetReply, Answers, BroadcastFrom;
    if frame.payload != [] {
      var b := frame.payload[0];
      var code := FunctionCode.Get(b);
      if code.None? {
        ExceptionAnswers(format, frame, UnknownFunction(b), IllegalFunction);
      } else {
        ExceptionAnswers(format, frame, ExceptionFor(code.value), IllegalDataValue);
        ExceptionAnswers(format, frame, ExceptionFor(code.value), IllegalFunction);
        var parsed := ParseRequest(code.value, frame.payload[1..]);
        if parsed.Ok? {
          ParsedRequestIsValid(code.value, frame.payload[1..]);
          if frame.destination.UnitId? && frame.destination.unit in devices.units {
            GetReplyAnswers(format, frame, h, devices.store[devices.units[frame.destination.unit]], parsed.value);
          }
        }
      }
    }
  }

  lemma FormattedEmission(format: FormatType, header: FrameHeader, field: FunctionField, body: Body)
    requires Formattable(format, header) && body.Valid() && Formatted(format, header, field, body).Ok?
    ensures Emit(body).error.None?
  {
    hide Emit, MbapFrame, RtuFrame;
  }

  lemma DelimitedIsNonEmpty(bytes: seq<u8>, code: u8)
    requires RoundTrip.Delimited(Framing.Response, [code] + bytes)
    ensures bytes != []
  {}

  lemma ExceptionAnswers(format: FormatType, frame: Frame, field: FunctionField, ex: ExceptionCode)
    requires Formattable(format, HeaderOf(frame)) && frame.payload != []
    requires !field.Valid? && field.Value() == SetTopBit(frame.payload[0])
    ensures var r := FormattedException(format, HeaderOf(frame), field, ex);
            r.Ok? && Answers(format, frame, r.value)
  {
    ExceptionFits(format, HeaderOf(frame), field, ex);
    FormattedAnswers(format, frame, field, ExceptionBody(ex));
  }

  lemma GetReplyAnswers<S>(format: FormatType, frame: Frame, h: Handler<S>, state: S, request: Request)
    requires Formattable(format, HeaderOf(frame)) && request.Valid()
    requires frame.payload != [] && request.Function().Value() == frame.payload[0]
    ensures var r := GetReply(format, HeaderOf(frame), h, state, request).1;
            r.Ok? && Answers(format, frame, r.value)
  {
    hide Emit, ReplyBody, Execute, Formatted;
    var header, code, body := HeaderOf(frame), request.Function(), ReplyBody(h, state, request);
    ReplyFits(format, header, h, state, request);
    ReplyBodyFits(h, state, request);
    var ex := Execute(h, state, request).1;
    if ex.Some? {
      ExceptionAnswers(format, frame, ExceptionFor(code), ex.value);
    } else {
      var r := Formatted(format, header, Valid(code), body);
      if r.Ok? {
        FormattedEmission(format, header, Valid(code), body);
        ReplyDelimited(h, state, request);
        DelimitedIsNonEmpty(Emit(body).bytes, code.Value());
        FormattedAnswers(format, frame, Valid(code), body);
      } else if r.error.Exception? {
        ExceptionAnswers(format, frame, ExceptionFor(code), r.error.ex);
      }
    }
  }

  // ----- exception replies -----

  /** The exception that the handler itself raises: that of the write, or of the first address that fails to read. */
  function HandlerException<S>(h: Handler<S>, state: S, request: Request): Option<ExceptionCode>
    requires request.Valid()
  {
    match request
    case ReadCoils(r) => Values((i: u16) => h.readCoil(state, i), r.start, r.count).1
    case ReadDiscreteInputs(r) => Values((i: u16) => h.readDiscreteInput(state, i), r.start, r.count).1
    case ReadHoldingRegisters(r) => Values((i: u16) => h.readHoldingRegister(state, i), r.start, r.count).1
    case ReadInputRegisters(r) => Values((i: u16) => h.readInputRegister(state, i), r.start, r.count).1
    case _ => Execute(h, state, request).1
  }

  /** The request that a frame carries, whoever may send it. */
  function Carried(frame: Frame): Option<Request> { Accepted(NoAuthorization, frame) }

  /** The exception byte with which a unicast frame is answered, if it is answered with one. */
  function Refusal<S>(auth: Authorization, h: Handler<S>, devices: Devices<S>, frame: Frame): Option<u8>
    requires devices.Valid() && frame.destination.UnitId? && frame.payload != []
  {
    if FunctionCode.Get(frame.payload[0]).None? then Some(IllegalFunction.ToByte())
    else if Carried(frame).None? then Some(IllegalDataValue.ToByte())
    else if Accepted(auth, frame).None? then Some(IllegalFunction.ToByte())
    else if frame.destination.unit !in devices.units then None
    else
      AcceptedIsValid(auth, frame);
      var state := devices.store[devices.units[frame.destination.unit]];
      match HandlerException(h, state, Accepted(auth, frame).value)
      case None => None
      case Some(ex) => Some(ex.ToByte())
  }

  lemma AcceptedIsValid(auth: Authorization, frame: Frame)
    requires Accepted(auth, frame).Some?
    ensures Accepted(auth, frame).value.Valid()
    ensures Accepted(auth, frame).value.Function().Value() == frame.payload[0]
    ensures Carried(frame) == Accepted(auth, frame)
  {
    hide ParseRequest;
    var code := FunctionCode.Get(frame.payload[0]).value;
    ParsedRequestIsValid(code, frame.payload[1..]);
  }

  /** The PDU of an exception reply to `frame`. */
  function ExceptionPdu(frame: Frame, b: u8): seq<u8>
    requires frame.payload != []
  {
    [SetTopBit(frame.payload[0]), b]
  }

  lemma FormattedExceptionIs(format: FormatType, frame: Frame, field: FunctionField, ex: ExceptionCode)
    requires Formattable(format, HeaderOf(frame)) && frame.payload != []
    requires !field.Valid? && field.Value() == SetTopBit(frame.payload[0])
    ensures FormattedException(format, HeaderOf(frame), field, ex) ==
            Ok(Enclosed(format, frame, ExceptionPdu(frame, ex.ToByte())))
  {
    hide MbapFrame, RtuFrame;
    assert [field.Value()] + [ex.ToByte()] == ExceptionPdu(frame, ex.ToByte());
  }

  /** A reply body fails with exactly the handler's exception. */
  lemma BodyError<S>(h: Handler<S>, state: S, request: Request)
    requires request.Valid()
    ensures Emit(ReplyBody(h, state, request)).error ==
            (if !request.IsWrite() && HandlerException(h, state, request).Some? then
               Some(Exception(HandlerException(h, state, request).value))
             else None)
  {
    hide Bits.PackBits, Bits.PackWords, Values, Be16;
  }

  /** `get_reply` is an exception reply with the handler's exception, or a plain reply. */
  lemma GetReplyIs<S>(format: FormatType, frame: Frame, h: Handler<S>, state: S, request: Request)
    requires Formattable(format, HeaderOf(frame)) && request.Valid()
    requires frame.payload != [] && request.Function().Value() == frame.payload[0]
    ensures var r := GetReply(format, HeaderOf(frame), h, state, request).1;
            var ex := HandlerException(h, state, request);
            if ex.Some? then
              r == Ok(Enclosed(format, frame, ExceptionPdu(frame, ex.value.ToByte())))
            else
              r == Ok(Enclosed(format, frame, [frame.payload[0]] + Emit(ReplyBody(h, state, request)).bytes))
  {
    hide Emit, ReplyBody, Formatted, FormattedException, Enclosed, Values, ExceptionPdu;
    BodyError(h, state, request);
    ReplyBodyFits(h, state, request);
    var code, body := request.Function(), ReplyBody(h, state, request);
    FormattedBodyIs(format, frame, code, body);
    var ex := HandlerException(h, state, request);
    if ex.Some? {
      FormattedExceptionIs(format, frame, ExceptionFor(code), ex.value);
    }
  }

  lemma FormattedBodyIs(format: FormatType, frame: Frame, code: FunctionCode, body: Body)
    requires Formattable(format, HeaderOf(frame)) && body.Valid() && |Emit(body).bytes| <= 251
    ensures Formatted(format, HeaderOf(frame), Valid(code), body) ==
            if Emit(body).error.Some? then Err(Emit(body).error.value)
            else Ok(Enclosed(format, frame, [code.Value()] + Emit(body).bytes))
  {
    hide Emit, MbapFrame, RtuFrame;
  }

  /** The first two bytes of a PDU can be read off its frame. */
  lemma EnclosedHead(format: FormatType, frame: Frame, pdu: seq<u8>, pdu': seq<u8>)
    requires Formattable(format, HeaderOf(frame)) && |pdu| >= 1 && |pdu'| >= 2
    requires Enclosed(format, frame, pdu) == Enclosed(format, frame, pdu')
    ensures pdu[0] == pdu'[0] && (|pdu| >= 2 ==> pdu[1] == pdu'[1])
  {
    hide Crc.CrcBytes;
    var n := if format.TcpFormat? then 7 else 1;
    var f, f' := Enclosed(format, frame, pdu), Enclosed(format, frame, pdu');
    assert f[n] == pdu[0] && f'[n] == pdu'[0];
    assert |pdu| >= 2 ==> f[n + 1] == pdu[1];
    assert f'[n + 1] == pdu'[1];
  }

  /** A unicast frame is answered with exactly the exception of `Refusal`, or not with an exception. */
  lemma ExceptionReplyIff<S>(format: FormatType, auth: Authorization, h: Handler<S>, devices: Devices<S>, frame: Frame, b: u8)
    requires Formattable(format, HeaderOf(frame)) && devices.Valid() && frame.destination.UnitId? && frame.payload != []
    ensures (HandledFrame(format, auth, h, devices, frame).1 == Reply(Enclosed(format, frame, ExceptionPdu(frame, b)))) <==>
            (Refusal(auth, h, devices, frame) == Some(b))
  {
    hide ParseRequest, GetReply, FormattedException, Enclosed, HandlerException, Emit, ReplyBody;
    var code := FunctionCode.Get(frame.payload[0]);
    if code.None? {
      FormattedExceptionIs(format, frame, UnknownFunction(frame.payload[0]), IllegalFunction);
      SameException(format, frame, IllegalFunction.ToByte(), b);
    } else {
      FormattedExceptionIs(format, frame, ExceptionFor(code.value), IllegalDataValue);
      SameException(format, frame, IllegalDataValue.ToByte(), b);
      FormattedExceptionIs(format, frame, ExceptionFor(code.value), IllegalFunction);
      SameException(format, frame, IllegalFunction.ToByte(), b);
      if Carried(frame).Some? {
        AcceptedIsValid(NoAuthorization, frame);
        if frame.destination.unit in devices.units {
          CarriedOut(format, h, devices.store[devices.units[frame.destination.unit]], frame, b);
        }
      }
    }
  }

  lemma SameException(format: FormatType, frame: Frame, b: u8, b': u8)
    requires Formattable(format, HeaderOf(frame)) && frame.payload != []
    ensures Enclosed(format, frame, ExceptionPdu(frame, b)) == Enclosed(format, frame, ExceptionPdu(frame, b')) <==> b == b'
  {
    hide Enclosed;
    if Enclosed(format, frame, ExceptionPdu(frame, b)) == Enclosed(format, frame, ExceptionPdu(frame, b')) {
      EnclosedHead(format, frame, ExceptionPdu(frame, b), ExceptionPdu(frame, b'));
    }
  }

  lemma CarriedOut<S>(format: FormatType, h: Handler<S>, state: S, frame: Frame, b: u8)
    requires Formattable(format, HeaderOf(frame)) && frame.payload != []
    requires Carried(frame).Some? && Carried(frame).value.Valid()
    requires Carried(frame).value.Function().Value() == frame.payload[0]
    ensures var ex := HandlerException(h, state, Carried(frame).value);
            (GetReply(format, HeaderOf(frame), h, state, Carried(frame).value).1 ==
             Ok(Enclosed(format, frame, ExceptionPdu(frame, b)))) <==> (ex.Some? && ex.value.ToByte() == b)
  {
    hide GetReply, Enclosed, HandlerException, Emit, ReplyBody, Carried;
    var request := Carried(frame).value;
    GetReplyIs(format, frame, h, state, request);
    var ex := HandlerException(h, state, request);
    if ex.Some? {
      SameException(format, frame, ex.value.ToByte(), b);
    } else {
      var pdu := [frame.payload[0]] + Emit(ReplyBody(h, state, request)).bytes;
      if Enclosed(format, frame, pdu) == Enclosed(format, frame, ExceptionPdu(frame, b)) {
        EnclosedHead(format, frame, pdu, ExceptionPdu(frame, b));
        assert false;
      }
    }
  }

  /**
   When a master sees `IllegalDataAddress`: exactly when the handler of a mapped unit was asked, by a
   request that parses and is allowed, and its own exception has that code. No check before the handler
   ever answers so.
   */
  lemma IllegalDataAddressIff<S>(format: FormatType, auth: Authorization, h: Handler<S>, devices: Devices<S>, frame: Frame)
    requires Formattable(format, HeaderOf(frame)) && devices.Valid() && frame.destination.UnitId? && frame.payload != []
    ensures Accepted(auth, frame).Some? ==> Accepted(auth, frame).value.Valid()
    ensures (HandledFrame(format, auth, h, devices, frame).1 ==
             Reply(Enclosed(format, frame, ExceptionPdu(frame, IllegalDataAddress.ToByte())))) <==>
            (&& Accepted(auth, frame).Some?
             && frame.destination.unit in devices.units
             && var ex := HandlerException(h, devices.store[devices.units[frame.destination.unit]], Accepted(auth, frame).value);
                ex.Some? && ex.value.ToByte() == IllegalDataAddress.ToByte())
  {
    hide HandledFrame, ParseRequest, Enclosed, HandlerException;
    if Accepted(auth, frame).Some? {
      AcceptedIsValid(auth, frame);
    }
    ExceptionReplyIff(format, auth, h, devices, frame, IllegalDataAddress.ToByte());
  }

  /**
   A range that leaves the address space is answered with `IllegalDataValue`, whatever the handler, the
   authorization and even the mapping, and not with the `IllegalDataAddress` that the documentation of the
   handler promises.
   */
  lemma OverflowIsIllegalDataValue<S>(format: FormatType, auth: Authorization, h: Handler<S>, devices: Devices<S>,
                                      frame: Frame)
    requires Formattable(format, HeaderOf(frame)) && devices.Valid() && frame.destination.UnitId?
    requires |frame.payload| >= 5 && frame.payload[0] in {1, 2, 3, 4, 15, 16}
    requires FromBe16(frame.payload[1], frame.payload[2]) + FromBe16(frame.payload[3], frame.payload[4]) > 0x1_0000
    ensures HandledFrame(format, auth, h, devices, frame).1 ==
            Reply(Enclosed(format, frame, ExceptionPdu(frame, IllegalDataValue.ToByte())))
    ensures HandledFrame(format, auth, h, devices, frame).0 == devices
  {
    hide Enclosed, FormattedException;
    var code := FunctionCode.Get(frame.payload[0]).value;
    RangeOverflows(code, frame.payload[1..]);
    hide ParseRequest;
    FormattedExceptionIs(format, frame, ExceptionFor(code), IllegalDataValue);
  }

  lemma RangeOverflows(code: FunctionCode, b: seq<u8>)
    requires |b| >= 4 && !code.WriteSingleCoil? && !code.WriteSingleRegister?
    requires FromBe16(b[0], b[1]) + FromBe16(b[2], b[3]) > 0x1_0000
    ensures ParseRequest(code, b).Err?
  {
    hide FromBe16;
    assert ParseRange(b).Err?;
  }

  // ----- the authorization gate -----

  /**
   The gate, for every authorization handler and every unicast frame with a well-formed request. Denied, the
   request is answered with `IllegalFunction` and changes nothing, whether or not the unit is mapped; allowed,
   it is handled as if there were no authorization.
   */
  lemma UnicastGate<S>(format: FormatType, allow: (u8, Request) -> bool, h: Handler<S>, devices: Devices<S>,
                       frame: Frame)
    requires Formattable(format, HeaderOf(frame)) && devices.Valid()
    requires frame.destination.UnitId? && Carried(frame).Some?
    ensures HandledFrame(format, AuthorizedBy(allow), h, devices, frame) ==
            if allow(frame.destination.unit, Carried(frame).value)
            then HandledFrame(format, NoAuthorization, h, devices, frame)
            else (devices, Reply(Enclosed(format, frame, ExceptionPdu(frame, IllegalFunction.ToByte()))))
  {
    hide ParseRequest, GetReply, FormattedException, Enclosed;
    AcceptedIsValid(NoAuthorization, frame);
    FormattedExceptionIs(format, frame, ExceptionFor(Carried(frame).value.Function()), IllegalFunction);
  }

  /** The gate for a broadcast, which is asked about unit zero: denied, it is silent and changes nothing. */
  lemma BroadcastGate<S>(format: FormatType, allow: (u8, Request) -> bool, h: Handler<S>, devices: Devices<S>,
                         frame: Frame)
    requires Formattable(format, HeaderOf(frame)) && devices.Valid()
    requires frame.destination.Broadcast? && Carried(frame).Some?
    ensures HandledFrame(format, AuthorizedBy(allow), h, devices, frame) ==
            if allow(0, Carried(frame).value) then HandledFrame(format, NoAuthorization, h, devices, frame)
            else (devices, Silent)
  {
    hide ParseRequest, GetReply, FormattedException, BroadcastFrom;
  }

  /** Nobody is asked about a frame without a well-formed request. */
  lemma MalformedIsNotAsked<S>(format: FormatType, auth: Authorization, h: Handler<S>, devices: Devices<S>, frame: Frame)
    requires Formattable(format, HeaderOf(frame)) && devices.Valid() && Carried(frame).None?
    ensures HandledFrame(format, auth, h, devices, frame) == HandledFrame(format, NoAuthorization, h, devices, frame)
  {
    hide ParseRequest, GetReply, FormattedException, BroadcastFrom;
  }

  /** Nothing is sent exactly for an empty frame, for a broadcast, and for an accepted request to a unit that is not mapped. */
  lemma SilentIff<S>(format: FormatType, auth: Authorization, h: Handler<S>, devices: Devices<S>, frame: Frame)
    requires Formattable(format, HeaderOf(frame)) && devices.Valid()
    ensures HandledFrame(format, auth, h, devices, frame).1 == Silent <==>
            || frame.payload == []
            || frame.destination.Broadcast?
            || (Accepted(auth, frame).Some? && frame.destination.unit !in devices.units)
  {
    hide ParseRequest, GetReply, FormattedException, BroadcastFrom;
  }

  /** The writes are the requests with function codes 5, 6, 15 and 16. */
  lemma WritesByFunction(f: FunctionCode, b: seq<u8>)
    requires ParseRequest(f, b).Ok?
    ensures ParseRequest(f, b).value.IsWrite() <==> f.Value() in {5, 6, 15, 16}
  {
    ParsedRequestIsValid(f, b);
    hide ParseRequest;
  }

  // ----- the session object -----

  class SessionTask<S> {
    const auth: Authorization
    const handler: Handler<S>
    const writer: FrameWriter
    var devices: Devices<S>
    var sent: seq<seq<u8>>

    ghost predicate Valid()
      reads this
    {
      devices.Valid() && writer.buffer.Length == MAX_FRAME_LENGTH
    }

    constructor (format: FormatType, auth: Authorization, handler: Handler<S>, devices: Devices<S>)
      requires devices.Valid()
      ensures Valid() && writer.format == format && this.devices == devices && sent == []
      ensures this.auth == auth && this.handler == handler && fresh(writer) && fresh(writer.buffer)
    {
      this.auth, this.handler, this.devices, sent := auth, handler, devices, [];
      writer := new FrameWriter(format);
    }

    /** `io.write` of an answer, which may fail; nothing is written for a silent one. */
    method Write(a: Answer, write: Option<IoErrorKind>) returns (error: Option<RequestError>)
      modifies this`sent
      ensures error == Failure(a, write)
      ensures sent == old(sent) + (if a.Reply? && error.None? then [a.bytes] else [])
    {
      match a
      case Silent => error := None;
      case Broken(e) => error := Some(e);
      case Reply(bytes) =>
        if write.Some? {
          return Some(Io(write.value));
        }
        sent := sent + [bytes];
        error := None;
    }

    method ReplyWithError(header: FrameHeader, field: FunctionField, ex: ExceptionCode, write: Option<IoErrorKind>)
      returns (ghost a: Answer, error: Option<RequestError>)
      requires Valid() && Formattable(writer.format, header)
      modifies this`sent, writer.buffer
      ensures Valid() && a == ErrorReply(writer.format, header, field, ex) && error == Failure(a, write)
      ensures sent == old(sent) + (if a.Reply? && error.None? then [a.bytes] else [])
    {
      hide FormattedException;
      a, error := Silent, None;
      if !header.destination.Broadcast? {
        var bytes := writer.FormatEx(header, field, ex);
        a := AnswerOf(bytes);
        error := Write(AnswerOf(bytes), write);
      }
    }

    method WriteReply(header: FrameHeader, request: Request, ref: Ref, write: Option<IoErrorKind>)
      returns (ghost a: Answer, error: Option<RequestError>)
      requires Valid() && Formattable(writer.format, header) && request.Valid() && ref in devices.store
      modifies this, writer.buffer
      ensures Valid()
      ensures var (state, reply) := GetReply(writer.format, header, handler, old(devices.store[ref]), request);
              devices == old(devices).(store := old(devices.store)[ref := state]) && a == AnswerOf(reply)
      ensures error == Failure(a, write)
      ensures sent == old(sent) + (if a.Reply? && error.None? then [a.bytes] else [])
    {
      hide FormattedReply, FormattedException, Execute, ReplyBody;
      var state := devices.store[ref];
      var (state', ex) := Execute(handler, state, request);
      devices := devices.(store := devices.store[ref := state']);
      var bytes: Result<seq<u8>, RequestError>;
      if ex.Some? {
        bytes := writer.FormatEx(header, ExceptionFor(request.Function()), ex.value);
      } else {
        bytes := writer.FormatReply(header, request.Function(), ReplyBody(handler, state, request));
      }
      a := AnswerOf(bytes);
      error := Write(AnswerOf(bytes), write);
    }

    method ExecuteBroadcast(request: Request)
      requires Valid()
      modifies this`devices
      ensures Valid() && devices == BroadcastFrom(handler, old(devices), request, 0)
    {
      hide Execute;
      for unit := 0 to 256
        invariant Valid() && devices.units == old(devices.units)
        invariant BroadcastFrom(handler, old(devices), request, 0) == BroadcastFrom(handler, devices, request, unit)
      {
        if unit in devices.units {
          var ref := devices.units[unit];
          var state := Execute(handler, devices.store[ref], request).0;
          devices := devices.(store := devices.store[ref := state]);
        }
      }
    }

    /**
     `handle_frame`, where `write` says how the write of the reply ends, if there is one. A write that
     fails ends the session, but the handler has been called all the same.
     */
    method HandleFrame(frame: Frame, write: Option<IoErrorKind>) returns (ghost a: Answer, error: Option<RequestError>)
      requires Valid() && Formattable(writer.format, HeaderOf(frame))
      modifies this, writer.buffer
      ensures Valid()
      ensures (devices, a) == HandledFrame(writer.format, auth, handler, old(devices), frame)
      ensures error == Failure(a, write)
      ensures sent == old(sent) + (if a.Reply? && error.None? then [a.bytes] else [])
    {
      hide ParseRequest, ErrorReply, GetReply, BroadcastFrom;
      var header := HeaderOf(frame);
      if frame.payload == [] {
        return Silent, None;
      }
      var code := FunctionCode.Get(frame.payload[0]);
      if code.None? {
        a, error := ReplyWithError(header, UnknownFunction(frame.payload[0]), IllegalFunction, write);
        return;
      }
      var parsed := ParseRequest(code.value, frame.payload[1..]);
      if parsed.Err? {
        a, error := ReplyWithError(header, ExceptionFor(code.value), IllegalDataValue, write);
        return;
      }
      var request := parsed.value;
      ParsedRequestIsValid(code.value, frame.payload[1..]);
      if !auth.Allows(frame.destination.Value(), request) {
        a, error := ReplyWithError(header, ExceptionFor(request.Function()), IllegalFunction, write);
        return;
      }
      match frame.destination
      case UnitId(unit) =>
        if unit !in devices.units {
          return Silent, None;
        }
        a, error := WriteReply(header, request, devices.units[unit], write);
      case Broadcast =>
        if request.IsWrite() {
          ExecuteBroadcast(request);
        }
        a, error := Silent, None;
    }
  }

  /** How handling a frame fails: it has no reply to write, or the write fails. */
  function Failure(a: Answer, write: Option<IoErrorKind>): Option<RequestError> {
    match a
    case Silent => None
    case Broken(e) => Some(e)
    case Reply(_) => if write.Some? then Some(Io(write.value)) else None
  }
}
