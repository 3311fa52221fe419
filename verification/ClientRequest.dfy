/**
 Requests as the client sees them: their bodies, and the decoding of a response.
 */
module ClientRequests {
  import opened Types
  import opened Bits
  import opened Serialize
  import opened FrameWriters
  import opened ServerRequests

  datatype Details =
    | ReadCoilsOf(range: AddressRange)
    | ReadDiscreteInputsOf(range: AddressRange)
    | ReadHoldingRegistersOf(range: AddressRange)
    | ReadInputRegistersOf(range: AddressRange)
    | WriteCoil(coil: Indexed<bool>)
    | WriteRegister(register: Indexed<u16>)
    | WriteCoils(range: AddressRange, coils: seq<bool>)
    | WriteRegisters(range: AddressRange, registers: seq<u16>)
  {
    /** What `of_read_bits`, `of_read_registers` and `WriteMultiple::from` check. */
    predicate Valid() {
      match this
      case ReadCoilsOf(r) => WellFormed(r) && r.count <= MAX_READ_COILS_COUNT
      case ReadDiscreteInputsOf(r) => WellFormed(r) && r.count <= MAX_READ_COILS_COUNT
      case ReadHoldingRegistersOf(r) => WellFormed(r) && r.count <= MAX_READ_REGISTERS_COUNT
      case ReadInputRegistersOf(r) => WellFormed(r) && r.count <= MAX_READ_REGISTERS_COUNT
      case WriteCoils(r, values) => WellFormed(r) && |values| == r.count
      case WriteRegisters(r, values) => WellFormed(r) && |values| == r.count
      case _ => true
    }

    function Function(): FunctionCode {
      match this
      case ReadCoilsOf(_) => FunctionCode.ReadCoils
      case ReadDiscreteInputsOf(_) => FunctionCode.ReadDiscreteInputs
      case ReadHoldingRegistersOf(_) => FunctionCode.ReadHoldingRegisters
      case ReadInputRegistersOf(_) => FunctionCode.ReadInputRegisters
      case WriteCoil(_) => FunctionCode.WriteSingleCoil
      case WriteRegister(_) => FunctionCode.WriteSingleRegister
      case WriteCoils(_, _) => FunctionCode.WriteMultipleCoils
      case WriteRegisters(_, _) => FunctionCode.WriteMultipleRegisters
    }

    function Body(): (b: Body)
      ensures b.Valid()
    {
      match this
      case ReadCoilsOf(r) => RangeBody(r)
      case ReadDiscreteInputsOf(r) => RangeBody(r)
      case ReadHoldingRegistersOf(r) => RangeBody(r)
      case ReadInputRegistersOf(r) => RangeBody(r)
      case WriteCoil(x) => CoilBody(x)
      case WriteRegister(x) => RegisterBody(x)
      case WriteCoils(r, values) => WriteCoilsBody(r, values)
      case WriteRegisters(r, values) => WriteRegistersBody(r, values)
    }
  }

  type RequestDetails = d: Details | d.Valid() witness ReadCoilsOf(AddressRange(0, 1))

  /** `WriteMultiple::from` */
  function WriteMultipleFrom<T>(start: u16, values: seq<T>): (r: Result<AddressRange, InvalidRequest>)
    ensures r.Ok? <==> 0 < |values| <= 0xFFFF && start + |values| <= 0x1_0000
    ensures r.Ok? ==> r.value.start == start && r.value.count == |values|
  {
    if |values| > 0xFFFF then Err(CountTooBigForU16(|values|)) else
    match TryRange(start, |values|)
    case Err(e) => Err(BadRange(e))
    case Ok(range) => Ok(range)
  }

  /** The value with which a request's promise is completed. */
  datatype Success =
    | BitValues(bits: seq<Indexed<bool>>)
    | RegisterValues(registers: seq<Indexed<u16>>)
    | CoilEcho(coil: Indexed<bool>)
    | RegisterEcho(register: Indexed<u16>)
    | RangeEcho(range: AddressRange)

  type RequestResult = Result<Success, RequestError>

  /** `get_error_for`, on what follows the function code */
  function ErrorFor(actual: u8, expected: FunctionCode, b: seq<u8>): RequestError {
    if actual == expected.AsError() then
      if b == [] then INSUFFICIENT
      else if |b| == 1 then Exception(ExceptionCode.FromByte(b[0]))
      else BadResponse(TrailingBytes(|b| - 1))
    else
      BadResponse(UnknownResponseFunction(actual, expected.Value(), expected.AsError()))
  }

  /** Skip the byte count, which is not checked. */
  function AfterCount(b: seq<u8>): Result<seq<u8>, RequestError> {
    if b == [] then Err(INSUFFICIENT) else Ok(b[1..])
  }

  function BitsResponse(range: AddressRange, b: seq<u8>): RequestResult
    requires WellFormed(range)
  {
    match AfterCount(b)
    case Err(e) => Err(e)
    case Ok(rest) => Map(ParseBits(range, rest), x => BitValues(x))
  }

  function RegistersResponse(range: AddressRange, b: seq<u8>): RequestResult
    requires WellFormed(range)
  {
    match AfterCount(b)
    case Err(e) => Err(e)
    case Ok(rest) => Map(ParseRegisters(range, rest), x => RegisterValues(x))
  }

  /** `SingleWrite::parse_all`: trailing bytes are refused before the echo is compared. */
  function EchoResponse<T(==)>(sent: T, parsed: Result<T, RequestError>, b: seq<u8>): Result<T, RequestError> {
    match parsed
    case Err(e) => Err(e)
    case Ok(x) =>
      match ExpectEnd(b, 4, x)
      case Err(e) => Err(e)
      case Ok(x) => if x == sent then Ok(x) else Err(BadResponse(ReplyEchoMismatch))
  }

  /** `MultipleWriteRequest::parse_all`: the echo is compared before trailing bytes are refused. */
  function RangeResponse(sent: AddressRange, b: seq<u8>): Result<AddressRange, RequestError> {
    match ParseRange(b)
    case Err(e) => Err(e)
    case Ok(range) =>
      if range != sent then Err(BadResponse(ReplyEchoMismatch)) else ExpectEnd(b, 4, range)
  }

  /** `Request::handle_response` */
  function HandledResponse(details: RequestDetails, payload: seq<u8>): RequestResult {
    if payload == [] then Err(INSUFFICIENT)
    else if payload[0] != details.Function().Value() then
      Err(ErrorFor(payload[0], details.Function(), payload[1..]))
    else
      var b := payload[1..];
      match details
      case ReadCoilsOf(r) => BitsResponse(r, b)
      case ReadDiscreteInputsOf(r) => BitsResponse(r, b)
      case ReadHoldingRegistersOf(r) => RegistersResponse(r, b)
      case ReadInputRegistersOf(r) => RegistersResponse(r, b)
      case WriteCoil(x) => Map(EchoResponse(x, ParseCoil(b), b), x => CoilEcho(x))
      case WriteRegister(x) => Map(EchoResponse(x, ParseRegister(b), b), x => RegisterEcho(x))
      case WriteCoils(r, _) => Map(RangeResponse(r, b), x => RangeEcho(x))
      case WriteRegisters(r, _) => Map(RangeResponse(r, b), x => RangeEcho(x))
  }

  // ----- which responses complete a request -----

  /** The function code, and then two words, high byte first. */
  predicate IsEcho(payload: seq<u8>, f: u8, v: u16, w: u16) {
    |payload| == 5 && payload[0] == f && WordAt(payload, 1) == v && WordAt(payload, 3) == w
  }

  /**
   A response completes a request with success exactly when it is: for a write, the echo of what was written or
   of the range, byte for byte; for a read, the function code, a byte count, which is not looked at, and
   exactly as many bytes as the values of the range take.
   */
  lemma SuccessfulResponses(details: RequestDetails, payload: seq<u8>)
    ensures HandledResponse(details, payload).Ok? <==>
            match details
            case ReadCoilsOf(r) => |payload| == 2 + (r.count + 7) / 8 && payload[0] == 1
            case ReadDiscreteInputsOf(r) => |payload| == 2 + (r.count + 7) / 8 && payload[0] == 2
            case ReadHoldingRegistersOf(r) => |payload| == 2 + 2 * r.count && payload[0] == 3
            case ReadInputRegistersOf(r) => |payload| == 2 + 2 * r.count && payload[0] == 4
            case WriteCoil(x) => IsEcho(payload, 5, x.index, if x.value then 0xFF00 else 0)
            case WriteRegister(x) => IsEcho(payload, 6, x.index, x.value)
            case WriteCoils(r, _) => IsEcho(payload, 15, r.start, r.count)
            case WriteRegisters(r, _) => IsEcho(payload, 16, r.start, r.count)
  {
    hide EchoResponse, RangeResponse, BitsResponse, RegistersResponse, WordAt, ErrorFor, ParseCoil, ParseRegister;
    if payload != [] && payload[0] == details.Function().Value() {
      var b := payload[1..];
      match details
      case WriteCoil(x) => SuccessfulCoil(payload, x);
      case WriteRegister(x) => SuccessfulRegister(payload, x);
      case WriteCoils(r, _) => SuccessfulRange(payload, r);
      case WriteRegisters(r, _) => SuccessfulRange(payload, r);
      case ReadCoilsOf(r) => SuccessfulBits(r, b);
      case ReadDiscreteInputsOf(r) => SuccessfulBits(r, b);
      case ReadHoldingRegistersOf(r) => SuccessfulRegisters(r, b);
      case ReadInputRegistersOf(r) => SuccessfulRegisters(r, b);
    }
  }

  lemma AfterCode(payload: seq<u8>)
    requires payload != []
    ensures forall i: nat | i + 2 < |payload| :: WordAt(payload[1..], i) == WordAt(payload, i + 1)
  {}

  lemma SuccessfulCoil(payload: seq<u8>, x: Indexed<bool>)
    requires payload != []
    ensures var b := payload[1..];
            EchoResponse(x, ParseCoil(b), b).Ok? <==>
            IsEcho(payload, payload[0], x.index, if x.value then 0xFF00 else 0)
  {
    AfterCode(payload);
  }

  lemma SuccessfulRegister(payload: seq<u8>, x: Indexed<u16>)
    requires payload != []
    ensures var b := payload[1..];
            EchoResponse(x, ParseRegister(b), b).Ok? <==> IsEcho(payload, payload[0], x.index, x.value)
  {
    AfterCode(payload);
  }

  lemma SuccessfulRange(payload: seq<u8>, r: AddressRange)
    requires payload != [] && WellFormed(r)
    ensures RangeResponse(r, payload[1..]).Ok? <==> IsEcho(payload, payload[0], r.start, r.count)
  {
    hide ParseRange;
    AfterCode(payload);
    AcceptedRange(payload[1..]);
  }

  lemma SuccessfulBits(r: AddressRange, b: seq<u8>)
    requires WellFormed(r)
    ensures BitsResponse(r, b).Ok? <==> |b| == 1 + (r.count + 7) / 8
  {
    hide BitItems;
  }

  lemma SuccessfulRegisters(r: AddressRange, b: seq<u8>)
    requires WellFormed(r)
    ensures RegistersResponse(r, b).Ok? <==> |b| == 1 + 2 * r.count
  {
    hide RegisterItems;
  }

  /** And the values it is completed with: each address of the range, in order, with its bit or its word. */
  lemma ResponseValues(details: RequestDetails, payload: seq<u8>)
    requires HandledResponse(details, payload).Ok?
    ensures match HandledResponse(details, payload).value
            case BitValues(items) =>
              && (details.ReadCoilsOf? || details.ReadDiscreteInputsOf?) && |items| == details.range.count
              && NumBytes(details.range.count) + 2 == |payload|
              && forall i | 0 <= i < |items| :: items[i] == Indexed(details.range.start + i, BitOf(payload[2..], i))
            case RegisterValues(items) =>
              && (details.ReadHoldingRegistersOf? || details.ReadInputRegistersOf?) && |items| == details.range.count
              && 2 * details.range.count + 2 == |payload|
              && forall i | 0 <= i < |items| :: items[i] == Indexed(details.range.start + i, WordAt(payload, 2 + 2 * i))
            case CoilEcho(x) => details.WriteCoil? && x == details.coil
            case RegisterEcho(x) => details.WriteRegister? && x == details.register
            case RangeEcho(r) => (details.WriteCoils? || details.WriteRegisters?) && r == details.range
  {
    SuccessfulResponses(details, payload);
    hide ParseRange, ParseCoil, ParseRegister, BitOf, WordAt, ErrorFor, IsEcho;
    var b := payload[1..];
    if details.ReadCoilsOf? || details.ReadDiscreteInputsOf? {
      assert b[1..] == payload[2..] && payload[2..][..|payload| - 2] == payload[2..];
    } else if details.ReadHoldingRegistersOf? || details.ReadInputRegistersOf? {
      assert b[1..] == payload[2..] && payload[2..][..|payload| - 2] == payload[2..];
      forall i | 0 <= i < details.range.count
        ensures WordOf(payload[2..], i) == WordAt(payload, 2 + 2 * i)
      {
        WordsFrom(payload, i);
      }
    }
  }

  lemma WordsFrom(payload: seq<u8>, i: nat)
    requires 2 + 2 * i + 1 < |payload|
    ensures WordOf(payload[2..], i) == WordAt(payload, 2 + 2 * i)
  {}

  /** A response is an exception exactly when it is the function code with its top bit set, and one byte. */
  lemma ExceptionResponses(details: RequestDetails, payload: seq<u8>, ex: ExceptionCode)
    ensures HandledResponse(details, payload) == Err(Exception(ex)) <==>
            |payload| == 2 && payload[0] == details.Function().Value() + 0x80 && ex == ExceptionCode.FromByte(payload[1])
  {
    hide EchoResponse, RangeResponse, BitsResponse, RegistersResponse, ParseCoil, ParseRegister, ExceptionCode.FromByte;
    if payload != [] && payload[0] == details.Function().Value() {
      PlainErrors(details, payload[1..]);
    }
  }

  lemma PlainErrors(details: RequestDetails, b: seq<u8>)
    ensures match details
            case ReadCoilsOf(r) => BitsResponse(r, b).Err? ==> !BitsResponse(r, b).error.Exception?
            case ReadDiscreteInputsOf(r) => BitsResponse(r, b).Err? ==> !BitsResponse(r, b).error.Exception?
            case ReadHoldingRegistersOf(r) => RegistersResponse(r, b).Err? ==> !RegistersResponse(r, b).error.Exception?
            case ReadInputRegistersOf(r) => RegistersResponse(r, b).Err? ==> !RegistersResponse(r, b).error.Exception?
            case WriteCoil(x) =>
              var e := EchoResponse(x, ParseCoil(b), b); e.Err? ==> !e.error.Exception?
            case WriteRegister(x) =>
              var e := EchoResponse(x, ParseRegister(b), b); e.Err? ==> !e.error.Exception?
            case WriteCoils(r, _) => RangeResponse(r, b).Err? ==> !RangeResponse(r, b).error.Exception?
            case WriteRegisters(r, _) => RangeResponse(r, b).Err? ==> !RangeResponse(r, b).error.Exception?
  {
    hide BitItems, RegisterItems;
  }

  /** Of the responses to a single write, a well-formed one that is no echo is reported as a mismatch. */
  lemma MismatchedEcho(x: Indexed<u16>, payload: seq<u8>)
    ensures HandledResponse(WriteRegister(x), payload) == Err(BadResponse(ReplyEchoMismatch)) <==>
            |payload| == 5 && payload[0] == 6 && !IsEcho(payload, 6, x.index, x.value)
  {
    if payload != [] {
      AfterCode(payload);
    }
  }

  /** The number of bytes of a reply that is not an exception. */
  function ReplyLength(details: RequestDetails): nat {
    match details
    case ReadCoilsOf(r) => 2 + (r.count + 7) / 8
    case ReadDiscreteInputsOf(r) => 2 + (r.count + 7) / 8
    case ReadHoldingRegistersOf(r) => 2 + 2 * r.count
    case ReadInputRegistersOf(r) => 2 + 2 * r.count
    case _ => 5
  }

  /** The range in a reply to a multiple write cannot be one. */
  predicate BadRangeIn(payload: seq<u8>)
    requires |payload| >= 5
  {
    WordAt(payload, 3) == 0 || WordAt(payload, 1) + WordAt(payload, 3) > 65536
  }

  /**
   Why a response is refused: too short, not of the function, or an exception; then, for a read, its length; for
   a single write, the value of its coil, its length and its echo, in that order; and for a multiple write, its
   range, its echo and its length, in that order.
   */
  lemma RefusedResponses(details: RequestDetails, payload: seq<u8>)
    requires HandledResponse(details, payload).Err?
    ensures var e, f, n := HandledResponse(details, payload).error, details.Function().Value(), ReplyLength(details);
            if payload == [] then e == BadResponse(InsufficientBytes)
            else if payload[0] == f + 128 then
              e == if |payload| == 1 then BadResponse(InsufficientBytes)
                   else if |payload| == 2 then Exception(ExceptionCode.FromByte(payload[1]))
                   else BadResponse(TrailingBytes(|payload| - 2))
            else if payload[0] != f then e == BadResponse(UnknownResponseFunction(payload[0], f, f + 128))
            else if |payload| < n then e == BadResponse(InsufficientBytes)
            else if details.WriteCoil? && WordAt(payload, 3) != 0xFF00 && WordAt(payload, 3) != 0 then
              e == BadResponse(UnknownCoilState(WordAt(payload, 3)))
            else if (details.WriteCoils? || details.WriteRegisters?) && BadRangeIn(payload) then
              e.BadRequest?
            else if (details.WriteCoils? || details.WriteRegisters?) &&
                    (WordAt(payload, 1) != details.range.start || WordAt(payload, 3) != details.range.count) then
              e == BadResponse(ReplyEchoMismatch)
            else if |payload| > n then e == BadResponse(TrailingBytes(|payload| - n))
            else e == BadResponse(ReplyEchoMismatch)
  {
    hide EchoResponse, RangeResponse, BitsResponse, RegistersResponse, WordAt, ParseCoil, ParseRegister;
    if payload != [] && payload[0] == details.Function().Value() {
      var b := payload[1..];
      match details
      case WriteCoil(x) => RefusedCoil(payload, x);
      case WriteRegister(x) => RefusedRegister(payload, x);
      case WriteCoils(r, _) => RefusedRange(payload, r);
      case WriteRegisters(r, _) => RefusedRange(payload, r);
      case ReadCoilsOf(r) => RefusedBits(r, b);
      case ReadDiscreteInputsOf(r) => RefusedBits(r, b);
      case ReadHoldingRegistersOf(r) => RefusedRegisters(r, b);
      case ReadInputRegistersOf(r) => RefusedRegisters(r, b);
    }
  }

  lemma RefusedCoil(payload: seq<u8>, x: Indexed<bool>)
    requires payload != [] && EchoResponse(x, ParseCoil(payload[1..]), payload[1..]).Err?
    ensures EchoResponse(x, ParseCoil(payload[1..]), payload[1..]).error ==
            BadResponse(if |payload| < 5 then InsufficientBytes
                        else if WordAt(payload, 3) != 0xFF00 && WordAt(payload, 3) != 0 then UnknownCoilState(WordAt(payload, 3))
                        else if |payload| > 5 then TrailingBytes(|payload| - 5)
                        else ReplyEchoMismatch)
  {
    AfterCode(payload);
  }

  lemma RefusedRegister(payload: seq<u8>, x: Indexed<u16>)
    requires payload != [] && EchoResponse(x, ParseRegister(payload[1..]), payload[1..]).Err?
    ensures EchoResponse(x, ParseRegister(payload[1..]), payload[1..]).error ==
            BadResponse(if |payload| < 5 then InsufficientBytes
                        else if |payload| > 5 then TrailingBytes(|payload| - 5)
                        else ReplyEchoMismatch)
  {
    AfterCode(payload);
  }

  lemma RefusedRange(payload: seq<u8>, r: AddressRange)
    requires payload != [] && WellFormed(r) && RangeResponse(r, payload[1..]).Err?
    ensures var e := RangeResponse(r, payload[1..]).error;
            if |payload| < 5 then e == BadResponse(InsufficientBytes)
            else if BadRangeIn(payload) then e.BadRequest?
            else if WordAt(payload, 1) != r.start || WordAt(payload, 3) != r.count then e == BadResponse(ReplyEchoMismatch)
            else |payload| > 5 && e == BadResponse(TrailingBytes(|payload| - 5))
  {
    AfterCode(payload);
    AcceptedRange(payload[1..]);
  }

  lemma RefusedBits(r: AddressRange, b: seq<u8>)
    requires WellFormed(r) && BitsResponse(r, b).Err?
    ensures var n := 1 + (r.count + 7) / 8;
            BitsResponse(r, b).error == BadResponse(if |b| < n then InsufficientBytes else TrailingBytes(|b| - n))
    ensures |b| != 1 + (r.count + 7) / 8
  {
    hide BitItems;
  }

  lemma RefusedRegisters(r: AddressRange, b: seq<u8>)
    requires WellFormed(r) && RegistersResponse(r, b).Err?
    ensures var n := 1 + 2 * r.count;
            RegistersResponse(r, b).error == BadResponse(if |b| < n then InsufficientBytes else TrailingBytes(|b| - n))
    ensures |b| != 1 + 2 * r.count
  {
    hide RegisterItems;
  }

  /** `format_request` */
  function FormattedRequest(format: FormatType, unit: u8, txId: u16, details: RequestDetails)
    : Result<seq<u8>, RequestError>
  {
    Formatted(format, FrameHeader(UnitId(unit), Some(txId)), Valid(details.Function()), details.Body())
  }
}
