/**
 Requests as the server sees them: parsing, the user's handler, and the reply.
 */
module ServerRequests {
  import opened Types
  import opened Bits
  import opened Serialize
  import opened FrameWriters
  import Crc

  datatype Request =
    | ReadCoils(range: AddressRange)
    | ReadDiscreteInputs(range: AddressRange)
    | ReadHoldingRegisters(range: AddressRange)
    | ReadInputRegisters(range: AddressRange)
    | WriteSingleCoil(coil: Indexed<bool>)
    | WriteSingleRegister(register: Indexed<u16>)
    | WriteMultipleCoils(range: AddressRange, coils: seq<Indexed<bool>>)
    | WriteMultipleRegisters(range: AddressRange, registers: seq<Indexed<u16>>)
  {
    function Function(): FunctionCode {
      match this
      case ReadCoils(_) => FunctionCode.ReadCoils
      case ReadDiscreteInputs(_) => FunctionCode.ReadDiscreteInputs
      case ReadHoldingRegisters(_) => FunctionCode.ReadHoldingRegisters
      case ReadInputRegisters(_) => FunctionCode.ReadInputRegisters
      case WriteSingleCoil(_) => FunctionCode.WriteSingleCoil
      case WriteSingleRegister(_) => FunctionCode.WriteSingleRegister
      case WriteMultipleCoils(_, _) => FunctionCode.WriteMultipleCoils
      case WriteMultipleRegisters(_, _) => FunctionCode.WriteMultipleRegisters
    }

    /** The requests for which `into_broadcast_request` returns something. */
    predicate IsWrite() {
      WriteSingleCoil? || WriteSingleRegister? || WriteMultipleCoils? || WriteMultipleRegisters?
    }

    /** What parsing guarantees about a request. */
    predicate Valid() {
      match this
      case ReadCoils(r) => WellFormed(r) && r.count <= MAX_READ_COILS_COUNT
      case ReadDiscreteInputs(r) => WellFormed(r) && r.count <= MAX_READ_COILS_COUNT
      case ReadHoldingRegisters(r) => WellFormed(r) && r.count <= MAX_READ_REGISTERS_COUNT
      case ReadInputRegisters(r) => WellFormed(r) && r.count <= MAX_READ_REGISTERS_COUNT
      case _ => true
    }
  }

  // ----- parsing -----

  const INSUFFICIENT: RequestError := BadResponse(InsufficientBytes)

  function ParseRange(b: seq<u8>): Result<AddressRange, RequestError> {
    if |b| < 4 then Err(INSUFFICIENT) else
    match TryRange(FromBe16(b[0], b[1]), FromBe16(b[2], b[3]))
    case Err(e) => Err(BadRequest(BadRange(e)))
    case Ok(range) => Ok(range)
  }

  function ParseCoil(b: seq<u8>): Result<Indexed<bool>, RequestError> {
    if |b| < 4 then Err(INSUFFICIENT) else
    match CoilFromWord(FromBe16(b[2], b[3]))
    case Err(e) => Err(BadResponse(e))
    case Ok(value) => Ok(Indexed(FromBe16(b[0], b[1]), value))
  }

  function ParseRegister(b: seq<u8>): Result<Indexed<u16>, RequestError> {
    if |b| < 4 then Err(INSUFFICIENT)
    else Ok(Indexed(FromBe16(b[0], b[1]), FromBe16(b[2], b[3])))
  }

  /** `expect_empty` after the first `n` bytes */
  function ExpectEnd<T>(b: seq<u8>, n: nat, value: T): Result<T, RequestError> {
    if |b| > n then Err(BadResponse(TrailingBytes(|b| - n))) else Ok(value)
  }

  /** `BitIterator::parse_all` */
  function ParseBits(range: AddressRange, b: seq<u8>): Result<seq<Indexed<bool>>, RequestError>
    requires WellFormed(range)
  {
    var n := NumBytes(range.count);
    if |b| < n then Err(INSUFFICIENT) else ExpectEnd(b, n, BitItems(range, b[..n]))
  }

  /** `RegisterIterator::parse_all` */
  function ParseRegisters(range: AddressRange, b: seq<u8>): Result<seq<Indexed<u16>>, RequestError>
    requires WellFormed(range)
  {
    var n := 2 * range.count;
    if |b| < n then Err(INSUFFICIENT) else ExpectEnd(b, n, RegisterItems(range, b[..n]))
  }

  function ParseLimited(b: seq<u8>, limit: u16): Result<AddressRange, RequestError> {
    match ParseRange(b)
    case Err(e) => Err(e)
    case Ok(range) =>
      match LimitedCount(range, limit)
      case Err(e) => Err(BadRequest(BadRange(e)))
      case Ok(range) => ExpectEnd(b, 4, range)
  }

  function Map<T, U>(r: Result<T, RequestError>, f: T -> U): Result<U, RequestError> {
    match r
    case Err(e) => Err(e)
    case Ok(v) => Ok(f(v))
  }

  /** `Request::parse`, on what follows the function code. The byte count of a write is skipped. */
  function ParseRequest(f: FunctionCode, b: seq<u8>): Result<Request, RequestError> {
    match f
    case ReadCoils => Map(ParseLimited(b, MAX_READ_COILS_COUNT), r => Request.ReadCoils(r))
    case ReadDiscreteInputs => Map(ParseLimited(b, MAX_READ_COILS_COUNT), r => Request.ReadDiscreteInputs(r))
    case ReadHoldingRegisters =>
      Map(ParseLimited(b, MAX_READ_REGISTERS_COUNT), r => Request.ReadHoldingRegisters(r))
    case ReadInputRegisters =>
      Map(ParseLimited(b, MAX_READ_REGISTERS_COUNT), r => Request.ReadInputRegisters(r))
    case WriteSingleCoil =>
      (match ParseCoil(b)
       case Err(e) => Err(e)
       case Ok(x) => ExpectEnd(b, 4, Request.WriteSingleCoil(x)))
    case WriteSingleRegister =>
      (match ParseRegister(b)
       case Err(e) => Err(e)
       case Ok(x) => ExpectEnd(b, 4, Request.WriteSingleRegister(x)))
    case WriteMultipleCoils =>
      (match ParseRange(b)
       case Err(e) => Err(e)
       case Ok(range) =>
         if |b| < 5 then Err(INSUFFICIENT)
         else Map(ParseBits(range, b[5..]), items => Request.WriteMultipleCoils(range, items)))
    case WriteMultipleRegisters =>
      (match ParseRange(b)
       case Err(e) => Err(e)
       case Ok(range) =>
         if |b| < 5 then Err(INSUFFICIENT)
         else Map(ParseRegisters(range, b[5..]), items => Request.WriteMultipleRegisters(range, items)))
  }

  lemma ParsedRequestIsValid(f: FunctionCode, b: seq<u8>)
    requires ParseRequest(f, b).Ok?
    ensures ParseRequest(f, b).value.Valid() && ParseRequest(f, b).value.Function() == f
  {}

  /** Two bytes of a message, high byte first. */
  function WordAt(b: seq<u8>, i: nat): (w: u16)
    requires i + 1 < |b|
  {
    var high: int, low: int := b[i], b[i + 1];
    256 * high + low
  }

  /** The range in the first four bytes is not empty, not over the limit, and within the address space. */
  predicate RangeFits(b: seq<u8>, limit: nat) {
    |b| >= 4 && 1 <= WordAt(b, 2) <= limit && WordAt(b, 0) + WordAt(b, 2) <= 65536
  }

  lemma AcceptedRange(b: seq<u8>)
    ensures ParseRange(b).Ok? <==> RangeFits(b, 65535)
    ensures ParseRange(b).Ok? ==> ParseRange(b).value == AddressRange(WordAt(b, 0), WordAt(b, 2))
  {}

  lemma AcceptedLimited(b: seq<u8>, limit: u16)
    ensures ParseLimited(b, limit).Ok? <==> |b| == 4 && RangeFits(b, limit)
    ensures ParseLimited(b, limit).Ok? ==> ParseLimited(b, limit).value == AddressRange(WordAt(b, 0), WordAt(b, 2))
  {
    hide ParseRange;
    AcceptedRange(b);
  }

  /**
   Which requests are accepted, on what follows the function code: the exact lengths, the ranges within the
   address space, at most 2000 bits or 125 registers to read, and the two values of a coil. The byte count of
   a multiple write may be anything.
   */
  lemma AcceptedRequests(f: FunctionCode, b: seq<u8>)
    ensures ParseRequest(f, b).Ok? <==>
            match f
            case ReadCoils => |b| == 4 && RangeFits(b, 2000)
            case ReadDiscreteInputs => |b| == 4 && RangeFits(b, 2000)
            case ReadHoldingRegisters => |b| == 4 && RangeFits(b, 125)
            case ReadInputRegisters => |b| == 4 && RangeFits(b, 125)
            case WriteSingleCoil => |b| == 4 && (b[2] == 0xFF || b[2] == 0) && b[3] == 0
            case WriteSingleRegister => |b| == 4
            case WriteMultipleCoils => RangeFits(b, 65535) && |b| == 5 + (WordAt(b, 2) + 7) / 8
            case WriteMultipleRegisters => RangeFits(b, 65535) && |b| == 5 + 2 * WordAt(b, 2)
  {
    hide ParseRange, ParseLimited, BitItems, RegisterItems, WordAt;
    AcceptedRange(b);
    AcceptedLimited(b, 2000);
    AcceptedLimited(b, 125);
    if f.WriteSingleCoil? && |b| >= 4 {
      AcceptedCoil(b);
    }
  }

  lemma AcceptedCoil(b: seq<u8>)
    requires |b| >= 4
    ensures ParseCoil(b).Ok? <==> (b[2] == 0xFF || b[2] == 0) && b[3] == 0
    ensures ParseCoil(b).Ok? ==> ParseCoil(b).value == Indexed(WordAt(b, 0), b[2] == 0xFF)
  {}

  /** And what they are read as. */
  lemma AcceptedRequestIs(f: FunctionCode, b: seq<u8>)
    requires ParseRequest(f, b).Ok?
    ensures |b| >= 4
    ensures var r := AddressRange(WordAt(b, 0), WordAt(b, 2));
            match ParseRequest(f, b).value
            case ReadCoils(range) => f.ReadCoils? && range == r
            case ReadDiscreteInputs(range) => f.ReadDiscreteInputs? && range == r
            case ReadHoldingRegisters(range) => f.ReadHoldingRegisters? && range == r
            case ReadInputRegisters(range) => f.ReadInputRegisters? && range == r
            case WriteSingleCoil(x) => f.WriteSingleCoil? && x == Indexed(r.start, b[2] == 0xFF)
            case WriteSingleRegister(x) => f.WriteSingleRegister? && x == Indexed(r.start, r.count)
            case WriteMultipleCoils(range, items) =>
              && f.WriteMultipleCoils? && range == r && |items| == r.count && |b| == 5 + NumBytes(r.count)
              && forall i | 0 <= i < r.count :: items[i] == Indexed(r.start + i, BitOf(b[5..], i))
            case WriteMultipleRegisters(range, items) =>
              && f.WriteMultipleRegisters? && range == r && |items| == r.count && |b| == 5 + 2 * r.count
              && forall i | 0 <= i < r.count :: items[i] == Indexed(r.start + i, WordAt(b, 5 + 2 * i))
  {
    hide ParseRange, ParseLimited, WordAt, BitOf;
    AcceptedRange(b);
    AcceptedLimited(b, 2000);
    AcceptedLimited(b, 125);
    if f.WriteSingleCoil? {
      AcceptedCoil(b);
    } else if f.WriteSingleRegister? {
      AcceptedRegister(b);
    } else if f.WriteMultipleCoils? {
      assert b[5..][..|b| - 5] == b[5..];
    } else if f.WriteMultipleRegisters? {
      assert b[5..][..|b| - 5] == b[5..];
      forall i | 0 <= i && 5 + 2 * i + 1 < |b|
        ensures WordOf(b[5..], i) == WordAt(b, 5 + 2 * i)
      {
        WordsAfter(b, i);
      }
    }
  }

  lemma AcceptedRegister(b: seq<u8>)
    requires |b| >= 4
    ensures ParseRegister(b) == Ok(Indexed(WordAt(b, 0), WordAt(b, 2)))
  {}

  lemma WordsAfter(b: seq<u8>, i: nat)
    requires 5 + 2 * i + 1 < |b|
    ensures WordOf(b[5..], i) == WordAt(b, 5 + 2 * i)
  {}

  // ----- the user's handler -----

  /** A request handler over an abstract state. Reads cannot change it; a write may, and may fail. */
  datatype Handler<!S> = Handler(
    readCoil: (S, u16) -> Result<bool, ExceptionCode>,
    readDiscreteInput: (S, u16) -> Result<bool, ExceptionCode>,
    readHoldingRegister: (S, u16) -> Result<u16, ExceptionCode>,
    readInputRegister: (S, u16) -> Result<u16, ExceptionCode>,
    writeSingleCoil: (S, Indexed<bool>) -> (S, Option<ExceptionCode>),
    writeSingleRegister: (S, Indexed<u16>) -> (S, Option<ExceptionCode>),
    writeMultipleCoils: (S, AddressRange, seq<Indexed<bool>>) -> (S, Option<ExceptionCode>),
    writeMultipleRegisters: (S, AddressRange, seq<Indexed<u16>>) -> (S, Option<ExceptionCode>))

  /** The write operation of the handler that a request calls; a read calls none. */
  function Execute<S>(h: Handler<S>, state: S, request: Request): (S, Option<ExceptionCode>) {
    match request
    case WriteSingleCoil(x) => h.writeSingleCoil(state, x)
    case WriteSingleRegister(x) => h.writeSingleRegister(state, x)
    case WriteMultipleCoils(range, items) => h.writeMultipleCoils(state, range, items)
    case WriteMultipleRegisters(range, items) => h.writeMultipleRegisters(state, range, items)
    case _ => (state, None)
  }

  /** The body of a reply that is not an exception. */
  function ReplyBody<S>(h: Handler<S>, state: S, request: Request): (body: Body)
    requires request.Valid()
    ensures body.Valid()
  {
    match request
    case ReadCoils(range) => BitReply(range, (i: u16) => h.readCoil(state, i))
    case ReadDiscreteInputs(range) => BitReply(range, (i: u16) => h.readDiscreteInput(state, i))
    case ReadHoldingRegisters(range) => RegisterReply(range, (i: u16) => h.readHoldingRegister(state, i))
    case ReadInputRegisters(range) => RegisterReply(range, (i: u16) => h.readInputRegister(state, i))
    case WriteSingleCoil(x) => CoilBody(x)
    case WriteSingleRegister(x) => RegisterBody(x)
    case WriteMultipleCoils(range, _) => RangeBody(range)
    case WriteMultipleRegisters(range, _) => RangeBody(range)
  }

  /** `get_reply`: the handler's new state, and the reply frame. */
  function GetReply<S>(format: FormatType, header: FrameHeader, h: Handler<S>, state: S, request: Request)
    : (S, Result<seq<u8>, RequestError>)
    requires Formattable(format, header) && request.Valid()
  {
    var (state', ex) := Execute(h, state, request);
    (state',
     if ex.Some? then FormattedException(format, header, ExceptionFor(request.Function()), ex.value)
     else FormattedReply(format, header, request.Function(), ReplyBody(h, state, request)))
  }

  // ----- replies always fit -----

  lemma BitReplyFits(range: AddressRange, getter: Getter<bool>)
    requires WellFormed(range) && range.count <= MAX_READ_COILS_COUNT
    ensures |EmitBits(range, getter).bytes| <= 251
    ensures EmitBits(range, getter).error.None? || EmitBits(range, getter).error.value.Exception?
  {
    var (bits, ex) := Values(getter, range.start, range.count);
    ValuesLength(getter, range.start, range.count);
    PackedLength(bits);
    PackedLength(WholeBytes(bits));
  }

  lemma RegisterReplyFits(range: AddressRange, getter: Getter<u16>)
    requires WellFormed(range) && range.count <= MAX_READ_REGISTERS_COUNT
    ensures |EmitRegisters(range, getter).bytes| <= 251
    ensures EmitRegisters(range, getter).error.None? || EmitRegisters(range, getter).error.value.Exception?
  {
    ValuesLength(getter, range.start, range.count);
    PackedWordsLength(Values(getter, range.start, range.count).0);
  }

  lemma {:induction false} ValuesLength<T>(getter: Getter<T>, start: nat, count: nat)
    requires start + count <= 0x1_0000
    ensures |Values(getter, start, count).0| <= count
    ensures Values(getter, start, count).1.None? <==> |Values(getter, start, count).0| == count
    decreases count
  {
    if count > 0 && getter(start).Ok? {
      ValuesLength(getter, start + 1, count - 1);
    }
  }

  lemma ReplyBodyFits<S>(h: Handler<S>, state: S, request: Request)
    requires request.Valid()
    ensures var e := Emit(ReplyBody(h, state, request));
            |e.bytes| <= 251 && (e.error.None? || e.error.value.Exception?)
  {
    hide EmitBits, EmitRegisters;
    var body := ReplyBody(h, state, request);
    if body.BitReply? {
      BitReplyFits(body.bits, body.getBit);
    } else if body.RegisterReply? {
      RegisterReplyFits(body.registers, body.getRegister);
    }
  }

  lemma ExceptionFits(format: FormatType, header: FrameHeader, field: FunctionField, ex: ExceptionCode)
    requires Formattable(format, header)
    ensures FormattedException(format, header, field, ex).Ok?
  {
    hide Crc.CrcBytes;
  }

  /** For every request that parsing accepts and whatever the handler does, a reply is written. */
  lemma ReplyFits<S>(format: FormatType, header: FrameHeader, h: Handler<S>, state: S, request: Request)
    requires Formattable(format, header) && request.Valid()
    ensures GetReply(format, header, h, state, request).1.Ok?
  {
    hide Emit, ReplyBody, FormattedException, MbapFrame, RtuFrame;
    ReplyBodyFits(h, state, request);
    var (_, ex) := Execute(h, state, request);
    var code := request.Function();
    if ex.Some? {
      ExceptionFits(format, header, ExceptionFor(code), ex.value);
    } else {
      var r := Formatted(format, header, Valid(code), ReplyBody(h, state, request));
      if r.Err? {
        ExceptionFits(format, header, ExceptionFor(code), r.error.ex);
      }
    }
  }
}
