/**
 Integers, results, error values and the small tables that the rest of the model shares.
 */
module Types {
  type u8 = x: int | 0 <= x < 0x100
  type u16 = x: int | 0 <= x < 0x1_0000

  function Pow2(n: nat): (r: nat)
    ensures r > 0
  {
    if n == 0 then 1 else 2 * Pow2(n - 1)
  }

  datatype Option<+T> = None | Some(value: T)

  datatype Result<+T, +E> = Ok(value: T) | Err(error: E)

  // ----- errors -----

  datatype InvalidRange =
    | CountOfZero
    | AddressOverflow(start: u16, count: u16)
    | CountTooLargeForType(actual: u16, limit: u16)

  datatype InvalidRequest =
    | BadRange(range: InvalidRange)
    | CountTooBigForU16(size: nat)

  datatype InternalError =
    | InsufficientWriteSpace
    | InsufficientBytesForRead(requested: nat, remaining: nat)
    | BadByteCount(size: nat)

  datatype FrameParseError =
    | MbapLengthZero
    | FrameLengthTooBig(size: nat, max: nat)
    | UnknownProtocolId(id: u16)
    | UnknownFunctionCode(code: u8)
    | CrcValidationFailure(received: u16, expected: u16)

  datatype AduParseError =
    | InsufficientBytes
    | TrailingBytes(extra: nat)
    | ReplyEchoMismatch
    | UnknownResponseFunction(actual: u8, expected: u8, expectedError: u8)
    | UnknownCoilState(state: u16)

  datatype IoErrorKind = UnexpectedEof | OtherIo(code: nat)

  datatype RequestError =
    | Io(kind: IoErrorKind)
    | Exception(ex: ExceptionCode)
    | BadRequest(invalid: InvalidRequest)
    | BadFrame(frameError: FrameParseError)
    | BadResponse(aduError: AduParseError)
    | Internal(internal: InternalError)
    | ResponseTimeout
    | NoConnection
    | Shutdown

  // ----- exception codes -----

  datatype ExceptionCode =
    | IllegalFunction
    | IllegalDataAddress
    | IllegalDataValue
    | ServerDeviceFailure
    | Acknowledge
    | ServerDeviceBusy
    | MemoryParityError
    | GatewayPathUnavailable
    | GatewayTargetDeviceFailedToRespond
    | Unknown(code: u8)
  {
    function ToByte(): u8 {
      match this
      case IllegalFunction => 0x01
      case IllegalDataAddress => 0x02
      case IllegalDataValue => 0x03
      case ServerDeviceFailure => 0x04
      case Acknowledge => 0x05
      case ServerDeviceBusy => 0x06
      case MemoryParityError => 0x08
      case GatewayPathUnavailable => 0x0A
      case GatewayTargetDeviceFailedToRespond => 0x0B
      case Unknown(code) => code
    }

    static function FromByte(b: u8): ExceptionCode {
      match b
      case 0x01 => IllegalFunction
      case 0x02 => IllegalDataAddress
      case 0x03 => IllegalDataValue
      case 0x04 => ServerDeviceFailure
      case 0x05 => Acknowledge
      case 0x06 => ServerDeviceBusy
      case 0x08 => MemoryParityError
      case 0x0A => GatewayPathUnavailable
      case 0x0B => GatewayTargetDeviceFailedToRespond
      case _ => Unknown(b)
    }

    /** What is left of an exception code once it has crossed the wire as a byte. */
    function OnTheWire(): ExceptionCode { FromByte(ToByte()) }
  }

  // ----- function codes -----

  datatype FunctionCode =
    | ReadCoils
    | ReadDiscreteInputs
    | ReadHoldingRegisters
    | ReadInputRegisters
    | WriteSingleCoil
    | WriteSingleRegister
    | WriteMultipleCoils
    | WriteMultipleRegisters
  {
    function Value(): u8 {
      match this
      case ReadCoils => 1
      case ReadDiscreteInputs => 2
      case ReadHoldingRegisters => 3
      case ReadInputRegisters => 4
      case WriteSingleCoil => 5
      case WriteSingleRegister => 6
      case WriteMultipleCoils => 15
      case WriteMultipleRegisters => 16
    }

    function AsError(): u8 { SetTopBit(Value()) }

    static function Get(b: u8): Option<FunctionCode> {
      match b
      case 1 => Some(ReadCoils)
      case 2 => Some(ReadDiscreteInputs)
      case 3 => Some(ReadHoldingRegisters)
      case 4 => Some(ReadInputRegisters)
      case 5 => Some(WriteSingleCoil)
      case 6 => Some(WriteSingleRegister)
      case 15 => Some(WriteMultipleCoils)
      case 16 => Some(WriteMultipleRegisters)
      case _ => None
    }
  }

  /** `b | 0x80` */
  function SetTopBit(b: u8): u8 { if b < 0x80 then b + 0x80 else b }

  /** The function byte of a frame: a plain code, or an exception reply. */
  datatype FunctionField =
    | Valid(code: FunctionCode)
    | ExceptionFor(code: FunctionCode)
    | UnknownFunction(raw: u8)
  {
    function Value(): u8 {
      match this
      case Valid(f) => f.Value()
      case ExceptionFor(f) => f.AsError()
      case UnknownFunction(b) => SetTopBit(b)
    }
  }

  // ----- big-endian words -----

  function Be16(v: u16): seq<u8> { [v / 256, v % 256] }

  function FromBe16(hi: u8, lo: u8): u16 { 256 * hi + lo }

  // ----- addresses -----

  datatype AddressRange = AddressRange(start: u16, count: u16)

  datatype Indexed<+T> = Indexed(index: u16, value: T)

  const MAX_READ_COILS_COUNT: u16 := 0x07D0
  const MAX_READ_REGISTERS_COUNT: u16 := 0x007D

  function TryRange(start: u16, count: u16): (r: Result<AddressRange, InvalidRange>)
    ensures r.Ok? <==> 0 < count && start + count <= 0x1_0000
    ensures r.Ok? ==> r.value == AddressRange(start, count)
  {
    if count == 0 then Err(CountOfZero)
    else if start > 0xFFFF - (count - 1) then Err(AddressOverflow(start, count))
    else Ok(AddressRange(start, count))
  }

  function LimitedCount(range: AddressRange, limit: u16): Result<AddressRange, InvalidRange> {
    if range.count > limit then Err(CountTooLargeForType(range.count, limit)) else Ok(range)
  }

  /** The ranges that `TryRange` can return. */
  predicate WellFormed(range: AddressRange) {
    0 < range.count && range.start + range.count <= 0x1_0000
  }

  const COIL_ON: u16 := 0xFF00
  const COIL_OFF: u16 := 0x0000

  function CoilToWord(value: bool): u16 { if value then COIL_ON else COIL_OFF }

  function CoilFromWord(word: u16): Result<bool, AduParseError> {
    if word == COIL_ON then Ok(true)
    else if word == COIL_OFF then Ok(false)
    else Err(UnknownCoilState(word))
  }

  // ----- frames -----

  const MAX_ADU_LENGTH := 253
  const MAX_FRAME_LENGTH := 260
  const MBAP_HEADER_LENGTH := 7
  const MAX_LENGTH_FIELD := 254

  datatype Destination = UnitId(unit: u8) | Broadcast
  {
    function Value(): u8 {
      match this
      case UnitId(u) => u
      case Broadcast => 0
    }
  }

  /** The parts of `Frame` that are observable: its header and its payload. */
  datatype Frame = Frame(destination: Destination, txId: Option<u16>, payload: seq<u8>)
  {
    /** `Frame::set`: refuses more than 253 bytes, otherwise replaces the payload. */
    function Set(src: seq<u8>): (Frame, bool) {
      if |src| > MAX_ADU_LENGTH then (this, false) else (this.(payload := src), true)
    }
  }
}
