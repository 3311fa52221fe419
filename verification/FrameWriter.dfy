/**
 Formatting of whole frames into the writer's buffer: MBAP with its back-patched length, RTU with
 its checksum.
 */
module FrameWriters {
  import opened Types
  import opened Serialize
  import Crc

  datatype FrameHeader = FrameHeader(destination: Destination, txId: Option<u16>)

  datatype FormatType = TcpFormat | RtuFormat

  // ----- frames as values -----

  /** An MBAP frame around a PDU. The length field is truncated to 16 bits, as the cast in the code is. */
  function MbapFrame(txId: u16, unit: u8, pdu: seq<u8>): seq<u8> {
    Be16(txId) + Be16(0) + Be16((|pdu| + 1) % 0x1_0000) + [unit] + pdu
  }

  function RtuFrame(destination: u8, pdu: seq<u8>): seq<u8> {
    [destination] + pdu + Crc.CrcBytes([destination] + pdu)
  }

  /** A header that the given format can write: TCP needs a transaction id. */
  predicate Formattable(format: FormatType, header: FrameHeader) {
    format.TcpFormat? ==> header.txId.Some?
  }

  /** What `format_generic` returns: a function of its arguments alone. */
  function Formatted(format: FormatType, header: FrameHeader, function_: FunctionField, body: Body)
    : Result<seq<u8>, RequestError>
    requires Formattable(format, header) && body.Valid()
  {
    match format
    case TcpFormat =>
      (match Fit(Emit(body), MAX_FRAME_LENGTH - MBAP_HEADER_LENGTH - 1)
       case Err(e) => Err(e)
       case Ok(bytes) => Ok(MbapFrame(header.txId.value, header.destination.Value(), [function_.Value()] + bytes)))
    case RtuFormat =>
      (match Fit(Emit(body), MAX_FRAME_LENGTH - 2)
       case Err(e) => Err(e)
       case Ok(bytes) =>
         if |bytes| + 4 > MAX_FRAME_LENGTH then Err(Internal(InsufficientWriteSpace))
         else Ok(RtuFrame(header.destination.Value(), [function_.Value()] + bytes)))
  }

  function FormattedException(format: FormatType, header: FrameHeader, function_: FunctionField, ex: ExceptionCode)
    : Result<seq<u8>, RequestError>
    requires Formattable(format, header)
  {
    var field := if function_.Valid? then ExceptionFor(function_.code) else function_;
    Formatted(format, header, field, ExceptionBody(ex))
  }

  /** `format_reply`: an exception raised while the body is written replaces the reply. */
  function FormattedReply(format: FormatType, header: FrameHeader, code: FunctionCode, body: Body)
    : Result<seq<u8>, RequestError>
    requires Formattable(format, header) && body.Valid()
  {
    var r := Formatted(format, header, Valid(code), body);
    if r.Err? && r.error.Exception? then FormattedException(format, header, ExceptionFor(code), r.error.ex)
    else r
  }

  // ----- the writer -----

  /** An MBAP frame before its length field is written: the two bytes there are left over from earlier frames. */
  function Unpatched(txId: u16, unit: u8, stale: seq<u8>, pdu: seq<u8>): seq<u8> {
    Be16(txId) + Be16(0) + stale + [unit] + pdu
  }

  lemma MbapPatched(txId: u16, unit: u8, stale: seq<u8>, pdu: seq<u8>)
    requires |stale| == 2
    ensures var t := Unpatched(txId, unit, stale, pdu);
            |t| == 7 + |pdu| && t[..4] + Be16((|pdu| + 1) % 0x1_0000) + t[6..] == MbapFrame(txId, unit, pdu)
  {}

  class FrameWriter {
    const format: FormatType
    const buffer: array<u8>

    constructor (format: FormatType)
      ensures this.format == format && buffer.Length == MAX_FRAME_LENGTH && fresh(buffer)
    {
      this.format := format;
      buffer := new u8[MAX_FRAME_LENGTH](_ => 0);
    }

    /** `format_mbap`: skips the length field and seeks back to it once the body is written. */
    method FormatMbap(header: FrameHeader, function_: FunctionField, body: Body)
      returns (r: Result<nat, RequestError>)
      requires buffer.Length == MAX_FRAME_LENGTH && header.txId.Some? && body.Valid()
      modifies buffer
      ensures r.Ok? ==> r.value <= buffer.Length
      ensures Wrote(r) == Formatted(TcpFormat, header, function_, body)
    {
      hide Emit, Be16;
      var cursor := new WriteCursor(buffer);
      ghost var stale := WriteMbapHeader(cursor, header.txId.value, header.destination.Value());
      var startPdu := cursor.pos;
      var w := cursor.WriteU8(function_.Value());
      assert w.Done?;
      ghost var prefix := cursor.Text();
      w := cursor.SerializeBody(body);
      if w.Stopped? {
        return Err(w.error);
      }
      var endPdu := cursor.pos;
      ghost var bytes := Fit(Emit(body), MAX_FRAME_LENGTH - MBAP_HEADER_LENGTH - 1).value;
      ghost var pdu := [function_.Value()] + bytes;
      assert cursor.Text() == Unpatched(header.txId.value, header.destination.Value(), stale, pdu);
      // the length field includes the unit identifier
      cursor.PatchU16Be(4, (endPdu - startPdu + 1) % 0x1_0000);
      MbapPatched(header.txId.value, header.destination.Value(), stale, pdu);
      r := Ok(endPdu);
    }

    static method WriteMbapHeader(cursor: WriteCursor, txId: u16, unit: u8) returns (ghost stale: seq<u8>)
      requires cursor.Valid() && cursor.pos == 0 && cursor.dest.Length == MAX_FRAME_LENGTH
      modifies cursor, cursor.dest
      ensures cursor.Valid() && cursor.pos == MBAP_HEADER_LENGTH && |stale| == 2
      ensures cursor.Text() == Be16(txId) + Be16(0) + stale + [unit]
    {
      var w := cursor.WriteU16Be(txId);
      assert w.Done?;
      w := cursor.WriteU16Be(0);
      assert w.Done?;
      w := cursor.Skip(2);
      assert w.Done?;
      stale := cursor.dest[4..6];
      w := cursor.WriteU8(unit);
      assert w.Done?;
    }

    /** `format_rtu_pdu` */
    method FormatRtu(header: FrameHeader, function_: FunctionField, body: Body)
      returns (r: Result<nat, RequestError>)
      requires buffer.Length == MAX_FRAME_LENGTH && body.Valid()
      modifies buffer
      ensures r.Ok? ==> r.value <= buffer.Length
      ensures Wrote(r) == Formatted(RtuFormat, header, function_, body)
    {
      hide Emit, Crc.Checksum, Crc.CrcBytes;
      var cursor := new WriteCursor(buffer);
      var w := cursor.WriteU8(header.destination.Value());
      assert w.Done?;
      w := cursor.WriteU8(function_.Value());
      assert w.Done?;
      w := cursor.SerializeBody(body);
      if w.Stopped? {
        return Err(w.error);
      }
      ghost var pdu := [function_.Value()] + Fit(Emit(body), MAX_FRAME_LENGTH - 2).value;
      assert cursor.Text() == [header.destination.Value()] + pdu;
      var crc := Crc.Checksum(buffer[..cursor.pos]);
      Crc.CrcBytesAreLittleEndian(buffer[..cursor.pos]);
      w := cursor.WriteU16Le(crc);
      if w.Stopped? {
        return Err(w.error);
      }
      r := Ok(cursor.pos);
    }

    /** The slice of the buffer that a result stands for. */
    ghost function Wrote(r: Result<nat, RequestError>): Result<seq<u8>, RequestError>
      requires r.Ok? ==> r.value <= buffer.Length
      reads buffer
    {
      match r
      case Err(e) => Err(e)
      case Ok(end) => Ok(buffer[..end])
    }

    method FormatGeneric(header: FrameHeader, function_: FunctionField, body: Body)
      returns (r: Result<seq<u8>, RequestError>)
      requires buffer.Length == MAX_FRAME_LENGTH && Formattable(format, header) && body.Valid()
      modifies buffer
      ensures r == Formatted(format, header, function_, body)
    {
      hide Formatted;
      var end: Result<nat, RequestError>;
      match format {
        case TcpFormat => end := FormatMbap(header, function_, body);
        case RtuFormat => end := FormatRtu(header, function_, body);
      }
      match end
      case Err(e) => r := Err(e);
      case Ok(n) => r := Ok(buffer[..n]);
    }

    method FormatEx(header: FrameHeader, function_: FunctionField, ex: ExceptionCode)
      returns (r: Result<seq<u8>, RequestError>)
      requires buffer.Length == MAX_FRAME_LENGTH && Formattable(format, header)
      modifies buffer
      ensures r == FormattedException(format, header, function_, ex)
    {
      hide Formatted;
      var field := if function_.Valid? then ExceptionFor(function_.code) else function_;
      r := FormatGeneric(header, field, ExceptionBody(ex));
    }

    /**
     Whatever the buffer held before, and however far a body got before its getter failed, the bytes
     returned are a function of the arguments.
     */
    method FormatReply(header: FrameHeader, code: FunctionCode, body: Body)
      returns (r: Result<seq<u8>, RequestError>)
      requires buffer.Length == MAX_FRAME_LENGTH && Formattable(format, header) && body.Valid()
      modifies buffer
      ensures r == FormattedReply(format, header, code, body)
    {
      hide Formatted, FormattedException;
      r := FormatGeneric(header, Valid(code), body);
      if r.Err? && r.error.Exception? {
        r := FormatEx(header, ExceptionFor(code), r.error.ex);
      }
    }
  }
}
