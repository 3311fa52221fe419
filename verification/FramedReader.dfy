/**
 The two parsers and the framed reader as the mutable objects they are. Every `?` that the code
 applies to a buffer operation is an assertion here: the internal errors cannot arise.
 */
module FramedReaders {
  import opened Types
  import opened Framing
  import opened Reading
  import opened Buffers
  import Crc

  function ResultOf(outcome: Outcome): Result<Option<Frame>, RequestError> {
    match outcome
    case More => Ok(None)
    case Got(frame) => Ok(Some(frame))
    case Bad(error) => Err(BadFrame(error))
  }

  lemma DropDrop(u: seq<u8>, i: nat, j: nat)
    requires i + j <= |u|
    ensures u[i..][j..] == u[i + j..]
    ensures forall k | 0 <= k < j :: u[i..][k] == u[i + k]
  {}

  lemma RtuFullCases(destination: Destination, length: nat, u: seq<u8>)
    ensures var p := RtuFull(destination, length, u);
            var state := ReadFullBody(destination, length);
            if 1 + length > MAX_ADU_LENGTH then
              p == Parsed(state, u, Bad(FrameLengthTooBig(1 + length, MAX_ADU_LENGTH)))
            else if |u| < 3 + length then
              p == Parsed(state, u, More)
            else
              var received := FromBe16(u[2 + length], u[1 + length]);
              var expected := Crc.Checksum([destination.Value()] + u[..1 + length]);
              if received != expected then
                p == Parsed(state, u[3 + length..], Bad(CrcValidationFailure(received, expected)))
              else
                p == Parsed(Start, u[3 + length..], Got(Frame(destination, None, u[..1 + length])))
  {
    hide Crc.Checksum;
  }

  class RtuParser {
    const kind: ParserType
    var state: RtuState

    constructor (kind: ParserType)
      ensures this.kind == kind && state == Start
    {
      this.kind := kind;
      state := Start;
    }

    method Parse(cursor: ReadBuffer) returns (r: Result<Option<Frame>, RequestError>)
      requires cursor.Valid() && Rtu(kind, state).Valid()
      modifies this, cursor
      ensures cursor.Valid() && cursor.end == old(cursor.end) && cursor.delivered == old(cursor.delivered)
      ensures var p := RtuParse(kind, old(state), old(cursor.Unread()));
              state == p.state && cursor.Unread() == p.rest && r == ResultOf(p.outcome)
      decreases match state case Start => 2 case ReadToOffsetForLength(_, _) => 1 case ReadFullBody(_, _) => 0
    {
      hide RtuFull;
      match state
      case Start =>
        var len := cursor.Len();
        if len < 2 {
          return Ok(None);
        }
        var unit := cursor.ReadU8();
        assert unit.Ok?;
        var destination := if unit.value == 0 then Broadcast else UnitId(unit.value);
        // the function code stays in the buffer
        var code := cursor.PeekAt(0);
        assert code.Ok?;
        match LengthModeOf(kind, code.value) {
          case Fixed(length) => state := ReadFullBody(destination, length);
          case Offset(offset) => state := ReadToOffsetForLength(destination, offset);
          case UnknownLength => return Err(BadFrame(UnknownFunctionCode(code.value)));
        }
        r := Parse(cursor);

      case ReadToOffsetForLength(destination, offset) =>
        var len := cursor.Len();
        if len < 1 + offset {
          return Ok(None);
        }
        var extra := cursor.PeekAt(1 + offset - 1);
        assert extra.Ok?;
        state := ReadFullBody(destination, offset + extra.value);
        r := Parse(cursor);

      case ReadFullBody(destination, length) =>
        r := ParseBody(cursor, destination, length);
    }

    method ParseBody(cursor: ReadBuffer, destination: Destination, length: nat)
      returns (r: Result<Option<Frame>, RequestError>)
      requires cursor.Valid() && state == ReadFullBody(destination, length)
      modifies this, cursor
      ensures cursor.Valid() && cursor.end == old(cursor.end) && cursor.delivered == old(cursor.delivered)
      ensures var p := RtuFull(destination, length, old(cursor.Unread()));
              state == p.state && cursor.Unread() == p.rest && r == ResultOf(p.outcome)
    {
      hide Crc.Checksum, Crc.Update, Crc.Number, RtuFull;
      ghost var u := cursor.Unread();
      RtuFullCases(destination, length, u);
      if 1 + length > MAX_ADU_LENGTH {
        return Err(BadFrame(FrameLengthTooBig(1 + length, MAX_ADU_LENGTH)));
      }
      var len := cursor.Len();
      if len < 1 + length + 2 {
        return Ok(None);
      }
      var data := cursor.Read(1 + length);
      assert data.Ok? && data.value == u[..1 + length];
      ghost var v := cursor.Unread();
      DropDrop(u, 1 + length, 2);
      var (frame, fits) := Frame(destination, None, []).Set(data.value);
      assert fits;
      var received := cursor.ReadU16Le();
      assert received.Ok?;
      var digest := Crc.Update(Crc.INITIAL, [destination.Value()]);
      digest := Crc.Update(digest, frame.payload);
      var expected := Crc.Number(digest);
      Crc.TwoPartDigest([destination.Value()], frame.payload);
      if received.value != expected {
        return Err(BadFrame(CrcValidationFailure(received.value, expected)));
      }
      state := Start;
      r := Ok(Some(frame));
    }

    method Reset()
      modifies this
      ensures state == Start
    {
      state := Start;
    }
  }

  lemma HeaderFits(u: seq<u8>)
    requires |u| >= MBAP_HEADER_LENGTH && MbapHeaderOf(u).Ok?
    ensures MbapHeaderOf(u).value.Header? && MbapHeaderOf(u).value.aduLength <= MAX_ADU_LENGTH
  {}

  class MbapParser {
    var state: MbapState

    constructor ()
      ensures state == Begin
    {
      state := Begin;
    }

    static method ParseHeader(cursor: ReadBuffer) returns (r: Result<MbapState, FrameParseError>)
      requires cursor.Valid() && |cursor.Unread()| >= MBAP_HEADER_LENGTH
      modifies cursor
      ensures cursor.Valid() && cursor.end == old(cursor.end) && cursor.delivered == old(cursor.delivered)
      ensures r == MbapHeaderOf(old(cursor.Unread()))
      ensures cursor.Unread() == old(cursor.Unread())[MBAP_HEADER_LENGTH..]
    {
      var txId := cursor.ReadU16Be();
      assert txId.Ok?;
      var protocolId := cursor.ReadU16Be();
      assert protocolId.Ok?;
      var length := cursor.ReadU16Be();
      assert length.Ok?;
      var unit := cursor.ReadU8();
      assert unit.Ok?;
      if protocolId.value != 0 {
        return Err(UnknownProtocolId(protocolId.value));
      }
      if length.value > MAX_LENGTH_FIELD {
        return Err(FrameLengthTooBig(length.value, MAX_LENGTH_FIELD));
      }
      if length.value == 0 {
        return Err(MbapLengthZero);
      }
      r := Ok(Header(txId.value, length.value, unit.value, length.value - 1));
    }

    method Parse(cursor: ReadBuffer) returns (r: Result<Option<Frame>, RequestError>)
      requires cursor.Valid() && Tcp(state).Valid()
      modifies this, cursor
      ensures cursor.Valid() && cursor.end == old(cursor.end) && cursor.delivered == old(cursor.delivered)
      ensures var p := MbapParse(old(state), old(cursor.Unread()));
              state == p.state && cursor.Unread() == p.rest && r == ResultOf(p.outcome)
      decreases if state.Begin? then 1 else 0
    {
      hide MbapHeaderOf;
      var len := cursor.Len();
      match state
      case Header(txId, lengthField, unit, aduLength) =>
        if len < aduLength {
          return Ok(None);
        }
        var frame := ParseBody(cursor, txId, unit, aduLength);
        state := Begin;
        r := Ok(Some(frame));
      case Begin =>
        if len < MBAP_HEADER_LENGTH {
          return Ok(None);
        }
        ghost var u := cursor.Unread();
        var header := ParseHeader(cursor);
        if header.Err? {
          return Err(BadFrame(header.error));
        }
        HeaderFits(u);
        state := header.value;
        r := Parse(cursor);
    }

    static method ParseBody(cursor: ReadBuffer, txId: u16, unit: u8, aduLength: nat) returns (frame: Frame)
      requires cursor.Valid() && aduLength <= |cursor.Unread()| && aduLength <= MAX_ADU_LENGTH
      modifies cursor
      ensures cursor.Valid() && cursor.end == old(cursor.end) && cursor.delivered == old(cursor.delivered)
      ensures cursor.Unread() == old(cursor.Unread())[aduLength..]
      ensures frame == Frame(UnitId(unit), Some(txId), old(cursor.Unread())[..aduLength])
    {
      var data := cursor.Read(aduLength);
      assert data.Ok?;
      var (f, fits) := Frame(UnitId(unit), Some(txId), []).Set(data.value);
      assert fits;
      frame := f;
    }

    method Reset()
      modifies this
      ensures state == Begin
    {
      state := Begin;
    }
  }

  datatype FrameParser = RtuFrames(rtu: RtuParser) | TcpFrames(mbap: MbapParser)

  /** What the caller of `next_frame` sees: a result, or a future that it dropped while waiting. */
  datatype FrameResult = Returned(result: Result<Frame, RequestError>) | Dropped

  function ReturnOf(status: Status): FrameResult {
    match status
    case Output(Got(frame)) => Returned(Ok(frame))
    case Output(Bad(error)) => Returned(Err(BadFrame(error)))
    case Output(More) => Dropped
    case Failed(kind) => Returned(Err(Io(kind)))
    case Cancelled => Dropped
  }

  class FramedReader {
    const parser: FrameParser
    const buffer: ReadBuffer

    ghost function ParserObject(): object {
      match parser
      case RtuFrames(p) => p
      case TcpFrames(p) => p
    }

    /** The parser is a parser, and so no other object. */
    lemma Apart(o: object)
      requires !(o is RtuParser) && !(o is MbapParser)
      ensures ParserObject() != o
    {}

    ghost function ParserValue(): Parser
      reads ParserObject()
    {
      match parser
      case RtuFrames(p) => Parser.Rtu(p.kind, p.state)
      case TcpFrames(p) => Parser.Tcp(p.state)
    }

    ghost predicate Valid()
      reads ParserObject(), buffer, buffer.buffer
    {
      buffer.Valid() && ParserValue().Valid()
    }

    /** The reader as a value. */
    ghost function Value(): (r: Reader)
      requires Valid()
      reads ParserObject(), buffer, buffer.buffer
      ensures r.Valid()
    {
      Reader(ParserValue(), buffer.Unread(), buffer.begin)
    }

    constructor Tcp()
      ensures Valid() && Value() == Fresh(Parser.Tcp(Begin))
      ensures fresh(ParserObject()) && fresh(buffer) && fresh(buffer.buffer)
    {
      var p := new MbapParser();
      parser := TcpFrames(p);
      buffer := new ReadBuffer();
    }

    constructor Rtu(kind: ParserType)
      ensures Valid() && Value() == Fresh(Parser.Rtu(kind, Start))
      ensures fresh(ParserObject()) && fresh(buffer) && fresh(buffer.buffer)
    {
      var p := new RtuParser(kind);
      parser := RtuFrames(p);
      buffer := new ReadBuffer();
    }

    method ParseOne() returns (r: Result<Option<Frame>, RequestError>)
      requires Valid()
      modifies ParserObject(), buffer
      ensures Valid()
      ensures buffer.delivered == old(buffer.delivered)
      ensures Value() == old(Value()).Parse().0 && r == ResultOf(old(Value()).Parse().1)
    {
      hide RtuParse, MbapParse;
      ghost var v := Value();
      ParseOneProgress(v.parser, v.window);
      match parser {
        case RtuFrames(p) => r := p.Parse(buffer);
        case TcpFrames(p) => r := p.Parse(buffer);
      }
      if r.Err? {
        match parser {
          case RtuFrames(p) => p.Reset();
          case TcpFrames(p) => p.Reset();
        }
      }
    }

    /** `read_some`, seen from the reader. */
    method Refill(io: PhysLayer) returns (r: ReadStatus)
      requires Valid()
      modifies buffer, buffer.buffer, io
      ensures Valid()
      ensures old(Value()).Room() >= 0
      ensures var (res, script) := Deliver(old(io.script), old(Value()).Room());
              && io.script == script
              && r == StatusOf(res)
              && Value() == old(Value()).Receive(BytesOf(res))
              && buffer.delivered == old(buffer.delivered) + BytesOf(res)
    {
      r := buffer.ReadSome(io);
    }

    /** One round of the loop in `next_frame`; nothing is returned when it has read and must parse again. */
    method Round(io: PhysLayer) returns (r: Option<FrameResult>, ghost chunk: seq<u8>)
      requires Valid()
      modifies ParserObject(), buffer, buffer.buffer, io
      ensures Valid()
      ensures buffer.delivered == old(buffer.delivered) + chunk
      ensures var next := Reading.NextFrame(old(Value()), old(io.script));
              match r
              case Some(result) =>
                next.reader == Value() && next.script == io.script && next.delivered == chunk && result == ReturnOf(next.status)
              case None =>
                && Weight(io.script) < Weight(old(io.script))
                && next == After(chunk, Reading.NextFrame(Value(), io.script))
    {
      hide Framing.ParseOne, Reading.NextFrame, Weight, FramedReader.Valid, FramedReader.Value;
      ghost var v, script := Value(), io.script;
      ParseKeepsValid(v);
      NextFrameStep(v, script);
      var parsed := ParseOne();
      match parsed
      case Err(error) => return Some(Returned(Err(error))), [];
      case Ok(Some(frame)) => return Some(Returned(Ok(frame))), [];
      case Ok(None) =>
        ReceiveNothing(Value());
        var status := Refill(io);
        match status
        case Waiting => return Some(Dropped), [];
        case ReadError(kind) => return Some(Returned(Err(Io(kind)))), [];
        case Count(n) =>
          TakenWeight(script, n);
          return None, script[0].bytes[..n];
    }

    method NextFrame(io: PhysLayer) returns (r: FrameResult)
      requires Valid()
      modifies ParserObject(), buffer, buffer.buffer, io
      ensures Valid()
      ensures var next := Reading.NextFrame(old(Value()), old(io.script));
              && Value() == next.reader
              && io.script == next.script
              && r == ReturnOf(next.status)
              && buffer.delivered == old(buffer.delivered) + next.delivered
    {
      hide *;
      ghost var whole, got := Reading.NextFrame(Value(), io.script), [];
      AfterNothing(whole);
      while true
        invariant Valid()
        invariant buffer.delivered == old(buffer.delivered) + got
        invariant whole == After(got, Reading.NextFrame(Value(), io.script))
        decreases Weight(io.script)
      {
        ghost var next := Reading.NextFrame(Value(), io.script);
        var result, chunk := Round(io);
        if result.Some? {
          AfterResult(got, next);
          return result.value;
        }
        AfterAgain(got, chunk, Reading.NextFrame(Value(), io.script));
        got := got + chunk;
      }
    }
  }

  /** The result of a call that has already received `got`. */
  ghost function After(got: seq<u8>, next: Next): Next { next.(delivered := got + next.delivered) }

  lemma ReceiveNothing(r: Reader)
    ensures r.Receive([]) == r.Reindexed()
  {
    assert r.window + [] == r.window;
  }

  lemma AfterNothing(next: Next)
    ensures After([], next) == next
  {
    assert [] + next.delivered == next.delivered;
  }

  lemma AfterAgain(got: seq<u8>, chunk: seq<u8>, tail: Next)
    ensures After(got, After(chunk, tail)) == After(got + chunk, tail)
  {
    assert got + (chunk + tail.delivered) == (got + chunk) + tail.delivered;
  }

  lemma AfterResult(got: seq<u8>, next: Next)
    ensures var whole := After(got, next);
            && whole.reader == next.reader && whole.script == next.script
            && whole.status == next.status && whole.delivered == got + next.delivered
  {}
}
