/**
 The 260-byte receive buffer with its moving indices, and the physical layer it reads from.
 */
module Buffers {
  import opened Types
  import opened Reading

  datatype IoResult = Received(bytes: seq<u8>) | IoFailure(kind: IoErrorKind) | Pending

  /** The physical layer: each read takes the next thing the environment does. */
  class PhysLayer {
    var script: seq<IoEvent>

    constructor (script: seq<IoEvent>)
      ensures this.script == script
    {
      this.script := script;
    }

    /** Read at most `room` bytes. */
    method Read(room: nat) returns (r: IoResult)
      modifies this
      ensures (r, script) == Deliver(old(script), room)
    {
      if script == [] {
        return Pending;
      }
      match script[0]
      case Cancel =>
        r := Pending;
        script := script[1..];
      case Fail(kind) =>
        r := IoFailure(kind);
        script := script[1..];
      case Data(bytes) =>
        var n := Min(|bytes|, room);
        r := Received(bytes[..n]);
        if n > 0 {
          script := Taken(script, n);
        }
    }
  }

  /** What a read of at most `room` bytes returns, and the environment after it. */
  function Deliver(script: seq<IoEvent>, room: nat): (IoResult, seq<IoEvent>) {
    if script == [] then (Pending, []) else
    match script[0]
    case Cancel => (Pending, script[1..])
    case Fail(kind) => (IoFailure(kind), script[1..])
    case Data(bytes) =>
      var n := Min(|bytes|, room);
      (Received(bytes[..n]), if n == 0 then script else Taken(script, n))
  }

  datatype ReadStatus = Count(n: nat) | ReadError(kind: IoErrorKind) | Waiting

  /**
   `ReadBuffer`. The invariant is the refinement: what has been consumed, followed by the unread
   window, is everything that was ever delivered, in order.
   */
  class ReadBuffer {
    const buffer: array<u8>
    var begin: nat
    var end: nat
    ghost var consumed: seq<u8>
    ghost var delivered: seq<u8>

    ghost predicate Valid()
      reads this, buffer
    {
      && buffer.Length == MAX_FRAME_LENGTH
      && begin <= end <= buffer.Length
      && delivered == consumed + Unread()
    }

    ghost function Unread(): seq<u8>
      requires begin <= end <= buffer.Length
      reads this, buffer
    {
      buffer[begin..end]
    }

    constructor ()
      ensures Valid() && fresh(buffer)
      ensures begin == end == 0 && delivered == [] && consumed == []
    {
      buffer := new u8[MAX_FRAME_LENGTH](_ => 0);
      begin, end := 0, 0;
      consumed, delivered := [], [];
    }

    method Len() returns (n: nat)
      requires Valid()
      ensures n == |Unread()|
    {
      n := end - begin;
    }

    method Read(count: nat) returns (r: Result<seq<u8>, InternalError>)
      requires Valid()
      modifies this
      ensures Valid() && end == old(end) && delivered == old(delivered)
      ensures r.Ok? <==> count <= |old(Unread())|
      ensures r.Ok? ==> r.value == old(Unread())[..count] && Unread() == old(Unread())[count..]
      ensures r.Err? ==> r.error == InsufficientBytesForRead(count, |old(Unread())|) && Unread() == old(Unread())
    {
      if end - begin < count {
        return Err(InsufficientBytesForRead(count, end - begin));
      }
      r := Ok(buffer[begin..begin + count]);
      assert Unread() == buffer[begin..begin + count] + buffer[begin + count..end];
      consumed := consumed + buffer[begin..begin + count];
      begin := begin + count;
    }

    method ReadU8() returns (r: Result<u8, InternalError>)
      requires Valid()
      modifies this
      ensures Valid() && end == old(end) && delivered == old(delivered)
      ensures r.Ok? <==> old(Unread()) != []
      ensures r.Ok? ==> r.value == old(Unread())[0] && Unread() == old(Unread())[1..]
      ensures r.Err? ==> r.error == InsufficientBytesForRead(1, 0) && Unread() == old(Unread())
    {
      if begin == end {
        return Err(InsufficientBytesForRead(1, 0));
      }
      r := Ok(buffer[begin]);
      assert Unread() == [buffer[begin]] + buffer[begin + 1..end];
      consumed := consumed + [buffer[begin]];
      begin := begin + 1;
    }

    /**
     As written, the guard lets `idx` equal the length of the window, and then the answer is
     whatever byte lies behind it in the buffer.
     */
    method PeekAt(idx: nat) returns (r: Result<u8, InternalError>)
      requires Valid()
      ensures idx < |Unread()| ==> r == Ok(Unread()[idx])
      ensures r.Ok? <==> idx <= |Unread()| && begin + idx < MAX_FRAME_LENGTH
      ensures r.Ok? && idx == |Unread()| ==> r.value == buffer[end]
    {
      if end - begin < idx || begin + idx >= buffer.Length {
        return Err(InsufficientBytesForRead(idx + 1, end - begin));
      }
      r := Ok(buffer[begin + idx]);
    }

    method ReadU16Be() returns (r: Result<u16, InternalError>)
      requires Valid()
      modifies this
      ensures Valid() && end == old(end) && delivered == old(delivered)
      ensures r.Ok? <==> 2 <= |old(Unread())|
      ensures r.Ok? ==> r.value == FromBe16(old(Unread())[0], old(Unread())[1])
      ensures Unread() == old(Unread())[Min(2, |old(Unread())|)..]
    {
      var b1 := ReadU8();
      if b1.Err? {
        return Err(b1.error);
      }
      var b2 := ReadU8();
      if b2.Err? {
        return Err(b2.error);
      }
      r := Ok(FromBe16(b1.value, b2.value));
    }

    method ReadU16Le() returns (r: Result<u16, InternalError>)
      requires Valid()
      modifies this
      ensures Valid() && end == old(end) && delivered == old(delivered)
      ensures r.Ok? <==> 2 <= |old(Unread())|
      ensures r.Ok? ==> r.value == FromBe16(old(Unread())[1], old(Unread())[0])
      ensures Unread() == old(Unread())[Min(2, |old(Unread())|)..]
    {
      var b1 := ReadU8();
      if b1.Err? {
        return Err(b1.error);
      }
      var b2 := ReadU8();
      if b2.Err? {
        return Err(b2.error);
      }
      r := Ok(FromBe16(b2.value, b1.value));
    }

    /** The index adjustments at the head of `read_some`. */
    method Reindex()
      requires Valid()
      modifies this, buffer
      ensures Valid() && consumed == old(consumed) && delivered == old(delivered)
      ensures Unread() == old(Unread())
      ensures begin == if old(begin == end) then 0 else old(begin)
    {
      if begin == end {
        begin, end := 0, 0;
      }
      var length := end - begin;
      if end == length {
        // copy_within(begin..end, 0)
        forall i | 0 <= i < length {
          buffer[i] := buffer[begin + i];
        }
        begin, end := 0, length;
      }
    }

    method Append(bytes: seq<u8>)
      requires Valid() && end + |bytes| <= MAX_FRAME_LENGTH
      modifies this, buffer
      ensures Valid() && consumed == old(consumed) && begin == old(begin)
      ensures Unread() == old(Unread()) + bytes && delivered == old(delivered) + bytes
    {
      forall i | 0 <= i < |bytes| {
        buffer[end + i] := bytes[i];
      }
      end := end + |bytes|;
      delivered := delivered + bytes;
      assert Unread() == old(Unread()) + bytes;
    }

    /** Append what one read of the physical layer delivers. */
    method ReadSome(io: PhysLayer) returns (r: ReadStatus)
      requires Valid()
      modifies this, buffer, io
      ensures Valid() && consumed == old(consumed)
      ensures begin == if old(begin == end) then 0 else old(begin)
      ensures var (res, script) := Deliver(old(io.script), MAX_FRAME_LENGTH - (if old(begin == end) then 0 else old(end)));
              && io.script == script
              && r == StatusOf(res)
              && Unread() == old(Unread()) + BytesOf(res)
              && delivered == old(delivered) + BytesOf(res)
    {
      Reindex();
      var res := io.Read(buffer.Length - end);
      r := StatusOf(res);
      if r.Count? {
        Append(res.bytes);
      }
    }
  }

  function BytesOf(res: IoResult): seq<u8> { if res.Received? then res.bytes else [] }

  /** A read of zero bytes is the end of the stream, whatever its cause. */
  function StatusOf(res: IoResult): ReadStatus {
    match res
    case Pending => Waiting
    case IoFailure(kind) => ReadError(kind)
    case Received(bytes) => if bytes == [] then ReadError(UnexpectedEof) else Count(|bytes|)
  }
}
