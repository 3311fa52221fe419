# rodbus in Dafny

This project models the core of rodbus, a Modbus client and server, and proves what holds of it for
every input and over every run:

- **Framing.** The 260-byte receive buffer, the resumable MBAP and RTU parsers, `next_frame`, the
  CRC-16/MODBUS checksum, and the writer that back-patches a length or appends a checksum.
- **Codec.** Packing of bits and registers, bodies of requests and replies, their parsing on both sides.
- **Server.** Dispatch of a frame to user handlers, broadcast, authorization, the reply, the session
  loop, and the table of live sessions.
- **Client.** The client loop with its promises and transaction ids, the TCP and serial channel tasks,
  their listeners and the doubling retry strategy.

The main results cross these parts. `Streams.SessionEndToEnd` says that a list of requests, cut into
reads in any way and with `next_frame` cancelled anywhere, leaves the handlers as direct calls in the
same order would and yields replies that decode to the outcomes of those calls, for exactly as many
requests as the receive buffer lets through; `Reading.StallsIff` says which bytes those are, and
`ServerLoops.RunSession` is the loop it speaks about. `TcpChannels.TcpChannelTask.Run` and
`SerialChannels.SerialChannelTask.Run` say of every run of a channel that each request completes exactly
once and in order, why it completed as it did, that transaction ids match, which bytes were sent and that
they were sent only while enabled and connected, what each session heard, and what the listener sees.
`ClientEndToEnd.PromisesAreDirectCalls` and `ClientEndToEnd.AnsweredByOwnReply` close the circle: a reply that
arrives and is looked at in time completes its promise, and what a promise is completed with is the outcome
of the call on the server's handler.

Code that computes values is modelled by functions; code that changes things is modelled by classes and
methods, each proved against a function of its inputs or of the old state. Files follow the source: one
module per file, `Types` first, `EndToEnd`, `Streams`, `ServerLoop` and `ClientEndToEnd` last. The client loop
and the channel tasks are functions of what happens (`ClientRuns`, and the first half of each channel's
module), and their methods are proved to be these functions and to keep the books.

What these functions say is stated apart from them, on events and on bytes. `CrcPolynomials` has the checksum as
the remainder of a division of polynomials, `WireFormats` the layout of every message and the exact cases of both
parsers; `ClientLaws` says which event ends each wait of a client and how, and `ChannelLaws` what a listener is
told of it.

## Environment

Sockets, serial ports, the clock and the scheduler are lists of events. `Reading.IoEvent` lists what a
read may meet: bytes, a failure, or the caller dropping the future at its await. `ClientRuns.Event` lists
what a channel task may meet, the bytes of its connection among them; an event that the task does not
wait for is ignored, so every list of events is a run. When the list is exhausted the task is dropped
where it waits. `ServerLoops.Turn` lists what else a turn of the server's loop may meet: a closed channel of
commands, and a write that fails. User handlers and authorization handlers are arbitrary functions over an
abstract state; handlers are shared by reference, so two units may map to the same one.

## Where the code and its comments differ

The model follows the code. The lemmas named here say exactly what follows from it.

- `rodbus/src/common/buffer.rs:93-99`: the comment wants a shift when the buffer is full, but the test
  compares `end` with the window's length, which is equal only when `begin` is zero, and then the shift
  moves nothing. A window that touches the end of the buffer and not its front therefore leaves no room,
  the read returns zero bytes, and the connection ends with `UnexpectedEof` (`Reading.NoRoomIffStalled`).
  So the promise that a stream gets through however it is cut is false; the input is
  `Streams.PipelinedRequestsStall`, 22 pipelined requests in one burst. The exact condition is
  `Reading.StallsIff`, for every list of reads and cancellations: `Reading.Reach` computes from the stream and
  the sizes of the reads alone which bytes get through, and everything does unless `Reading.Stalls`.
  `Reading.BurstStallsIff` is what that means for a peer that sends everything at once, and
  `Reading.LockStepNeverStalls` for one that waits its turn.
- `rodbus/src/common/buffer.rs:59`: `peek_at` lets the index equal the length of the window
  (`Buffers.ReadBuffer.PeekAt` says what it then returns); the parsers never use that.
- `rodbus/src/types.rs:316`: the address iterator steps past 65535 exactly for ranges that end there
  (`Bits.Addresses`). The model wraps; a build with overflow checks stops.
- `rodbus/src/constants.rs:16-18`: the limits for multiple writes are not enforced; the real limits are
  1976 coils and 123 registers, and the RTU writer formats more than its parser accepts
  (`EndToEnd.ArrivesIff`, `RoundTrip.RtuRoundTripIff`).
- `rodbus/src/server/handler.rs:10-12` promises `IllegalDataAddress` for ranges that overflow; the code
  answers `IllegalDataValue` (`rodbus/src/server/task.rs:167-175`), whatever the handler:
  `ServerSessions.OverflowIsIllegalDataValue`. `IllegalDataAddress` is answered exactly when the handler
  itself raised it: `ServerSessions.IllegalDataAddressIff`.
- `rodbus/src/tcp/client.rs:93`: the reader of a channel outlives its connections, and an I/O error does not
  reset it (`rodbus/src/common/frame.rs:461`). So the promise that a connection is read as by a fresh reader is
  false; the input is `Streams.StaleByteSpoilsReply`, one byte before the failure. A caller gets what a fresh
  reader would return, on every next connection, if and only if the old one left neither bytes nor the head
  of a frame (`Streams.ReadsAsFreshIff`).
- `rodbus/src/tcp/client.rs:181-190`: a TCP channel that is disabled in a session tells its listener of the wait
  first, and waits, before it tells that it is disabled (`ChannelLaws.DisabledWhileWaiting`). In all other states a
  disabled channel has told so (`ChannelLaws.ListenerKnows`); a serial channel always has
  (`ChannelLaws.PortListenerKnows`).
- `rodbus/src/retry.rs:39-53`: the waits are the capped doublings of the minimum exactly when the minimum
  does not exceed the maximum (`Retry.CappedDoublingIff`); `Retry.Delay` is what they are in general.
- A handler mapped under several units executes a broadcast once per unit (`ServerSessions.BroadcastWrite`).

## Model

| member | source | states |
|---|---|---|
| `Crc.BurstDetected` | rodbus/src/serial/frame.rs:22 | any error burst of at most 16 bits, wherever it starts, changes the checksum register |
| `Crc.FrameRegister` | rodbus/src/serial/frame.rs:177-190 | a frame carries its own checksum if and only if the whole frame leaves the register at zero |
| `Crc.TwoPartDigest` | rodbus/src/serial/frame.rs:178-183 | the digest fed the address and then the payload is the checksum over their concatenation that the writer computes |
| `Crc.UpdateKeepsDifference` | rodbus/src/serial/frame.rs:178-183 | registers that differ stay different under any common continuation |
| `CrcPolynomials.ChecksumIsRemainder` | rodbus/src/serial/frame.rs:22 | the checksum of any message is the remainder of its bits, each byte lowest bit first, preceded by sixteen ones and shifted by sixteen, modulo x^16 + x^15 + x^2 + 1 |
| `CrcPolynomials.WorkedExample` | rodbus/src/serial/frame.rs:22 | 02 07 has the checksum bytes 41 12, as in section 6.2.2 of MODBUS over Serial Line V1.02 |
| `CrcPolynomials.NineDigits` | rodbus/src/serial/frame.rs:22 | the check value of CRC-16/MODBUS is 0x4B37 |
| `Framing.ParseOneStable` | rodbus/src/common/frame.rs:187-197 | a frame or error, once decided, is the same whatever arrives later; a parser that waited goes on as if it had seen all bytes at once (MBAP, RTU requests, RTU responses) |
| `Framing.ParseOneProgress` | rodbus/src/common/frame.rs:183-186 | parsing consumes from the front only, keeps the parser state within its bounds, never returns a frame or error for nothing, and never a payload over 253 bytes |
| `Framing.ParseAllResumes` | rodbus/src/common/frame.rs:452-469 | parsing what has arrived and then the rest gives the frames, errors, state and leftover of parsing everything at once |
| `Reading.RunIsOneShot` | rodbus/src/common/frame.rs:452-469 | for every environment, the frames and errors that repeated calls of `next_frame` return are those of a one-shot parse of the bytes delivered, whatever the reads and cancellations |
| `Reading.HealthyRun` | rodbus/src/common/frame.rs:452-469 | on a connection that does not fail, either every byte is delivered and the run is the one-shot parse of the stream, or the buffer stalled before the rest |
| `Reading.UnreadBound` | rodbus/src/serial/frame.rs:155-167 | a parser that asks for more leaves at most 254 unread bytes |
| `Reading.NoRoomIffStalled` | rodbus/src/common/buffer.rs:86-101 | a waiting reader has no room if and only if its window touches the end of the buffer, is not empty and does not start at the front |
| `Reading.RunReaches` | rodbus/src/common/buffer.rs:81-108 | from any reader, a run over any reads and cancellations delivers exactly the bytes computed from the stream and the sizes of the reads |
| `Reading.StallsIff` | rodbus/src/common/frame.rs:452-469 | on a connection that does not fail, everything is delivered if and only if that computation does not stop early; if it does, the run ends with the report of an end of stream; the frames are those of a one-shot parse of what was delivered |
| `Reading.HeardThen` | rodbus/src/common/frame.rs:452-469 | what two parts of a connection returned, one after the other, is what a one-shot parse finds in the bytes of both |
| `Reading.BurstStallsIff` | rodbus/src/common/buffer.rs:81-108 | a peer that sends everything at once gets through if and only if no full buffer but the last ends in bytes that the parser has to keep; otherwise the run breaks off after the first that does |
| `Reading.LockStepNeverStalls` | rodbus/src/common/buffer.rs:81-108 | a peer that sends a frame only when the last one has been taken never stalls the buffer, however each frame is cut and whatever is cancelled |
| `Buffers.ReadBuffer.Read` | rodbus/src/common/buffer.rs:29-41 | takes exactly the first bytes of the window or fails and takes none; consumed bytes followed by the window stay equal to everything delivered |
| `Buffers.ReadBuffer.ReadU8` | rodbus/src/common/buffer.rs:43-54 | takes the first byte of the window, or fails on an empty one |
| `Buffers.ReadBuffer.PeekAt` | rodbus/src/common/buffer.rs:57-66 | returns the byte in the window; succeeds one past it too, with whatever lies behind |
| `Buffers.ReadBuffer.ReadU16Be` | rodbus/src/common/buffer.rs:68-72 | big-endian word from the first two bytes; on failure the single byte is consumed |
| `Buffers.ReadBuffer.ReadU16Le` | rodbus/src/common/buffer.rs:75-79 | the same, little-endian |
| `Buffers.ReadBuffer.ReadSome` | rodbus/src/common/buffer.rs:81-108 | appends what one read delivers within the room left, keeps consumed and window in order, reports a read of nothing as end of stream |
| `FramedReaders.RtuParser.Parse` | rodbus/src/serial/frame.rs:104-203 | state, window and result are those of the parsing function; every buffer operation succeeds and every frame fits |
| `FramedReaders.MbapParser.Parse` | rodbus/src/tcp/frame.rs:87-120 | the same for MBAP |
| `FramedReaders.MbapParser.ParseHeader` | rodbus/src/tcp/frame.rs:44-75 | consumes the seven header bytes and accepts exactly protocol zero and lengths 1 to 254 |
| `FramedReaders.FramedReader.NextFrame` | rodbus/src/common/frame.rs:452-469 | reader, environment, result and delivered bytes are those of the function over which whole runs are defined |
| `Bits.PackedBit` | rodbus/src/common/serialize.rs:137-156 | every bit of a packed sequence is where the iterator looks for it and the padding is zero |
| `Bits.BitRoundTrip` | rodbus/src/types.rs:164-183 | iterating over packed bits yields each value with its address, in order |
| `Bits.RegisterRoundTrip` | rodbus/src/types.rs:192-210 | iterating over packed registers yields each value with its address, in order |
| `Bits.BitIterator.Next` | rodbus/src/types.rs:167-183 | yields the item at its position and steps, and ends at the count |
| `Bits.BitIterator.Collect` | rodbus/src/client/requests/read_bits.rs:62-72 | collects all remaining items |
| `Bits.RegisterIterator.Next` | rodbus/src/types.rs:195-210 | yields the item at its position and steps, and ends at the count |
| `Bits.Addresses` | rodbus/src/types.rs:309-323 | the addresses of a range in order; the increment overflows if and only if the range ends at 65535 |
| `Types.TryRange` | rodbus/src/types.rs:247-259 | accepts exactly the non-empty ranges that end at or below 65535 |
| `Serialize.PackChunk` | rodbus/src/common/serialize.rs:144-152 | the inner loop computes the packed byte |
| `Serialize.WriteCursor.SerializeBools` | rodbus/src/common/serialize.rs:137-156 | writes count and packed bits after what was there, or stops with exactly the error that the byte count or the room dictates |
| `Serialize.WriteCursor.SerializeBits` | rodbus/src/common/serialize.rs:158-193 | the accumulator loop writes the same for the bits its getter returns, and stops with the exception of the first address that fails |
| `Serialize.WriteCursor.SerializeWords` | rodbus/src/common/serialize.rs:266-277 | writes count and big-endian words, or stops with the error dictated |
| `Serialize.WriteCursor.SerializeRegisters` | rodbus/src/common/serialize.rs:221-238 | the same through a getter |
| `Serialize.WriteCursor.SerializeBody` | rodbus/src/common/serialize.rs:29-291 | every body is written as its emission says, whatever the room |
| `Serialize.PackersAgree` | rodbus/src/common/serialize.rs:137-193 | the chunked packer and the accumulator emit identical bytes and errors |
| `Serialize.RegisterWritersAgree` | rodbus/src/common/serialize.rs:221-277 | so do the two register writers |
| `FrameWriters.FrameWriter.FormatMbap` | rodbus/src/tcp/frame.rs:127-169 | the slice returned is a function of the arguments: header, back-patched length, function, body; stale bytes never show |
| `FrameWriters.FrameWriter.FormatRtu` | rodbus/src/serial/frame.rs:210-230 | the slice returned is a function of the arguments: address, function, body, checksum |
| `FrameWriters.FrameWriter.FormatEx` | rodbus/src/common/frame.rs:339-355 | an exception frame depends on its arguments only |
| `FrameWriters.FrameWriter.FormatReply` | rodbus/src/common/frame.rs:305-322 | however far a failing body got, the result is the exception frame that a fresh writer would return |
| `RoundTrip.MbapRoundTrip` | rodbus/src/tcp/frame.rs:127-169 | an MBAP frame with a PDU of at most 253 bytes is parsed back exactly, nothing left over |
| `RoundTrip.WrittenHeaderIsAccepted` | rodbus/src/tcp/frame.rs:127-169 | every frame the MBAP writer returns has a length field in 2..254, equal to its size less six, that the parser accepts |
| `RoundTrip.RtuRoundTripIff` | rodbus/src/serial/frame.rs:155-163 | an RTU frame with a delimited PDU comes back if and only if the PDU has at most 253 bytes |
| `RoundTrip.CorruptionDetected` | rodbus/src/serial/frame.rs:177-190 | an accepted frame with an error burst of at most 16 bits, checksum included, and its inferred length unchanged, ends in a checksum failure |
| `RoundTrip.FramesInARow` | rodbus/src/common/frame.rs:452-469 | frames printed one after the other come back one after the other, nothing left over |
| `WireFormats.RtuLayout` | rodbus/src/serial/frame.rs:210-230 | byte for byte: address, PDU, and the polynomial remainder of both, low byte first |
| `WireFormats.RtuFrameIff` | rodbus/src/serial/frame.rs:68-203 | a new RTU frame is an unknown function, waits, is too long, fails its checksum, or is a frame, each exactly when the table of lengths and the bytes say so, and takes so many bytes |
| `WireFormats.MbapLayout` | rodbus/src/tcp/frame.rs:127-169 | byte for byte: transaction id, zero, length of unit and PDU, unit, PDU |
| `WireFormats.MbapFrameIff` | rodbus/src/tcp/frame.rs:44-120 | the same cases for a new MBAP frame, with their errors in the order of the checks |
| `WireFormats.RequestLayout` | rodbus/src/common/serialize.rs:29-291 | every request, byte for byte: function code, words high byte first, byte count, bits lowest first |
| `WireFormats.ReplyLayout` | rodbus/src/server/request.rs:83-145 | every plain reply, byte for byte, with the value that the handler reads at each address in its place |
| `WireFormats.ExceptionLayout` | rodbus/src/common/frame.rs:339-355 | an exception reply is the marked function code and the code of the exception |
| `WireFormats.ExceptionCodes` | rodbus/src/exception.rs:41-89 | the nine codes, and that every exception but an unknown one with a known code comes back as itself |
| `ServerRequests.ParsedRequestIsValid` | rodbus/src/server/request.rs:147-204 | a parsed request is within the read limits and carries the function code it came with |
| `ServerRequests.AcceptedRequests` | rodbus/src/server/request.rs:147-204 | which bytes are accepted after each function code: exact lengths, ranges in the address space, at most 2000 bits or 125 registers to read, two values of a coil; and no others |
| `ServerRequests.AcceptedRequestIs` | rodbus/src/server/request.rs:147-204 | and what they are read as, value by value |
| `ServerRequests.ReplyFits` | rodbus/src/server/request.rs:83-145 | for every request that parsing accepts and any handler, a reply is written in both framings |
| `ServerSessions.SessionTask.HandleFrame` | rodbus/src/server/task.rs:143-233 | handlers, answer and bytes sent are those of the dispatch function; a failing write is an error, but the handler has been called |
| `ServerSessions.SessionTask.ExecuteBroadcast` | rodbus/src/server/task.rs:224-228 | visits every mapped handler once, in the order of units |
| `ServerSessions.NothingElseChanges` | rodbus/src/server/task.rs:143-233 | what cannot be parsed, is denied, is for no mapped unit or only reads changes no handler |
| `ServerSessions.UnicastGate` | rodbus/src/server/task.rs:184-199 | a request that the authorization handler denies changes nothing and is answered with `IllegalFunction`; any other is handled as without authorization |
| `ServerSessions.BroadcastGate` | rodbus/src/server/task.rs:184-199 | a denied broadcast changes nothing and is not answered; any other is handled as without authorization |
| `ServerSessions.MalformedIsNotAsked` | rodbus/src/server/task.rs:146-175 | what cannot be parsed is answered alike whatever the authorization |
| `ServerSessions.SilentIff` | rodbus/src/server/task.rs:143-233 | exactly which frames are not answered: empty ones, broadcasts, and allowed requests for a unit that is not mapped |
| `ServerSessions.UnicastWrite` | rodbus/src/server/task.rs:203-219 | a write to a unit acts on its handler as a direct call and on no other |
| `ServerSessions.BroadcastWrite` | rodbus/src/server/task.rs:220-229 | a broadcast write is not answered, executes on each handler once per unit mapped to it, hence exactly once when none is shared, and on no other |
| `ServerSessions.ReplyMatchesRequest` | rodbus/src/server/task.rs:57-81 | replying never fails; an answer goes only to a unicast frame, with its address and transaction id, function code plain or marked, and a PDU whose length a client can infer |
| `ServerSessions.ReplyDelimited` | rodbus/src/serial/frame.rs:91-100 | the byte from which a client infers a reply's length is the byte count that was written |
| `ServerSessions.ExceptionReplyIff` | rodbus/src/server/task.rs:143-219 | a unicast frame is answered with an exception byte if and only if the first check that fails, or else the handler, raises it |
| `ServerSessions.IllegalDataAddressIff` | rodbus/src/server/handler.rs:10-12 | a unicast frame is answered with `IllegalDataAddress` if and only if it carries an allowed request for a mapped unit whose handler raises that code itself |
| `ServerSessions.OverflowIsIllegalDataValue` | rodbus/src/server/task.rs:167-175 | a range that leaves the address space is answered with `IllegalDataValue` and calls no handler |
| `ServerLoops.RunSession` | rodbus/src/server/task.rs:83-90 | what a session sends and does to the handlers is what the frames of a one-shot parse of the bytes delivered determine: all of them if the reader ends it, else those up to the closing of the command channel or to the reply that could not be written, whose request was carried out |
| `ServerLoops.RunOne` | rodbus/src/server/task.rs:117-133 | one turn of the loop handles the next frame of that parse, if any, and ends the session exactly on a closed command channel, an error of the reader, with that error, or a reply that cannot be written |
| `ClientRequests.WriteMultipleFrom` | rodbus/src/client/requests/write_multiple.rs:31-38 | accepts exactly the non-empty lists whose addresses fit, with their count |
| `ClientRequests.SuccessfulResponses` | rodbus/src/client/message.rs:59-81 | which bytes complete a request with success, for all eight kinds: the echo byte for byte, or the function code, a count byte and exactly the packed length; and no others |
| `ClientRequests.ResponseValues` | rodbus/src/client/requests/read_bits.rs:82-100 | and with which values: each address with its bit or word |
| `ClientRequests.RefusedResponses` | rodbus/src/client/message.rs:59-118 | why any other response is refused, with the errors in the order of the checks |
| `ClientRequests.ExceptionResponses` | rodbus/src/client/message.rs:83-118 | a response is an exception if and only if it is the marked function code and one byte |
| `ClientRequests.MismatchedEcho` | rodbus/src/client/requests/write_single.rs:62-64 | the echo of a register is a mismatch if and only if it is well formed and differs in a byte |
| `EndToEnd.RequestParses` | rodbus/src/server/request.rs:147-204 | the server parses every request body that the client writes back to that request, with every value at its address |
| `EndToEnd.RequestDelimited` | rodbus/src/serial/frame.rs:80-90 | the length that the RTU server infers for a request is its real length |
| `EndToEnd.ReplyDecodes` | rodbus/src/client/message.rs:59-81 | a reply that is not an exception decodes to the values or the echo of the direct call |
| `EndToEnd.ExceptionDecodes` | rodbus/src/client/message.rs:83-118 | an exception reply decodes to its code, up to the byte it became |
| `EndToEnd.ExchangeIsDirectCall` | rodbus/src/client/task.rs:188-230 | over both framings, a request to a mapped, authorized unit changes only that unit's handler, as the direct call does, and completes with the outcome of the direct call |
| `EndToEnd.BroadcastIsNeverAnswered` | rodbus/src/server/task.rs:220-229 | over RTU a request to unit zero is carried out as a broadcast, if it is a write, and never answered |
| `EndToEnd.ArrivesIff` | rodbus/src/common/serialize.rs:16-27 | a request is read back by the server if and only if it is no multiple write of more than 1976 coils or 123 registers; what an RTU client formats beyond that is refused as too long |
| `Streams.RequestStream` | rodbus/src/serial/frame.rs:104-203 | any list of requests written one after the other is read back as that list, in both framings |
| `Streams.ReplyStream` | rodbus/src/serial/frame.rs:68-102 | any list of RTU replies, exceptions included, is read back as that list |
| `Streams.SessionIsDirectCalls` | rodbus/src/server/task.rs:83-90 | a session that receives a list of requests leaves the handlers as the direct calls do and answers each with its outcome, in order |
| `Streams.SessionEndToEnd` | rodbus/src/server/task.rs:117-133 | the same from the bytes on, for every cut into reads and every cancellation: a first part of the requests is carried out and answered, and it is all of them if and only if the buffer does not stall |
| `Streams.PrefixOfStream` | rodbus/src/common/frame.rs:452-469 | a prefix of a stream of whole frames yields a prefix of its frames, and all of them only if it is the whole stream |
| `Streams.ReadsAsFreshIff` | rodbus/src/tcp/client.rs:93 | on every next connection a reader returns the frames and errors that a fresh one would, if and only if it holds no bytes and waits for no rest of a frame |
| `Streams.StaleByteSpoilsReply` | rodbus/src/common/frame.rs:461 | a connection that brings one byte and fails: the next one's first reply, with id 1, is reported as a frame of an unknown protocol |
| `Streams.PipelinedRequestsStall` | rodbus/src/common/buffer.rs:93-101 | 22 or more short requests in one burst: 21 are returned, then an end of stream |
| `ClientLoops.Promise.Complete` | rodbus/src/client/message.rs:292-296 | a promise invokes its callback at most once |
| `ClientLoops.Promise.Drop` | rodbus/src/client/message.rs:299-306 | dropping a promise invokes the callback with `Shutdown` if nothing did before |
| `ClientLoops.Promise.HandleResponse` | rodbus/src/client/requests/read_bits.rs:82-100 | returns success if and only if it completed the promise with success |
| `ClientLoops.ClientLoop.NextTxId` | rodbus/src/common/frame.rs:56-65 | hands out the current id and steps modulo 65536 |
| `ClientLoops.ClientLoop.FailCommand` | rodbus/src/client/task.rs:253-268 | outside a session a request completes with `NoConnection`, and nothing else does; a setting is applied |
| `ClientLoops.ClientLoop.FailNextRequest` | rodbus/src/client/task.rs:253-268 | whatever it completes is completed with `NoConnection`, in order; what it returns, takes and leaves is a function of what happens |
| `ClientLoops.ClientLoop.WaitForEnabled` | rodbus/src/client/task.rs:119-129 | ends only when the channel is enabled or closed; until then requests complete with `NoConnection` |
| `ClientLoops.ClientLoop.FailRequests` | rodbus/src/client/task.rs:270-292 | while connecting or waiting, every request taken from the queue completes with `NoConnection`, and only a disable, a shutdown or the other branch ends it |
| `ClientLoops.ClientLoop.ExecuteRequest` | rodbus/src/client/task.rs:188-230 | the request's own frame is written, once, if it can be formatted; how the transaction ends is determined by the events and bytes that come: the formatting, write or read error, a bad frame, the timeout, or the first frame with its own id; all that it read is what a one-shot parse finds in the bytes delivered meanwhile |
| `ClientLoops.ClientLoop.AwaitResponse` | rodbus/src/client/task.rs:205-226 | looks at the connection whenever it is ready: skips exactly the frames with another id and ends with the first that has its own (any, for RTU), a bad frame, a read error or the deadline, whichever comes first |
| `ClientLoops.ClientLoop.RunOneRequest` | rodbus/src/client/task.rs:161-186 | exactly one completion and one transaction, with the same result; the session ends with it if and only if the result is an I/O or framing error |
| `ClientLoops.ClientLoop.Poll` | rodbus/src/client/task.rs:140-159 | one turn of a session: a command is run, or the first frame, framing error or I/O error on the idle connection is taken, and the errors end the session |
| `ClientLoops.ClientLoop.Run` | rodbus/src/client/task.rs:131-138 | so does a whole session; all that it hears is a one-shot parse of what its connection delivers, made of the parts of its transactions in their order and of what came between them |
| `ClientLoops.ClientLoop.Connection` | rodbus/src/tcp/client.rs:168-184 | a connection from its beginning to its end: the session on it, entered in the chronicle with the reader before and after |
| `ClientRuns.BooksTell` | rodbus/src/client/task.rs:172-183 | a result tells its cause: `NoConnection` if and only if the request was taken from the queue outside a session, `Shutdown` if and only if the task was dropped with it |
| `ClientLaws.WriteLaw` | rodbus/src/client/task.rs:201 | a write ends as the first completion of a write says, or never |
| `ClientLaws.AttemptLaw` | rodbus/src/tcp/client.rs:157-171 | a handshake, or the opening of a port, succeeds or fails as its first completion says, or never ends |
| `ClientLaws.WaitLaw` | rodbus/src/client/task.rs:253-292 | a wait outside a session ends with the first event that ends it, as that event says; until then the queue is served |
| `ClientLaws.ConnectLaw` | rodbus/src/tcp/client.rs:122-131 | a connect attempt has a result if and only if its completion comes before any interruption by the queue, and the one that the completion says |
| `ClientLaws.EnableLaw` | rodbus/src/client/task.rs:119-129 | a disabled channel sleeps until the first look at its queue that finds an `Enable`, or finds it closed and empty; other settings do not wake it |
| `ClientLaws.ResponseLaw` | rodbus/src/client/task.rs:205-226 | the first event that can end the wait for a response, the deadline or a look that finds an error or a frame that is not foreign, is its cause |
| `ClientLaws.AbandonedIff` | rodbus/src/client/task.rs:188-230 | a transaction is abandoned if and only if its write, or the wait after it, never ends |
| `ClientLaws.TimeoutIff` | rodbus/src/client/task.rs:203-211 | a request completes with `ResponseTimeout` if and only if its deadline comes, after the write, before any look that ends the wait |
| `ClientLaws.IoErrorIff` | rodbus/src/client/task.rs:201-215 | a request completes with an I/O error if and only if its write fails with it or the first look that ends the wait finds it |
| `ClientLaws.BadFrameIff` | rodbus/src/client/task.rs:205-215 | a request completes with a framing error if and only if the first look that ends the wait finds it |
| `ClientLaws.AnswerDecides` | rodbus/src/client/task.rs:216-230 | if that look finds a frame, the frame has no id or the id of the transaction, and its payload decides the result |
| `ClientLaws.TurnEnds` | rodbus/src/client/task.rs:161-186 | a turn ends the session with an I/O error if and only if its request completed with that error, with a framing error if and only if it completed with one, and otherwise not, unless the task is dropped |
| `ClientLaws.PollLaw` | rodbus/src/client/task.rs:140-159 | a turn of a session is decided by the first look that finds something: an idle session drops frames, ends with framing and I/O errors, with a closed queue and when disabled |
| `ClientLaws.SessionLaw` | rodbus/src/client/task.rs:131-138 | a session ends with its first turn that ends with an error, and with that error |
| `ClientRuns.LateEcho` | rodbus/src/common/frame.rs:56-65 | a frame that carries the id of one transaction can have answered another only a multiple of 65536 transactions away |
| `ClientRuns.HeardMore` | rodbus/src/client/task.rs:131-159 | two parts of a session, each made of its transactions' parts in order, make one: no frame belongs to two transactions |
| `ClientRuns.PartOfSession` | rodbus/src/client/task.rs:205-226 | every transaction of a session read a part of what the session heard |
| `ClientRuns.ChronicleMore` | rodbus/src/tcp/client.rs:93 | the chronicle over all connections: each transaction belongs to one session, and each session starts with the reader that the last one left |
| `ClientEndToEnd.ReplyFrame` | rodbus/src/client/task.rs:205-230 | the server's reply to a transaction is one frame for the client, with the transaction's id, and decodes to the outcome of the call on the handler |
| `ClientEndToEnd.ReplyCompletes` | rodbus/src/client/task.rs:188-230 | a transaction whose bytes are taken and whose reply arrives, cut in any way, and is looked at before the deadline completes its promise with the outcome of the call, skips nothing, and leaves the reader at rest |
| `ClientEndToEnd.PromisesAreDirectCalls` | rodbus/src/client/task.rs:131-230 | over both framings, a session in which every reply is in time completes its promises, in order, with the outcomes of the direct calls, each on the handlers that the others left |
| `ClientEndToEnd.OrderlyExchange` | rodbus/src/client/task.rs:140-230 | a submitted request, a write that is taken, the reply and a look at it are such an exchange |
| `ClientEndToEnd.AnsweredByOwnReply` | rodbus/src/client/task.rs:205-226 | over TCP, whichever replies a connection delivers, late, repeated, out of order or broken off: a promise that a frame completes is completed by the reply to a request a multiple of 65536 away, hence by its own and with the outcome of its own call, unless a reply that old is delivered |
| `TcpChannels.TcpChannelTask.Run` | rodbus/src/tcp/client.rs:99-120 | over every run: each request submitted completes exactly once, in order, with the result of its transaction, or `NoConnection` if and only if it was dequeued outside a session, or `Shutdown` if and only if the task was dropped; the n-th transaction has id n modulo 65536 and is answered only by a frame with that id; what is sent is the requests of the transactions, each while enabled and connected; the chronicle of its sessions is complete; the listener's updates are right, and complete if the run ended |
| `TcpChannels.TcpChannelTask.TryConnectAndRun` | rodbus/src/tcp/client.rs:133-197 | one round keeps all of that; its result, its updates and all that it completes are a function of what happens |
| `TcpChannels.OverIffCompleteRun` | rodbus/src/tcp/client.rs:99-197 | the automaton that the task is proved against accepts exactly the traces made of rounds: connecting, then failed and waiting, or connected and waiting, each closed by disabled or not, and one final shutdown |
| `ChannelLaws.AttemptUpdates` | rodbus/src/tcp/client.rs:133-172 | after `Connecting` the next update is `Connected` if and only if the connect completes with success, uninterrupted, and the next handshake too; it is the wait with the delay for the failures so far if and only if one of them fails; there is no other |
| `ChannelLaws.SessionUpdates` | rodbus/src/tcp/client.rs:171-192 | a connection that succeeds gets a session, and the listener is told of a wait after it if and only if it ended, and not by a shutdown |
| `ChannelLaws.ListenerKnows` | rodbus/src/tcp/client.rs:106-120 | at every moment of every run, a listener told last that the channel is disabled is right, and a disabled channel has told so, but for the wait after a session that it was disabled in |
| `ChannelLaws.DisabledWhileWaiting` | rodbus/src/tcp/client.rs:181-190 | that wait: the channel is disabled, and the listener was last told `WaitAfterDisconnect` |
| `ChannelLaws.ConnectsAfterRefusals` | rodbus/src/tcp/client.rs:99-197 | for every n, an enabled channel that is refused n times tells the n waits with their delays and then connects |
| `SerialChannels.SerialChannelTask.Run` | rodbus/src/serial/client.rs:42-64 | the same guarantees for the serial task, whose frames have no ids; its listener never sees disabled twice in a row, waits the minimum after a session, the doubled delay after a failed open, and sees shutdown last |
| `SerialChannels.SerialChannelTask.TryOpenAndRun` | rodbus/src/serial/client.rs:66-94 | one attempt keeps all of that and is a function of what happens; a disabled session does not wait |
| `ChannelLaws.PortUpdates` | rodbus/src/serial/client.rs:66-76 | the next update is `Open` if and only if the next attempt to open succeeds, and the wait with the delay for the failures so far if and only if it fails |
| `ChannelLaws.PortListenerKnows` | rodbus/src/serial/client.rs:49-64 | a disabled serial channel has always told its listener so, without exception |
| `Retry.DelayDoubles` | rodbus/src/retry.rs:44-48 | doubling the current wait and capping it gives the next wait of the closed form |
| `Retry.CappedDoublingIff` | rodbus/src/retry.rs:19-53 | every wait is the minimum doubled k times, capped at the maximum, if and only if the minimum does not exceed the maximum |
| `Retry.DelayBounds` | rodbus/src/retry.rs:18-21 | with the bounds in order, every wait lies between them |
| `Retry.Doubling.AfterFailedConnect` | rodbus/src/retry.rs:44-48 | returns the closed form for the number of failures so far |
| `SessionTrackers.SessionTracker.Add` | rodbus/src/tcp/server.rs:48-64 | gives the new session a fresh id and evicts the oldest when the table is full, every other sender untouched |
| `SessionTrackers.SessionTracker.Remove` | rodbus/src/tcp/server.rs:66-68 | removes the id if it is there and nothing else |
| `SessionTrackers.RunKeepsLimit` | rodbus/src/tcp/server.rs:27-69 | over any interleaving of accepts and closes the limit holds, and the n-th session accepted has id n |
| `SessionTrackers.NeverReused` | rodbus/src/tcp/server.rs:42-46 | an id that is no longer live is never live again |
| `SessionTrackers.OnlyTheOldestIsEvicted` | rodbus/src/tcp/server.rs:48-59 | accepting removes a live session if and only if the table is full and it is the oldest |
| `SessionTrackers.LateCloseIsHarmless` | rodbus/src/tcp/server.rs:165-170 | a close notification for a session that is already gone changes nothing |
| `SessionTrackers.StaysLive` | rodbus/src/tcp/server.rs:48-69 | a session that is not closed stays live until as many newer sessions were accepted as the limit allows |

## Left out

- TLS, certificates and roles: only an arbitrary authorization function is kept.
- The inter-character delay of serial ports and all other timing: delays are values, expiry is an event.
- Logging, decode levels and the `Display` implementations, and `WriteMultipleIterator`, which only they use.
- The counts inside `InsufficientWriteSpace` and the partial bytes of a failed two-byte write: `scursor` is not part of this model.
- Overflow of `Duration` in `2 * current` and of the 128-bit session ids: delays and ids are unbounded.
- The stream theorems are about one connection and a reader at rest; `Streams.ReadsAsFreshIff` says what that excludes.
- What a settings message changes in a running session, which is only what is logged; that it cancels `next_frame` is modelled.
- When a task is dropped, the request in flight completes before those in the queue; the order in which Rust drops them is not part of the claim.
- The bound on the number of queued commands: a sender that waits for room has not submitted yet.
- The serial server task (`rodbus/src/serial/server.rs`), which reopens its port around the same session.
- Address filters, the FFI layer, bindings, the command-line client and the deprecated callback session.
