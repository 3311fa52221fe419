/**
 The client loop as the object it is. Each method is proved to do what the function of the same name in
 `ClientRuns` says, and to keep the books.
 */
module ClientLoops {
  import opened Types
  import opened FrameWriters
  import opened ClientRequests
  import opened RoundTrip
  import opened ClientRuns
  import Framing
  import Reading
  import Buffers
  import FramedReaders

  /** Every callback that has been invoked, in order. */
  class Callbacks {
    var fired: seq<Completion>

    constructor ()
      ensures fired == []
    {
      fired := [];
    }
  }

  /** A promise takes its callback out when it completes; dropping it completes it with `Shutdown`. */
  class Promise {
    const id: nat
    const callbacks: Callbacks
    var callback: bool

    constructor (id: nat, callbacks: Callbacks)
      ensures this.id == id && this.callbacks == callbacks && callback
    {
      this.id, this.callbacks, callback := id, callbacks, true;
    }

    method Complete(result: RequestResult)
      modifies this, callbacks
      ensures !callback
      ensures callbacks.fired == if old(callback) then old(callbacks.fired) + [Completion(id, result)] else old(callbacks.fired)
    {
      if callback {
        callback := false;
        callbacks.fired := callbacks.fired + [Completion(id, result)];
      }
    }

    method Failure(error: RequestError)
      modifies this, callbacks
      ensures !callback
      ensures callbacks.fired == if old(callback) then old(callbacks.fired) + [Completion(id, Err(error))] else old(callbacks.fired)
    {
      Complete(Err(error));
    }

    method Drop()
      modifies this, callbacks
      ensures !callback
      ensures callbacks.fired == if old(callback) then old(callbacks.fired) + [Completion(id, Err(Shutdown))] else old(callbacks.fired)
    {
      Failure(Shutdown);
    }

    /** `handle_response` returns success exactly when it has completed the promise with success. */
    method HandleResponse(details: RequestDetails, payload: seq<u8>) returns (r: Option<RequestError>)
      requires callback
      modifies this, callbacks
      ensures var result := HandledResponse(details, payload);
              if result.Ok? then
                r.None? && !callback && callbacks.fired == old(callbacks.fired) + [Completion(id, result)]
              else
                r == Some(result.error) && callback && callbacks.fired == old(callbacks.fired)
    {
      hide HandledResponse;
      var result := HandledResponse(details, payload);
      match result
      case Err(e) => r := Some(e);
      case Ok(value) =>
        Complete(Ok(value));
        r := None;
    }
  }

  class ClientLoop {
    const writer: FrameWriter
    const reader: FramedReaders.FramedReader
    const callbacks: Callbacks
    var script: seq<Event>
    var socket: seq<Reading.IoEvent>
    var queue: seq<Command>
    var open: bool
    var enabled: bool
    var txId: u16
    ghost var inSession: bool
    ghost var submitted: seq<nat>
    ghost var inFlight: seq<nat>
    ghost var transactions: seq<Transaction>
    ghost var wire: seq<Transmission>
    ghost var origins: seq<Origin>
    // the reader as a value, and all that it was ever delivered
    ghost var now: Reading.Reader
    ghost var delivered: seq<u8>
    ghost var sessions: seq<Session>
    ghost const start: Reading.Reader

    ghost function Surroundings(): Env
      reads this`script, this`socket, this`queue, this`open
    {
      Env(script, socket, queue, open)
    }

    ghost function Standing(): Outside
      reads this`script, this`socket, this`queue, this`open, this`enabled, callbacks
    {
      Outside(Surroundings(), enabled, callbacks.fired)
    }

    ghost function State(): (s: Inside)
      reads this`script, this`socket, this`queue, this`open, this`enabled, this`transactions, this`now, callbacks
      ensures s.reader == now
    {
      Inside(Standing(), now, transactions)
    }

    /** Everything submitted has completed, in order, or is in flight, or waits in the queue. */
    ghost predicate Accounted()
      reads this`submitted, this`inFlight, this`queue, callbacks
    {
      submitted == Ids(callbacks.fired) + inFlight + QueueIds(queue)
    }

    ghost predicate Recorded()
      reads this`transactions, this`wire, this`origins, callbacks
    {
      Books(writer.format, transactions, wire, callbacks.fired, origins)
    }

    ghost predicate Valid()
      reads this`submitted, this`inFlight, this`queue, this`txId, this`transactions, this`wire, this`origins, callbacks
    {
      && writer.buffer.Length == MAX_FRAME_LENGTH
      && Accounted() && inFlight == []
      && txId == |transactions| % 0x1_0000
      && Recorded()
    }

    /** The reader is sound, is what `now` and `delivered` say, speaks the format of the writer, and has its own memory. */
    ghost predicate Linked()
      reads this`now, this`delivered, reader.ParserObject(), reader.buffer, reader.buffer.buffer
    {
      && reader.Valid() && reader.Value() == now && reader.buffer.delivered == delivered
      && (now.parser.Tcp? <==> writer.format.TcpFormat?)
      && writer.buffer != reader.buffer.buffer
    }

    /** No session is running, and the chronicle of those that were is complete. */
    ghost predicate Between()
      reads this`now, this`transactions, this`sessions
    {
      now.Valid() && Chronicled(sessions, transactions, start, now)
    }

    constructor (writer: FrameWriter, reader: FramedReaders.FramedReader, script: seq<Event>)
      requires writer.buffer.Length == MAX_FRAME_LENGTH && reader.Valid()
      requires (reader.Value().parser.Tcp? <==> writer.format.TcpFormat?) && writer.buffer != reader.buffer.buffer
      ensures Valid() && Linked() && Between() && !enabled && !inSession && open && queue == [] && this.script == script
      ensures this.writer == writer && this.reader == reader && fresh(callbacks)
      ensures callbacks.fired == [] && submitted == [] && transactions == [] && wire == [] && origins == []
      ensures start == now == reader.Value() && sessions == []
    {
      this.writer, this.reader := writer, reader;
      callbacks := new Callbacks();
      this.script, socket, queue, open, enabled, txId := script, [], [], true, false, 0;
      inSession, submitted, inFlight, transactions, wire, origins := false, [], [], [], [], [];
      now, start, delivered, sessions := reader.Value(), reader.Value(), reader.buffer.delivered, [];
      new;
      hide Books, Chronicled, FramedReaders.FramedReader.Valid, FramedReaders.FramedReader.Value;
      NothingOnTheBooks(writer.format);
      NothingChronicled(now);
    }

    /** A user puts a command in the queue, if the channel is open. */
    method Enqueue(command: Command)
      requires Accounted()
      modifies this`queue, this`submitted
      ensures Accounted() && old(submitted) <= submitted
      ensures queue == if open then old(queue) + [command] else old(queue)
    {
      hide Ids, QueueIds;
      if open {
        QueueIdsAppend(queue, command);
        queue := queue + [command];
        if command.Perform? {
          submitted := submitted + [command.request.id];
        }
      }
    }

    /** The next thing that happens to the task; submissions fill the queue, and bytes the socket. */
    method NextEvent() returns (e: Option<Event>)
      requires Accounted()
      modifies this`script, this`socket, this`queue, this`open, this`submitted
      ensures Accounted() && old(submitted) <= submitted
      ensures (e, Surroundings()) == Upcoming(old(Surroundings()))
    {
      while script != []
        invariant Accounted() && old(submitted) <= submitted
        invariant Upcoming(Surroundings()) == Upcoming(old(Surroundings()))
        decreases |script|
      {
        hide ClientLoop.Accounted, Upcoming;
        var event := script[0];
        EventFirst(event, script[1..], socket, queue, open);
        assert script == [event] + script[1..];
        script := script[1..];
        match event
        case Submit(command) => Enqueue(command);
        case CloseSenders => open := false;
        case Arrives(bytes) => socket := socket + [Reading.Data(bytes)];
        case Breaks(kind) => socket := socket + [Reading.Fail(kind)];
        case _ => return Some(event);
      }
      e := None;
    }

    /** `rx.recv()`: a queue that is empty and closed stays so. */
    method TryReceive() returns (r: Received)
      requires Accounted() && inFlight == []
      modifies this`queue, this`inFlight
      ensures Accounted()
      ensures (r, Surroundings()) == Dequeued(old(Surroundings()))
      ensures inFlight == if r.Taken? && r.command.Perform? then [r.command.request.id] else []
    {
      if queue == [] {
        return if open then NotReady else Closed;
      }
      r := Taken(queue[0]);
      if queue[0].Perform? {
        inFlight := [queue[0].request.id];
      }
      queue := queue[1..];
    }

    method ChangeSetting(setting: Setting)
      modifies this`enabled
      ensures enabled == Set(old(enabled), setting)
    {
      match setting
      case DecodeLevel =>
      case Enable => enabled := true;
      case Disable => enabled := false;
    }

    // ----- outside a session -----

    /** The promise of a request that is taken from the queue without a connection */
    method FailPromise(id: nat)
      requires !inSession && Recorded() && Undropped(origins, transactions)
      modifies this`origins, callbacks
      ensures Recorded() && Undropped(origins, transactions)
      ensures callbacks.fired == old(callbacks.fired) + [Completion(id, Err(NoConnection))]
    {
      hide Books, Undropped;
      var promise := new Promise(id, callbacks);
      promise.Failure(NoConnection);
      promise.Drop();
      BooksOutside(writer.format, transactions, wire, old(callbacks.fired), origins, Completion(id, Err(NoConnection)),
                   NotConnected);
      UndroppedMore(origins, transactions, NotConnected);
      origins := origins + [NotConnected];
    }

    /** A command that is dequeued without a connection: a request fails at once. */
    method FailCommand(command: Command) returns (change: Option<StateChange>)
      requires Accounted() && inFlight == if command.Perform? then [command.request.id] else []
      requires !inSession && Recorded() && Undropped(origins, transactions)
      modifies this`enabled, this`inFlight, this`origins, callbacks
      ensures Accounted() && inFlight == [] && Recorded() && Undropped(origins, transactions)
      ensures OnlyNoConnection(old(callbacks.fired), callbacks.fired)
      ensures (change, Standing()) == FailedCommand(old(Standing()), command)
    {
      hide Books, ClientLoop.Recorded, Undropped, QueueIds, Ids;
      match command
      case Perform(request) =>
        FailPromise(request.id);
        IdsAppend(old(callbacks.fired), Completion(request.id, Err(NoConnection)));
        inFlight := [];
        assert Ids(callbacks.fired) + inFlight == Ids(old(callbacks.fired)) + old(inFlight);
        change := None;
      case Change(setting) =>
        ChangeSetting(setting);
        change := if enabled then None else Some(ToDisabled);
    }

    /** The queue is looked at outside a session. */
    method FailReceived() returns (change: Option<Option<StateChange>>)
      requires Valid() && !inSession && Undropped(origins, transactions)
      modifies this`queue, this`inFlight, this`enabled, this`origins, callbacks
      ensures Valid() && Undropped(origins, transactions)
      ensures OnlyNoConnection(old(callbacks.fired), callbacks.fired)
      ensures (change, Standing()) == FailedReceived(old(Standing()))
    {
      hide ClientLoop.Accounted, ClientLoop.Recorded, Undropped, OnlyNoConnection, FailedCommand;
      NoCompletion(callbacks.fired);
      var received := TryReceive();
      match received
      case NotReady => change := None;
      case Closed => change := Some(Some(ToShutdown));
      case Taken(command) =>
        var c := FailCommand(command);
        change := Some(c);
    }

    /** One turn of `fail_next_request`'s wait */
    method FailNextTurn() returns (r: Option<Flow<Option<StateChange>>>)
      requires Valid() && !inSession && Undropped(origins, transactions)
      modifies this`script, this`socket, this`queue, this`open, this`submitted, this`inFlight, this`enabled, this`origins
      modifies callbacks
      ensures Valid() && Undropped(origins, transactions)
      ensures OnlyNoConnection(old(callbacks.fired), callbacks.fired)
      ensures r.None? ==> |script| < |old(script)|
      ensures FailedNext(old(Standing())) == if r.Some? then (r.value, Standing()) else FailedNext(Standing())
    {
      hide ClientLoop.Accounted, ClientLoop.Recorded, Undropped, OnlyNoConnection, Upcoming, FailedReceived;
      NoCompletion(callbacks.fired);
      var e := NextEvent();
      if e.None? {
        return Some(Dropped);
      }
      if !e.value.Receive? {
        return None;
      }
      var change := FailReceived();
      r := if change.None? then None else Some(Ended(change.value));
    }

    /** `fail_next_request` */
    method FailNextRequest() returns (r: Flow<Option<StateChange>>)
      requires Valid() && !inSession && Undropped(origins, transactions)
      modifies this`script, this`socket, this`queue, this`open, this`submitted, this`inFlight, this`enabled, this`origins
      modifies callbacks
      ensures Valid() && Undropped(origins, transactions)
      ensures OnlyNoConnection(old(callbacks.fired), callbacks.fired)
      ensures (r, Standing()) == FailedNext(old(Standing()))
    {
      hide *;
      NoCompletion(callbacks.fired);
      while true
        invariant Valid() && Undropped(origins, transactions)
        invariant OnlyNoConnection(old(callbacks.fired), callbacks.fired)
        invariant FailedNext(Standing()) == FailedNext(old(Standing()))
        decreases |script|
      {
        ghost var before := callbacks.fired;
        var end := FailNextTurn();
        NoConnectionThen(old(callbacks.fired), before, callbacks.fired);
        if end.Some? {
          return end.value;
        }
      }
    }

    /** `wait_for_enabled`; false when the channel was closed */
    method WaitForEnabled() returns (r: Flow<bool>)
      requires Valid() && !inSession && Undropped(origins, transactions)
      modifies this`script, this`socket, this`queue, this`open, this`submitted, this`inFlight, this`enabled, this`origins
      modifies callbacks
      ensures Valid() && Undropped(origins, transactions)
      ensures OnlyNoConnection(old(callbacks.fired), callbacks.fired)
      ensures (r, Standing()) == WaitedForEnabled(old(Standing()))
      ensures |script| <= |old(script)| && (r.Dropped? ==> script == [])
      ensures r == Ended(true) ==> enabled
      ensures r == Ended(false) ==> queue == [] && !open
    {
      hide ClientLoop.Valid, Undropped, OnlyNoConnection, FailedNext;
      NoCompletion(callbacks.fired);
      while !enabled
        invariant Valid() && Undropped(origins, transactions)
        invariant OnlyNoConnection(old(callbacks.fired), callbacks.fired)
        invariant WaitedForEnabled(Standing()) == WaitedForEnabled(old(Standing()))
        decreases |script|
      {
        ghost var before := callbacks.fired;
        var change := FailNextRequest();
        NoConnectionThen(old(callbacks.fired), before, callbacks.fired);
        if change.Dropped? {
          return Dropped;
        }
        if change.value == Some(ToShutdown) {
          return Ended(false);
        }
      }
      r := Ended(true);
    }

    /** One turn of `fail_requests` and of the branch that it races with */
    method FailTurn(connecting: bool) returns (r: Option<Flow<Result<bool, StateChange>>>)
      requires Valid() && !inSession && Undropped(origins, transactions)
      modifies this`script, this`socket, this`queue, this`open, this`submitted, this`inFlight, this`enabled, this`origins
      modifies callbacks
      ensures Valid() && Undropped(origins, transactions)
      ensures OnlyNoConnection(old(callbacks.fired), callbacks.fired)
      ensures r.None? ==> |script| < |old(script)|
      ensures FailedRequests(old(Standing()), connecting) ==
              if r.Some? then (r.value, Standing()) else FailedRequests(Standing(), connecting)
    {
      hide ClientLoop.Accounted, ClientLoop.Recorded, Undropped, OnlyNoConnection, Upcoming, FailedReceived;
      NoCompletion(callbacks.fired);
      r := None;
      var e := NextEvent();
      match e
      case None => r := Some(Dropped);
      case Some(ConnectDone(connected)) =>
        if connecting {
          r := Some(Ended(Ok(connected)));
        }
      case Some(DelayElapsed) =>
        if !connecting {
          r := Some(Ended(Ok(true)));
        }
      case Some(Receive) =>
        var change := FailReceived();
        if change.Some? && change.value.Some? {
          r := Some(Ended(Err(change.value.value)));
        }
      case Some(_) =>
    }

    /**
     `fail_requests` in a `select!` with a connect attempt (`connecting`) or with a retry delay:
     either a state change interrupts it, or the other branch completes first.
     */
    method FailRequests(connecting: bool) returns (r: Flow<Result<bool, StateChange>>)
      requires Valid() && !inSession && Undropped(origins, transactions)
      modifies this`script, this`socket, this`queue, this`open, this`submitted, this`inFlight, this`enabled, this`origins
      modifies callbacks
      ensures Valid() && Undropped(origins, transactions)
      ensures OnlyNoConnection(old(callbacks.fired), callbacks.fired)
      ensures (r, Standing()) == FailedRequests(old(Standing()), connecting)
      ensures r.Dropped? ==> script == []
      ensures r.Ended? ==> |script| < |old(script)|
      ensures r == Ended(Err(ToShutdown)) ==> queue == [] && !open
      ensures r == Ended(Err(ToDisabled)) ==> !enabled
      ensures r.Ended? && r.value.Ok? && old(enabled) ==> enabled
    {
      hide ClientLoop.Valid, Undropped, OnlyNoConnection, FailedRequests;
      FailedRequestsEnd(Standing(), connecting);
      NoCompletion(callbacks.fired);
      while true
        invariant Valid() && Undropped(origins, transactions)
        invariant OnlyNoConnection(old(callbacks.fired), callbacks.fired)
        invariant FailedRequests(Standing(), connecting) == FailedRequests(old(Standing()), connecting)
        decreases |script|
      {
        ghost var before := callbacks.fired;
        var end := FailTurn(connecting);
        NoConnectionThen(old(callbacks.fired), before, callbacks.fired);
        if end.Some? {
          return end.value;
        }
      }
    }

    /** A handshake (or, with `handshake` false, the opening of a port); the queue is not served meanwhile. */
    method AwaitAttempt(handshake: bool) returns (r: Flow<bool>)
      requires Valid()
      modifies this`script, this`socket, this`queue, this`open, this`submitted
      ensures Valid()
      ensures (r, Surroundings()) == AwaitedAttempt(old(Surroundings()), handshake)
      ensures r.Dropped? ==> script == []
      ensures r.Ended? ==> |script| < |old(script)|
    {
      hide ClientLoop.Accounted, ClientLoop.Recorded, Upcoming;
      while true
        invariant Valid()
        invariant AwaitedAttempt(Surroundings(), handshake) == AwaitedAttempt(old(Surroundings()), handshake)
        decreases |script|
      {
        var e := NextEvent();
        match e
        case None => return Dropped;
        case Some(HandshakeDone(secure)) =>
          if handshake {
            return Ended(secure);
          }
        case Some(ConnectDone(connected)) =>
          if !handshake {
            return Ended(connected);
          }
        case Some(_) =>
      }
    }

    // ----- inside a session -----

    /** A new connection: nothing has arrived on it yet. The reader keeps what it held. */
    method Connect()
      modifies this`socket, this`inSession
      ensures socket == [] && inSession
    {
      socket, inSession := [], true;
    }

    method NextTxId() returns (id: u16)
      modifies this`txId
      ensures id == old(txId) && txId == (old(txId) + 1) % 0x1_0000
    {
      id := txId;
      txId := if txId == 0xFFFF then 0 else txId + 1;
    }

    /** Poll `next_frame` once: it returns, or it has taken all that has arrived and is dropped at its await. */
    method PollReader() returns (r: FramedReaders.FrameResult, ghost status: Reading.Status)
      requires Linked() && now.Valid()
      modifies this`socket, this`now, this`delivered, reader.ParserObject(), reader.buffer, reader.buffer.buffer
      ensures Linked() && now.Valid()
      ensures Listened(old(now), old(delivered), Reading.OutputsOf(status), now, delivered)
      ensures (status, Surroundings(), now) == Looked(old(Surroundings()), old(now))
      ensures r == FramedReaders.ReturnOf(status)
      ensures match status
              case Output(Got(frame)) => frame.txId.Some? <==> writer.format.TcpFormat?
              case Output(More) => false
              case _ => true
    {
      hide FramedReaders.FramedReader.Valid, FramedReaders.FramedReader.Value, Reading.NextFrame, Reading.Heard;
      Reading.NextFrameKind(now, socket);
      Reading.NextFrameHeard(now, socket);
      ghost var next := Reading.NextFrame(now, socket);
      status := next.status;
      var io := new Buffers.PhysLayer(socket);
      r := reader.NextFrame(io);
      socket := io.script;
      now, delivered := next.reader, delivered + next.delivered;
    }

    /** Wait for the physical layer to take the bytes. */
    method AwaitWrite() returns (r: Flow<Option<IoErrorKind>>)
      requires Accounted()
      modifies this`script, this`socket, this`queue, this`open, this`submitted
      ensures Accounted()
      ensures (r, Surroundings()) == AwaitedWrite(old(Surroundings()))
    {
      hide ClientLoop.Accounted, Upcoming;
      while true
        invariant Accounted()
        invariant AwaitedWrite(Surroundings()) == AwaitedWrite(old(Surroundings()))
        decreases |script|
      {
        var e := NextEvent();
        match e
        case None => return Dropped;
        case Some(WriteDone(error)) => return Ended(error);
        case Some(_) =>
      }
    }

    /** A look at the connection while a response is awaited: the wait ends, or a foreign frame is skipped, or nothing. */
    method LookForResponse(id: u16)
      returns (r: Option<Flow<Result<Frame, RequestError>>>, ghost skipped: seq<Frame>, ghost cause: Cause)
      requires Linked() && now.Valid()
      modifies this`socket, this`now, this`delivered, reader.ParserObject(), reader.buffer, reader.buffer.buffer
      ensures Linked() && now.Valid()
      ensures AllForeign(id, skipped)
      ensures var (status, env, after) := Looked(old(Surroundings()), old(now));
              && Surroundings() == env && now == after
              && Listened(old(now), old(delivered), Gots(skipped) + (if r.None? then [] else Last(cause)), now, delivered)
              && match status
                 case Failed(kind) => r.Some? && skipped == [] && cause == ReadFailed(kind)
                 case Output(Bad(error)) => r.Some? && skipped == [] && cause == BadlyFramed(error)
                 case Output(Got(frame)) =>
                   if Foreign(id, frame) then r.None? && skipped == [frame]
                   else r.Some? && skipped == [] && cause == AnsweredBy(frame)
                 case _ => r.None? && skipped == []
      ensures r.Some? ==> Concludes(writer.format, id, cause, r.value)
    {
      hide Linked, Listened, Looked;
      r, skipped, cause := None, [], Abandoned;
      var result, status := PollReader();
      match result {
        case Dropped =>
        case Returned(Err(error)) =>
          r := Some(Ended(Err(error)));
          cause := if error.Io? then ReadFailed(error.kind) else BadlyFramed(error.frameError);
        case Returned(Ok(frame)) =>
          if frame.txId.None? || frame.txId.value == id {
            r, cause := Some(Ended(Ok(frame))), AnsweredBy(frame);
          } else {
            skipped := [frame];
            OneGot(frame);
          }
      }
      assert Gots(skipped) + (if r.None? then [] else Last(cause)) == Reading.OutputsOf(status);
    }

    /** One turn of the wait for a response */
    method ResponseTurn(id: u16)
      returns (r: Option<Flow<Result<Frame, RequestError>>>, ghost skipped: seq<Frame>, ghost cause: Cause)
      requires Accounted() && Linked() && now.Valid()
      modifies this`script, this`socket, this`queue, this`open, this`submitted, this`now, this`delivered
      modifies reader.ParserObject(), reader.buffer, reader.buffer.buffer
      ensures Accounted() && Linked() && now.Valid()
      ensures AllForeign(id, skipped)
      ensures r.None? ==> |script| < |old(script)|
      ensures AwaitedResponse(id, old(Surroundings()), old(now)) ==
              if r.None? then After(skipped, AwaitedResponse(id, Surroundings(), now))
              else Answer(skipped, cause, Surroundings(), now)
      ensures Listened(old(now), old(delivered), Gots(skipped) + (if r.None? then [] else Last(cause)), now, delivered)
      ensures r.Some? ==> Concludes(writer.format, id, cause, r.value) && !cause.WriteFailed?
    {
      hide ClientLoop.Accounted, Linked, Listened, Upcoming, Looked, Gots, AllForeign, Own;
      StartListening(now, delivered);
      NothingForeign(id);
      r, skipped, cause := None, [], Abandoned;
      assert Gots(skipped) + [] == [] && Gots(skipped) + Last(Abandoned) == [] && Gots(skipped) + Last(TimedOut) == [];
      var e := NextEvent();
      match e
      case None => r := Some(Dropped);
      case Some(Deadline) => r, cause := Some(Ended(Err(ResponseTimeout))), TimedOut;
      case Some(ReadReady) =>
        r, skipped, cause := LookForResponse(id);
        AfterNothing(AwaitedResponse(id, Surroundings(), now));
      case Some(_) =>
        AfterNothing(AwaitedResponse(id, Surroundings(), now));
    }

    /** Loop until a frame with the right transaction id arrives, the reader fails, or time is up. */
    method AwaitResponse(id: u16) returns (r: Flow<Result<Frame, RequestError>>, ghost skipped: seq<Frame>, ghost cause: Cause)
      requires Accounted() && Linked() && now.Valid()
      modifies this`script, this`socket, this`queue, this`open, this`submitted, this`now, this`delivered
      modifies reader.ParserObject(), reader.buffer, reader.buffer.buffer
      ensures Accounted() && Linked() && now.Valid()
      ensures AwaitedResponse(id, old(Surroundings()), old(now)) == Answer(skipped, cause, Surroundings(), now)
      ensures AllForeign(id, skipped)
      ensures Listened(old(now), old(delivered), Gots(skipped) + Last(cause), now, delivered)
      ensures Concludes(writer.format, id, cause, r) && !cause.WriteFailed?
    {
      hide *;
      skipped := [];
      StartListening(now, delivered);
      NothingForeign(id);
      AfterNothing(AwaitedResponse(id, Surroundings(), now));
      while true
        invariant Accounted() && Linked() && now.Valid() && AllForeign(id, skipped)
        invariant AwaitedResponse(id, old(Surroundings()), old(now)) ==
                  After(skipped, AwaitedResponse(id, Surroundings(), now))
        invariant Listened(old(now), old(delivered), Gots(skipped), now, delivered)
        decreases |script|
      {
        ghost var r1, d1 := now, delivered;
        ghost var before, more := skipped, [];
        var end;
        end, more, cause := ResponseTurn(id);
        GotsConcat(before, more);
        ForeignConcat(id, before, more);
        KeepListening(old(now), old(delivered), Gots(before), r1, d1, Gots(more) + (if end.None? then [] else Last(cause)),
                      now, delivered);
        skipped := before + more;
        if end.Some? {
          AnswerAfter(before, Answer(more, cause, Surroundings(), now));
          assert Gots(before) + (Gots(more) + Last(cause)) == Gots(skipped) + Last(cause);
          return end.value, skipped, cause;
        }
        AfterAgain(before, more, AwaitedResponse(id, Surroundings(), now));
        assert Gots(before) + (Gots(more) + []) == Gots(skipped);
      }
    }

    /** The bytes are on their way: wait for the write, then for the response. */
    method Converse(id: u16) returns (r: Flow<Result<Frame, RequestError>>, ghost skipped: seq<Frame>, ghost cause: Cause)
      requires Accounted() && Linked() && now.Valid()
      modifies this`script, this`socket, this`queue, this`open, this`submitted, this`now, this`delivered
      modifies reader.ParserObject(), reader.buffer, reader.buffer.buffer
      ensures Accounted() && Linked() && now.Valid()
      ensures Conversed(id, old(Surroundings()), old(now)) == Answer(skipped, cause, Surroundings(), now)
      ensures AllForeign(id, skipped) && (cause.WriteFailed? ==> skipped == [])
      ensures Listened(old(now), old(delivered), Gots(skipped) + Last(cause), now, delivered)
      ensures Concludes(writer.format, id, cause, r)
    {
      hide ClientLoop.Accounted, Linked, Listened, Gots, AwaitedWrite, AwaitedResponse;
      NothingForeign(id);
      StartListening(now, delivered);
      var written := AwaitWrite();
      match written
      case Dropped =>
        r, skipped, cause := Dropped, [], Abandoned;
        assert Gots([]) + Last(cause) == [];
      case Ended(Some(kind)) =>
        r, skipped, cause := Ended(Err(Io(kind))), [], WriteFailed(kind);
        assert Gots([]) + Last(cause) == [];
      case Ended(None) =>
        r, skipped, cause := AwaitResponse(id);
    }

    /** `execute_request`: no error when the promise has been completed with success */
    method ExecuteRequest(request: ClientRequest, promise: Promise, id: u16)
      returns (r: Flow<Option<RequestError>>, ghost t: Transaction)
      requires Accounted() && inFlight == [request.id] && Linked() && now.Valid()
      requires enabled && inSession
      requires promise.callback && promise.id == request.id && promise.callbacks == callbacks
      requires writer.buffer.Length == MAX_FRAME_LENGTH
      modifies this`script, this`socket, this`queue, this`open, this`submitted, this`wire, this`now, this`delivered
      modifies callbacks, promise, writer.buffer, reader.ParserObject(), reader.buffer, reader.buffer.buffer
      ensures submitted == Ids(old(callbacks.fired)) + [request.id] + QueueIds(queue) && Linked() && now.Valid()
      ensures t.request == request && t.txId == id && Proper(writer.format, t)
      ensures Executed(writer.format, request, id, old(Surroundings()), old(now)) ==
              Answer(t.skipped, t.cause, Surroundings(), now)
      ensures wire == old(wire) + Sends(writer.format, t)
      ensures Listened(old(now), old(delivered), t.Heard(), now, delivered)
      ensures r == match t.cause case Abandoned => Dropped
                                 case _ => Ended(if t.Result().Err? then Some(t.Result().error) else None)
      ensures promise.callback <==> r != Ended(None)
      ensures callbacks.fired == old(callbacks.fired) + (if r == Ended(None) then [Completion(request.id, t.Result())] else [])
    {
      hide HandledResponse, Formatted, Ids, QueueIds, Gots, AllForeign, Conversed, Listened;
      hide FramedReaders.FramedReader.Valid, FramedReaders.FramedReader.Value;
      StartListening(now, delivered);
      NothingForeign(id);
      var header := FrameHeader(UnitId(request.unit), Some(id));
      var bytes := writer.FormatGeneric(header, FunctionField.Valid(request.details.Function()), request.details.Body());
      if bytes.Err? {
        t := Transaction(request, id, [], NotFormatted(bytes.error));
        assert t.Heard() == [];
        return Ended(Some(bytes.error)), t;
      }
      wire := wire + [Transmission(id, bytes.value, enabled, inSession)];
      var response, skipped, cause := Converse(id);
      t := Transaction(request, id, skipped, cause);
      match response
      case Dropped => r := Dropped;
      case Ended(Err(error)) => r := Ended(Some(error));
      case Ended(Ok(frame)) =>
        var error := promise.HandleResponse(request.details, frame.payload);
        r := Ended(error);
    }

    /**
     The one place where a request fails; if its future was dropped, the promise is dropped with it. Then the
     request is on the books, completed with the result of its transaction.
     */
    method Settle(promise: Promise, result: Flow<Option<RequestError>>, ghost before: seq<Completion>,
                  ghost sent: seq<Transmission>, ghost t: Transaction)
      requires promise.callbacks == callbacks && promise.id == t.request.id
      requires promise.callback <==> result != Ended(None)
      requires callbacks.fired == before + (if result == Ended(None) then [Completion(t.request.id, t.Result())] else [])
      requires result.Ended? && result.value.Some? ==> t.Result() == Err(result.value.value)
      requires result.Dropped? <==> t.cause.Abandoned?
      requires submitted == Ids(before) + [t.request.id] + QueueIds(queue)
      requires Books(writer.format, transactions, sent, before, origins) && Undropped(origins, transactions)
      requires Proper(writer.format, t) && t.txId == |transactions| % 0x1_0000 && wire == sent + Sends(writer.format, t)
      modifies this`inFlight, this`origins, this`transactions, promise, callbacks
      ensures Accounted() && inFlight == [] && Recorded()
      ensures callbacks.fired == before + [Completion(t.request.id, t.Result())]
      ensures transactions == old(transactions) + [t]
      ensures !t.cause.Abandoned? ==> Undropped(origins, transactions)
    {
      hide Ids, QueueIds, Books, Proper, Sends, HandledResponse, Undropped, Transaction.Result;
      if result.Ended? && result.value.Some? {
        promise.Failure(result.value.value);
      }
      promise.Drop();
      DropResult(t);
      ghost var done := Completion(t.request.id, t.Result());
      assert callbacks.fired == before + [done];
      BooksMore(writer.format, transactions, sent, before, origins, t);
      UndroppedMore(origins, transactions, Transacted(|transactions|));
      IdsAppend(before, done);
      inFlight := [];
      assert Ids(callbacks.fired) + inFlight == Ids(before) + [t.request.id];
      origins := origins + [Transacted(|transactions|)];
      transactions := transactions + [t];
    }

    /** The request's promise, the next id, and the transaction under it. */
    method Begin(request: ClientRequest) returns (promise: Promise, r: Flow<Option<RequestError>>, ghost t: Transaction)
      requires Accounted() && inFlight == [request.id] && Linked() && now.Valid()
      requires enabled && inSession && writer.buffer.Length == MAX_FRAME_LENGTH
      modifies this`script, this`socket, this`queue, this`open, this`submitted, this`wire, this`txId, this`now, this`delivered
      modifies callbacks, writer.buffer, reader.ParserObject(), reader.buffer, reader.buffer.buffer
      ensures submitted == Ids(old(callbacks.fired)) + [request.id] + QueueIds(queue) && Linked() && now.Valid()
      ensures t.request == request && t.txId == old(txId) && txId == (old(txId) + 1) % 0x1_0000 && Proper(writer.format, t)
      ensures Executed(writer.format, request, old(txId), old(Surroundings()), old(now)) ==
              Answer(t.skipped, t.cause, Surroundings(), now)
      ensures wire == old(wire) + Sends(writer.format, t)
      ensures Listened(old(now), old(delivered), t.Heard(), now, delivered)
      ensures r == match t.cause case Abandoned => Dropped
                                 case _ => Ended(if t.Result().Err? then Some(t.Result().error) else None)
      ensures fresh(promise) && promise.id == request.id && promise.callbacks == callbacks
      ensures promise.callback <==> r != Ended(None)
      ensures callbacks.fired == old(callbacks.fired) + (if r == Ended(None) then [Completion(request.id, t.Result())] else [])
    {
      hide Ids, QueueIds, Sends, Proper, Executed, HandledResponse, Transaction.Heard, Transaction.Result, Linked, Listened;
      promise := new Promise(request.id, callbacks);
      var id := NextTxId();
      r, t := ExecuteRequest(request, promise, id);
    }

    /** `run_one_request` */
    method RunOneRequest(request: ClientRequest) returns (r: Flow<Option<SessionError>>, ghost t: Transaction)
      requires Accounted() && inFlight == [request.id] && Recorded() && Undropped(origins, transactions)
      requires Linked() && now.Valid() && txId == |transactions| % 0x1_0000
      requires enabled && inSession
      requires writer.buffer.Length == MAX_FRAME_LENGTH
      modifies this`script, this`socket, this`queue, this`open, this`submitted, this`inFlight, this`wire, this`txId
      modifies this`transactions, this`origins, this`now, this`delivered, callbacks
      modifies writer.buffer, reader.ParserObject(), reader.buffer, reader.buffer.buffer
      ensures Valid() && Linked() && now.Valid()
      ensures r.Ended? ==> Undropped(origins, transactions)
      ensures (r, State()) == Performed(writer.format, old(State()), request)
      ensures transactions == old(transactions) + [t]
      ensures callbacks.fired == old(callbacks.fired) + [Completion(request.id, t.Result())]
      ensures Listened(old(now), old(delivered), t.Heard(), now, delivered)
    {
      hide Ids, QueueIds, Books, Sends, Proper, FromRequestError, Undropped, Executed;
      hide HandledResponse, Transaction.Heard, Transaction.Result, Linked, Listened;
      var promise, result;
      promise, result, t := Begin(request);
      Settle(promise, result, old(callbacks.fired), old(wire), t);
      match result
      case Dropped => r := Dropped;
      case Ended(error) => r := Ended(if error.Some? then FromRequestError(error.value) else None);
    }

    /** `run_cmd`; `heard` is what the transaction read, if the command was a request */
    method RunCommand(command: Command) returns (r: Flow<Option<SessionError>>, ghost heard: seq<Framing.Outcome>)
      requires Accounted() && inFlight == (if command.Perform? then [command.request.id] else [])
      requires Recorded() && Undropped(origins, transactions)
      requires Linked() && now.Valid() && txId == |transactions| % 0x1_0000
      requires enabled && inSession
      requires writer.buffer.Length == MAX_FRAME_LENGTH
      modifies this`script, this`socket, this`queue, this`open, this`submitted, this`inFlight, this`wire, this`txId
      modifies this`transactions, this`origins, this`enabled, this`now, this`delivered, callbacks
      modifies writer.buffer, reader.ParserObject(), reader.buffer, reader.buffer.buffer
      ensures Valid() && Linked() && now.Valid() && old(callbacks.fired) <= callbacks.fired
      ensures r.Ended? ==> Undropped(origins, transactions)
      ensures (r, State()) == Commanded(writer.format, old(State()), command)
      ensures Listened(old(now), old(delivered), heard, now, delivered) && HeardIn(heard, old(transactions), transactions)
    {
      hide Ids, QueueIds, Books, Undropped, Linked, Listened, Transaction.Heard, Transaction.Result, HeardIn, Performed;
      match command
      case Change(setting) =>
        StartListening(now, delivered);
        OnlyGaps([], transactions);
        heard := [];
        ChangeSetting(setting);
        r := Ended(if enabled then None else Some(Disabled));
      case Perform(request) =>
        ghost var t;
        r, t := RunOneRequest(request);
        heard := t.Heard();
        OneTransaction(old(transactions), t);
    }

    /** The queue is looked at: nothing is there, or it is closed, or a command is run. */
    method PollQueue() returns (r: Option<Flow<Option<SessionError>>>, ghost heard: seq<Framing.Outcome>)
      requires Valid() && Linked() && now.Valid() && enabled && inSession && Undropped(origins, transactions)
      modifies this`script, this`socket, this`queue, this`open, this`submitted, this`inFlight, this`wire, this`txId
      modifies this`transactions, this`origins, this`enabled, this`now, this`delivered, callbacks
      modifies writer.buffer, reader.ParserObject(), reader.buffer, reader.buffer.buffer
      ensures Valid() && Linked() && now.Valid() && old(callbacks.fired) <= callbacks.fired
      ensures r != Some(Dropped) ==> Undropped(origins, transactions)
      ensures (r, State()) == CommandReceived(writer.format, old(State()))
      ensures Listened(old(now), old(delivered), heard, now, delivered) && HeardIn(heard, old(transactions), transactions)
    {
      hide ClientLoop.Accounted, ClientLoop.Recorded, Undropped, Linked, Listened, HeardIn, Commanded;
      heard := [];
      StartListening(now, delivered);
      OnlyGaps([], transactions);
      var received := TryReceive();
      match received
      case NotReady => r := None;
      case Closed => r := Some(Ended(Some(SessionShutdown)));
      case Taken(command) =>
        var end;
        end, heard := RunCommand(command);
        r := Some(end);
    }

    /** The connection is looked at between transactions. */
    method PollIdle() returns (r: Option<Flow<Option<SessionError>>>, ghost heard: seq<Framing.Outcome>)
      requires Linked() && now.Valid()
      modifies this`socket, this`now, this`delivered, reader.ParserObject(), reader.buffer, reader.buffer.buffer
      ensures Linked() && now.Valid() && Listened(old(now), old(delivered), heard, now, delivered)
      ensures var (status, env, after) := Looked(old(Surroundings()), old(now));
              Surroundings() == env && now == after && r == IdleEnd(status)
    {
      hide Linked, Listened, Looked;
      var result, status := PollReader();
      heard := Reading.OutputsOf(status);
      match result
      case Dropped => r := None;
      case Returned(Ok(_)) => r := Some(Ended(None));
      case Returned(Err(error)) => r := Some(Ended(FromRequestError(error)));
    }

    /** One turn of `poll`'s `select!` */
    method PollTurn() returns (r: Option<Flow<Option<SessionError>>>, ghost heard: seq<Framing.Outcome>)
      requires Valid() && Linked() && now.Valid() && enabled && inSession && Undropped(origins, transactions)
      modifies this`script, this`socket, this`queue, this`open, this`submitted, this`inFlight, this`wire, this`txId
      modifies this`transactions, this`origins, this`enabled, this`now, this`delivered, callbacks
      modifies writer.buffer, reader.ParserObject(), reader.buffer, reader.buffer.buffer
      ensures Valid() && Linked() && now.Valid() && old(callbacks.fired) <= callbacks.fired
      ensures r != Some(Dropped) ==> Undropped(origins, transactions)
      ensures r.None? ==> |script| < |old(script)| && enabled
      ensures Polled(writer.format, old(State())) ==
              if r.Some? then (r.value, State()) else Polled(writer.format, State())
      ensures Listened(old(now), old(delivered), heard, now, delivered) && HeardIn(heard, old(transactions), transactions)
    {
      hide ClientLoop.Accounted, ClientLoop.Recorded, Undropped, Linked, Listened, HeardIn, Upcoming, Looked, CommandReceived;
      hide IdleEnd;
      r, heard := None, [];
      StartListening(now, delivered);
      OnlyGaps([], transactions);
      var e := NextEvent();
      match e
      case None => r := Some(Dropped);
      case Some(ReadReady) =>
        r, heard := PollIdle();
        OnlyGaps(heard, transactions);
      case Some(Receive) =>
        r, heard := PollQueue();
      case Some(_) =>
    }

    /** `poll`: a frame that nobody asked for, or the next command */
    method Poll() returns (r: Flow<Option<SessionError>>, ghost heard: seq<Framing.Outcome>)
      requires Valid() && Linked() && now.Valid() && enabled && inSession && Undropped(origins, transactions)
      modifies this`script, this`socket, this`queue, this`open, this`submitted, this`inFlight, this`wire, this`txId
      modifies this`transactions, this`origins, this`enabled, this`now, this`delivered, callbacks
      modifies writer.buffer, reader.ParserObject(), reader.buffer, reader.buffer.buffer
      ensures Valid() && Linked() && now.Valid() && old(callbacks.fired) <= callbacks.fired
      ensures r.Ended? ==> Undropped(origins, transactions)
      ensures (r, State()) == Polled(writer.format, old(State()))
      ensures Listened(old(now), old(delivered), heard, now, delivered) && HeardIn(heard, old(transactions), transactions)
    {
      hide ClientLoop.Valid, Linked, Listened, HeardIn, Undropped, Polled;
      StartListening(now, delivered);
      OnlyGaps([], transactions);
      heard := [];
      while true
        invariant Valid() && Linked() && now.Valid() && enabled && Undropped(origins, transactions)
        invariant old(callbacks.fired) <= callbacks.fired
        invariant Polled(writer.format, State()) == Polled(writer.format, old(State()))
        invariant Listened(old(now), old(delivered), heard, now, delivered) && HeardIn(heard, old(transactions), transactions)
        decreases |script|
      {
        ghost var r1, d1, ts, before, more := now, delivered, transactions, heard, [];
        var end;
        end, more := PollTurn();
        KeepListening(old(now), old(delivered), before, r1, d1, more, now, delivered);
        HeardMore(before, old(transactions), ts, more, transactions);
        heard := before + more;
        if end.Some? {
          return end.value, heard;
        }
      }
    }

    /**
     `run`: a session, until something ends it. `heard` is what a one-shot parse finds in the bytes that
     the connection delivered, made of the parts of the session's transactions in their order.
     */
    method Run() returns (r: Flow<SessionError>, ghost heard: seq<Framing.Outcome>)
      requires Valid() && Linked() && now.Valid() && enabled && inSession && Undropped(origins, transactions)
      modifies this`script, this`socket, this`queue, this`open, this`submitted, this`inFlight, this`wire, this`txId
      modifies this`transactions, this`origins, this`enabled, this`now, this`delivered, callbacks
      modifies writer.buffer, reader.ParserObject(), reader.buffer, reader.buffer.buffer
      ensures Valid() && Linked() && now.Valid() && old(callbacks.fired) <= callbacks.fired
      ensures r.Ended? ==> Undropped(origins, transactions)
      ensures (r, State()) == Ran(writer.format, old(State()))
      ensures Listened(old(now), old(delivered), heard, now, delivered) && HeardIn(heard, old(transactions), transactions)
    {
      hide ClientLoop.Valid, Linked, Undropped, HeardIn, Polled, Reading.Heard;
      heard := [];
      StartListening(now, delivered);
      OnlyGaps([], transactions);
      while true
        invariant Valid() && Linked() && now.Valid() && enabled && Undropped(origins, transactions)
        invariant old(callbacks.fired) <= callbacks.fired
        invariant Ran(writer.format, State()) == Ran(writer.format, old(State()))
        invariant Listened(old(now), old(delivered), heard, now, delivered) && HeardIn(heard, old(transactions), transactions)
        decreases |script|
      {
        ghost var r1, d1, ts := now, delivered, transactions;
        PolledEnd(writer.format, State());
        var end, more := Poll();
        KeepListening(old(now), old(delivered), heard, r1, d1, more, now, delivered);
        HeardMore(heard, old(transactions), ts, more, transactions);
        heard := heard + more;
        if end.Dropped? {
          return Dropped, heard;
        }
        if end.value.Some? {
          return Ended(end.value.value), heard;
        }
      }
    }

    /** The session that began with reader `r` and the transactions `before` is entered in the chronicle. */
    ghost method Enter(r: Reading.Reader, d: seq<u8>, heard: seq<Framing.Outcome>, before: seq<Transaction>)
      requires now.Valid() && Listened(r, d, heard, now, delivered) && HeardIn(heard, before, transactions)
      requires Chronicled(sessions, before, start, r)
      modifies this`sessions
      ensures Between() && |sessions| == |old(sessions)| + 1 && old(sessions) <= sessions
    {
      hide Chronicled, HeardIn, Reading.Heard;
      var session := Session(r, delivered[|d|..], heard, now, NewSince(before, transactions));
      SessionIsValid(session, before, transactions);
      ChronicleMore(sessions, before, start, session);
      sessions := sessions + [session];
    }

    /** A connection from its beginning to its end. */
    method Connection() returns (r: Flow<SessionError>)
      requires Valid() && Linked() && Between() && enabled && !inSession && Undropped(origins, transactions)
      modifies this`script, this`socket, this`queue, this`open, this`submitted, this`inFlight, this`wire, this`txId
      modifies this`transactions, this`origins, this`enabled, this`now, this`delivered, this`inSession, this`sessions
      modifies callbacks, writer.buffer, reader.ParserObject(), reader.buffer, reader.buffer.buffer
      ensures Valid() && Linked() && Between() && !inSession && old(callbacks.fired) <= callbacks.fired
      ensures old(now.Valid())
      ensures (r, State()) == Ran(writer.format, old(State()).WithEnv(old(Surroundings()).(socket := [])))
      ensures |sessions| == |old(sessions)| + 1 && old(sessions) <= sessions
      ensures r.Dropped? ==> script == []
      ensures r.Ended? ==> |script| < |old(script)| && Undropped(origins, transactions)
      ensures enabled <==> r != Ended(Disabled)
      ensures r == Ended(SessionShutdown) ==> queue == [] && !open
    {
      hide ClientLoop.Valid, Linked, Chronicled, Listened, HeardIn, Undropped, Ran;
      RanEnd(writer.format, State().WithEnv(Surroundings().(socket := [])));
      Connect();
      ghost var heard;
      r, heard := Run();
      inSession := false;
      Enter(old(now), old(delivered), heard, old(transactions));
    }

    /** With nothing left in the queue the books are complete. */
    lemma Account()
      requires Valid() && queue == []
      ensures submitted == Ids(callbacks.fired)
      ensures Matched(writer.format, transactions) && wire == Transmitted(writer.format, transactions)
      ensures Explained(callbacks.fired, origins, transactions) && Telling(callbacks.fired, origins, transactions)
    {
      hide Matched, Transmitted, Explained, Telling;
      BooksTell(writer.format, transactions, wire, callbacks.fired, origins);
    }

    method DropHead()
      requires Valid() && queue != []
      modifies this`queue, this`origins, callbacks
      ensures Valid() && queue == old(queue)[1..] && old(callbacks.fired) <= callbacks.fired
    {
      hide Ids, Books, QueueIds;
      QueueIdsHead(queue);
      if queue[0].Perform? {
        DropPromise(queue[0].request.id);
      }
      queue := queue[1..];
      assert submitted == Ids(callbacks.fired) + inFlight + QueueIds(queue);
    }

    method DropPromise(id: nat)
      requires Recorded()
      modifies this`origins, callbacks
      ensures Recorded() && Ids(callbacks.fired) == Ids(old(callbacks.fired)) + [id]
      ensures old(callbacks.fired) <= callbacks.fired
    {
      hide Ids, Books;
      var promise := new Promise(id, callbacks);
      ghost var c := Completion(id, Err(Shutdown));
      IdsAppend(callbacks.fired, c);
      BooksOutside(writer.format, transactions, wire, callbacks.fired, origins, c, TaskDropped);
      origins := origins + [TaskDropped];
      promise.Drop();
    }

    /** The task is dropped while it waits: with it goes the queue, and every promise in it. */
    method DropQueue()
      requires Valid()
      modifies this`queue, this`origins, callbacks
      ensures Valid() && queue == [] && old(callbacks.fired) <= callbacks.fired
    {
      while queue != []
        invariant Valid() && old(callbacks.fired) <= callbacks.fired
        decreases |queue|
      {
        hide *;
        DropHead();
      }
    }
  }
}
