/**
 What a client channel meets and what becomes of it: commands, events, transactions, the books that are kept
 of them, and the client loop as a function of what happens. The loop itself is proved to be this function.
 */
module ClientRuns {
  import opened Types
  import opened FrameWriters
  import opened ClientRequests
  import opened RoundTrip
  import ServerRequests
  import Framing
  import Reading

  datatype Setting = Enable | Disable | DecodeLevel

  datatype ClientRequest = ClientRequest(id: nat, unit: u8, details: RequestDetails)

  datatype Command = Perform(request: ClientRequest) | Change(setting: Setting)

  /**
   What the users of the channel, the network and the clock do. An event that the task is not waiting
   for when its turn comes is ignored, so every list of events is a run, and every run is one.
   */
  datatype Event =
    | Submit(command: Command)                     // a user puts a command in the queue
    | CloseSenders                                 // the last handle to the channel is dropped
    | Receive                                      // the task is scheduled to look at its queue
    | Arrives(bytes: seq<u8>)                      // the connection delivers bytes; none at all means its end
    | Breaks(kind: IoErrorKind)                    // the connection fails
    | ReadReady                                    // the task is scheduled to look at its connection
    | WriteDone(error: Option<IoErrorKind>)        // a write completes
    | Deadline                                     // the response timeout expires
    | DelayElapsed                                 // a retry delay expires
    | ConnectDone(connected: bool)                 // a connect (or open) attempt completes
    | HandshakeDone(secure: bool)                  // the connection handler completes

  datatype Completion = Completion(id: nat, result: RequestResult)

  function Ids(fired: seq<Completion>): seq<nat> {
    if fired == [] then [] else Ids(fired[..|fired| - 1]) + [fired[|fired| - 1].id]
  }

  function QueueIds(queue: seq<Command>): seq<nat> {
    if queue == [] then []
    else (if queue[0].Perform? then [queue[0].request.id] else []) + QueueIds(queue[1..])
  }

  lemma {:induction false} QueueIdsAppend(queue: seq<Command>, c: Command)
    ensures QueueIds(queue + [c]) == QueueIds(queue) + (if c.Perform? then [c.request.id] else [])
  {
    if queue == [] {
      assert queue + [c] == [c];
    } else {
      QueueIdsAppend(queue[1..], c);
      assert (queue + [c])[1..] == queue[1..] + [c];
    }
  }

  lemma QueueIdsHead(queue: seq<Command>)
    requires queue != []
    ensures QueueIds(queue) == (if queue[0].Perform? then [queue[0].request.id] else []) + QueueIds(queue[1..])
  {}

  lemma IdsAppend(fired: seq<Completion>, c: Completion)
    ensures Ids(fired + [c]) == Ids(fired) + [c.id]
  {
    assert (fired + [c])[..|fired|] == fired;
  }

  datatype SessionError = IoError(kind: IoErrorKind) | BadFrameError | Disabled | SessionShutdown

  function FromRequestError(e: RequestError): Option<SessionError> {
    match e
    case Io(kind) => Some(IoError(kind))
    case BadFrame(_) => Some(BadFrameError)
    case _ => None
  }

  datatype StateChange = ToDisabled | ToShutdown

  /** How a step of the task ends; it is dropped when the environment has no more to offer. */
  datatype Flow<+T> = Ended(value: T) | Dropped

  datatype Received = NotReady | Closed | Taken(command: Command)

  /** Why a transaction ended. */
  datatype Cause =
    | NotFormatted(invalid: RequestError)
    | WriteFailed(kind: IoErrorKind)
    | ReadFailed(kind: IoErrorKind)
    | BadlyFramed(error: FrameParseError)
    | AnsweredBy(frame: Frame)
    | TimedOut
    | Abandoned                                    // the task was dropped while it waited

  /** A finished transaction: its request, its id, the frames it read and did not want, and why it ended. */
  datatype Transaction = Transaction(request: ClientRequest, txId: u16, skipped: seq<Frame>, cause: Cause)
  {
    /** What the request was completed with. */
    function Result(): RequestResult {
      match cause
      case NotFormatted(e) => Err(e)
      case WriteFailed(kind) => Err(Io(kind))
      case ReadFailed(kind) => Err(Io(kind))
      case BadlyFramed(e) => Err(BadFrame(e))
      case AnsweredBy(frame) => HandledResponse(request.details, frame.payload)
      case TimedOut => Err(ResponseTimeout)
      case Abandoned => Err(Shutdown)
    }

    /** Everything that `next_frame` returned to it. */
    function Heard(): seq<Framing.Outcome> { Gots(skipped) + Last(cause) }
  }

  function Last(cause: Cause): seq<Framing.Outcome> {
    match cause
    case AnsweredBy(frame) => [Framing.Got(frame)]
    case BadlyFramed(e) => [Framing.Bad(e)]
    case _ => []
  }

  /** The frame answers the transaction: over TCP it carries its id, over RTU there are no ids. */
  predicate Own(format: FormatType, id: u16, frame: Frame) {
    frame.txId == if format.TcpFormat? then Some(id) else None
  }

  predicate Foreign(id: u16, frame: Frame) { frame.txId.Some? && frame.txId.value != id }

  ghost predicate AllForeign(id: u16, frames: seq<Frame>) { forall i | 0 <= i < |frames| :: Foreign(id, frames[i]) }

  function RequestBytes(format: FormatType, t: Transaction): Result<seq<u8>, RequestError> {
    FormattedRequest(format, t.request.unit, t.txId, t.request.details)
  }

  /** The cause is one that can have been: see `execute_request` for the order of things. */
  ghost predicate Proper(format: FormatType, t: Transaction) {
    && AllForeign(t.txId, t.skipped)
    && (RequestBytes(format, t).Err? <==> t.cause.NotFormatted?)
    && match t.cause
       case NotFormatted(e) => RequestBytes(format, t) == Err(e) && t.skipped == []
       case WriteFailed(_) => t.skipped == []
       case AnsweredBy(frame) => Own(format, t.txId, frame)
       case _ => true
  }

  /** The n-th transaction has the id n, modulo the width of the id. */
  ghost predicate Matched(format: FormatType, transactions: seq<Transaction>) {
    forall n | 0 <= n < |transactions| :: transactions[n].txId == n % 0x1_0000 && Proper(format, transactions[n])
  }

  lemma MatchedAppend(format: FormatType, transactions: seq<Transaction>, t: Transaction)
    requires Matched(format, transactions) && Proper(format, t) && t.txId == |transactions| % 0x1_0000
    ensures Matched(format, transactions + [t])
  {
    hide Proper;
  }

  // ----- what goes out -----

  /** Bytes handed to the physical layer, and the state of the channel when they were. */
  datatype Transmission = Transmission(txId: u16, bytes: seq<u8>, enabled: bool, inSession: bool)

  /** What a list of transactions sends: each its own request, while the channel is enabled and connected. */
  function Transmitted(format: FormatType, transactions: seq<Transaction>): seq<Transmission> {
    if transactions == [] then []
    else
      var t := transactions[|transactions| - 1];
      Transmitted(format, transactions[..|transactions| - 1]) + Sends(format, t)
  }

  function Sends(format: FormatType, t: Transaction): seq<Transmission> {
    match RequestBytes(format, t)
    case Err(_) => []
    case Ok(bytes) => [Transmission(t.txId, bytes, true, true)]
  }

  lemma TransmittedAppend(format: FormatType, transactions: seq<Transaction>, t: Transaction)
    ensures Transmitted(format, transactions + [t]) == Transmitted(format, transactions) + Sends(format, t)
  {
    hide Sends;
    assert (transactions + [t])[..|transactions|] == transactions;
  }

  // ----- why callbacks were invoked -----

  /** A transaction, a request taken from the queue without a session, or a drop of the task with its queue. */
  datatype Origin = Transacted(n: nat) | NotConnected | TaskDropped

  ghost predicate ExplainedBy(c: Completion, origin: Origin, transactions: seq<Transaction>) {
    match origin
    case Transacted(n) => n < |transactions| && c == Completion(transactions[n].request.id, transactions[n].Result())
    case NotConnected => c.result == Err(NoConnection)
    case TaskDropped => c.result == Err(Shutdown)
  }

  /** Every completion has its origin, and every transaction completed its request. */
  ghost predicate Explained(fired: seq<Completion>, origins: seq<Origin>, transactions: seq<Transaction>) {
    && |origins| == |fired|
    && (forall i | 0 <= i < |fired| :: ExplainedBy(fired[i], origins[i], transactions))
    && (forall n | 0 <= n < |transactions| :: Transacted(n) in origins)
  }

  lemma ExplainMore(fired: seq<Completion>, origins: seq<Origin>, transactions: seq<Transaction>,
                    c: Completion, origin: Origin, more: seq<Transaction>)
    requires Explained(fired, origins, transactions)
    requires more == transactions || (|more| == |transactions| + 1 && transactions <= more && origin == Transacted(|transactions|))
    requires ExplainedBy(c, origin, more)
    ensures Explained(fired + [c], origins + [origin], more)
  {
    hide HandledResponse;
    forall n | 0 <= n < |more|
      ensures Transacted(n) in origins + [origin]
    {
      if n < |transactions| {
        assert Transacted(n) in origins;
      } else {
        assert (origins + [origin])[|origins|] == Transacted(n);
      }
    }
  }

  /** What was sent and what was completed is what the transactions say. */
  ghost predicate Books(format: FormatType, transactions: seq<Transaction>, wire: seq<Transmission>,
                        fired: seq<Completion>, origins: seq<Origin>)
  {
    && Matched(format, transactions)
    && wire == Transmitted(format, transactions)
    && Explained(fired, origins, transactions)
  }

  lemma NothingOnTheBooks(format: FormatType)
    ensures Books(format, [], [], [], [])
  {}

  lemma BooksMore(format: FormatType, transactions: seq<Transaction>, wire: seq<Transmission>,
                  fired: seq<Completion>, origins: seq<Origin>, t: Transaction)
    requires Books(format, transactions, wire, fired, origins)
    requires Proper(format, t) && t.txId == |transactions| % 0x1_0000
    ensures Books(format, transactions + [t], wire + Sends(format, t), fired + [Completion(t.request.id, t.Result())],
                  origins + [Transacted(|transactions|)])
  {
    hide Matched, Explained, Proper, Transmitted, Sends, HandledResponse;
    MatchedAppend(format, transactions, t);
    TransmittedAppend(format, transactions, t);
    ExplainMore(fired, origins, transactions, Completion(t.request.id, t.Result()), Transacted(|transactions|),
                transactions + [t]);
  }

  lemma BooksOutside(format: FormatType, transactions: seq<Transaction>, wire: seq<Transmission>,
                     fired: seq<Completion>, origins: seq<Origin>, c: Completion, origin: Origin)
    requires Books(format, transactions, wire, fired, origins)
    requires !origin.Transacted? && ExplainedBy(c, origin, transactions)
    ensures Books(format, transactions, wire, fired + [c], origins + [origin])
  {
    hide Matched, Explained, Transmitted, Transaction.Result;
    ExplainMore(fired, origins, transactions, c, origin, transactions);
  }

  /** Nothing that happened so far is due to a drop of the task. */
  ghost predicate Undropped(origins: seq<Origin>, transactions: seq<Transaction>) {
    && (forall i | 0 <= i < |origins| :: !origins[i].TaskDropped?)
    && (forall n | 0 <= n < |transactions| :: !transactions[n].cause.Abandoned?)
  }

  lemma UndroppedMore(origins: seq<Origin>, transactions: seq<Transaction>, origin: Origin)
    requires Undropped(origins, transactions) && !origin.TaskDropped?
    ensures Undropped(origins + [origin], transactions)
    ensures forall t: Transaction | !t.cause.Abandoned? :: Undropped(origins + [origin], transactions + [t])
  {}

  // ----- what a result tells -----

  lemma ResponseErrors(details: RequestDetails, payload: seq<u8>)
    requires HandledResponse(details, payload).Err?
    ensures var e := HandledResponse(details, payload).error; e.Exception? || e.BadResponse? || e.BadRequest?
  {
    hide ServerRequests.ParseBits, ServerRequests.ParseRegisters, ServerRequests.ParseRange;
    ParsingErrors(if payload == [] then [] else payload[1..]);
  }

  lemma ParsingErrors(b: seq<u8>)
    ensures ServerRequests.ParseRange(b).Err? ==> var e := ServerRequests.ParseRange(b).error; e.BadRequest? || e.BadResponse?
    ensures forall range | WellFormed(range) :: forall b' ::
              (ServerRequests.ParseBits(range, b').Err? ==> ServerRequests.ParseBits(range, b').error.BadResponse?) &&
              (ServerRequests.ParseRegisters(range, b').Err? ==> ServerRequests.ParseRegisters(range, b').error.BadResponse?)
  {}

  lemma FormattingErrors(format: FormatType, unit: u8, txId: u16, details: RequestDetails)
    requires FormattedRequest(format, unit, txId, details).Err?
    ensures FormattedRequest(format, unit, txId, details).error.Internal?
  {
    hide MbapFrame, RtuFrame;
  }

  /** Only a drop of the task completes a transaction with `Shutdown`, and nothing with `NoConnection`. */
  lemma TransactionResults(format: FormatType, t: Transaction)
    requires Proper(format, t)
    ensures t.Result() != Err(NoConnection)
    ensures t.Result() == Err(Shutdown) <==> t.cause.Abandoned?
  {
    hide HandledResponse, FormattedRequest;
    if t.cause.AnsweredBy? && t.Result().Err? {
      ResponseErrors(t.request.details, t.cause.frame.payload);
    } else if t.cause.NotFormatted? {
      FormattingErrors(format, t.request.unit, t.txId, t.request.details);
    }
  }

  /**
   A result tells why its callback was invoked: `NoConnection` if and only if the request was taken from the
   queue without a session, `Shutdown` if and only if the task was dropped with the request in it.
   */
  ghost predicate Telling(fired: seq<Completion>, origins: seq<Origin>, transactions: seq<Transaction>) {
    && |origins| == |fired|
    && forall i | 0 <= i < |fired| ::
         && (fired[i].result == Err(NoConnection) <==> origins[i].NotConnected?)
         && (fired[i].result == Err(Shutdown) <==>
               origins[i].TaskDropped? ||
               (origins[i].Transacted? && origins[i].n < |transactions| && transactions[origins[i].n].cause.Abandoned?))
  }

  lemma BooksTell(format: FormatType, transactions: seq<Transaction>, wire: seq<Transmission>,
                  fired: seq<Completion>, origins: seq<Origin>)
    requires Books(format, transactions, wire, fired, origins)
    ensures Telling(fired, origins, transactions)
  {
    hide Transmitted, Proper, Transaction.Result;
    forall n | 0 <= n < |transactions|
      ensures transactions[n].Result() != Err(NoConnection)
      ensures transactions[n].Result() == Err(Shutdown) <==> transactions[n].cause.Abandoned?
    {
      TransactionResults(format, transactions[n]);
    }
    forall i | 0 <= i < |fired|
      ensures fired[i].result == Err(NoConnection) <==> origins[i].NotConnected?
      ensures fired[i].result == Err(Shutdown) <==>
                origins[i].TaskDropped? ||
                (origins[i].Transacted? && origins[i].n < |transactions| && transactions[origins[i].n].cause.Abandoned?)
    {
      assert ExplainedBy(fired[i], origins[i], transactions);
    }
  }

  /** Whatever completed since `before` failed for want of a connection. */
  ghost predicate OnlyNoConnection(before: seq<Completion>, after: seq<Completion>) {
    && before <= after
    && forall i | |before| <= i < |after| :: after[i].result == Err(NoConnection)
  }

  lemma NoConnectionThen(a: seq<Completion>, b: seq<Completion>, c: seq<Completion>)
    requires OnlyNoConnection(a, b) && OnlyNoConnection(b, c)
    ensures OnlyNoConnection(a, c)
  {}

  lemma NoCompletion(fired: seq<Completion>)
    ensures OnlyNoConnection(fired, fired)
  {}

  /** A request whose transaction is abandoned is completed by the drop of its promise. */
  lemma DropResult(t: Transaction)
    ensures t.cause.Abandoned? ==> t.Result() == Err(Shutdown)
  {}

  /** What a wait returns for each way in which it ends. */
  predicate Concludes(format: FormatType, id: u16, cause: Cause, r: Flow<Result<Frame, RequestError>>) {
    match cause
    case NotFormatted(_) => false
    case WriteFailed(kind) => r == Ended(Err(Io(kind)))
    case TimedOut => r == Ended(Err(ResponseTimeout))
    case ReadFailed(kind) => r == Ended(Err(Io(kind)))
    case BadlyFramed(e) => r == Ended(Err(BadFrame(e)))
    case AnsweredBy(frame) => r == Ended(Ok(frame)) && Own(format, id, frame)
    case Abandoned => r.Dropped?
  }

  lemma OneGot(frame: Frame)
    ensures Gots([frame]) == [Framing.Got(frame)] && Gots([]) == []
  {
    assert [frame][1..] == [];
  }

  lemma {:induction false} GotsConcat(a: seq<Frame>, b: seq<Frame>)
    ensures Gots(a + b) == Gots(a) + Gots(b)
    decreases |a|
  {
    if a == [] {
      assert a + b == b;
    } else {
      GotsConcat(a[1..], b);
      assert (a + b)[0] == a[0] && (a + b)[1..] == a[1..] + b;
      assert Gots(a + b) == [Framing.Got(a[0])] + Gots(a[1..] + b);
      assert [Framing.Got(a[0])] + (Gots(a[1..]) + Gots(b)) == ([Framing.Got(a[0])] + Gots(a[1..])) + Gots(b);
    }
  }

  lemma ForeignConcat(id: u16, a: seq<Frame>, b: seq<Frame>)
    requires AllForeign(id, a) && AllForeign(id, b)
    ensures AllForeign(id, a + b)
  {}

  lemma NothingForeign(id: u16)
    ensures AllForeign(id, [])
  {}

  // ----- the loop as a function of what happens -----

  /** What the task has before it: events to come, and what has already arrived. */
  datatype Env = Env(script: seq<Event>, socket: seq<Reading.IoEvent>, queue: seq<Command>, open: bool)

  /** The next event that concerns the task. Submissions fill the queue, and bytes the socket. */
  function Upcoming(env: Env): (r: (Option<Event>, Env))
    ensures |r.1.script| <= |env.script|
    ensures r.0.Some? ==> |r.1.script| < |env.script|
    ensures r.0.None? ==> r.1.script == []
    ensures !env.open ==> !r.1.open && r.1.queue == env.queue
    decreases |env.script|
  {
    if env.script == [] then (None, env)
    else
      var rest := env.(script := env.script[1..]);
      match env.script[0]
      case Submit(command) => Upcoming(if env.open then rest.(queue := env.queue + [command]) else rest)
      case CloseSenders => Upcoming(rest.(open := false))
      case Arrives(bytes) => Upcoming(rest.(socket := env.socket + [Reading.Data(bytes)]))
      case Breaks(kind) => Upcoming(rest.(socket := env.socket + [Reading.Fail(kind)]))
      case event => (Some(event), rest)
  }

  lemma EventFirst(event: Event, tail: seq<Event>, socket: seq<Reading.IoEvent>, queue: seq<Command>, open: bool)
    ensures Upcoming(Env([event] + tail, socket, queue, open)) ==
            match event
            case Submit(command) => Upcoming(Env(tail, socket, if open then queue + [command] else queue, open))
            case CloseSenders => Upcoming(Env(tail, socket, queue, false))
            case Arrives(bytes) => Upcoming(Env(tail, socket + [Reading.Data(bytes)], queue, open))
            case Breaks(kind) => Upcoming(Env(tail, socket + [Reading.Fail(kind)], queue, open))
            case _ => (Some(event), Env(tail, socket, queue, open))
  {
    assert ([event] + tail)[1..] == tail;
  }

  /** `rx.recv()` when it is polled. */
  function Dequeued(env: Env): (Received, Env) {
    if env.queue == [] then (if env.open then NotReady else Closed, env)
    else (Taken(env.queue[0]), env.(queue := env.queue[1..]))
  }

  function Set(enabled: bool, setting: Setting): bool {
    match setting
    case Enable => true
    case Disable => false
    case DecodeLevel => enabled
  }

  // Outside a session.

  datatype Outside = Outside(env: Env, enabled: bool, fired: seq<Completion>)

  function FailedCommand(s: Outside, command: Command): (Option<StateChange>, Outside) {
    match command
    case Perform(request) => (None, s.(fired := s.fired + [Completion(request.id, Err(NoConnection))]))
    case Change(setting) =>
      var enabled := Set(s.enabled, setting);
      (if enabled then None else Some(ToDisabled), s.(enabled := enabled))
  }

  /** The queue is looked at outside a session: the change of state that follows, if a command or the end was there. */
  function FailedReceived(s: Outside): (r: (Option<Option<StateChange>>, Outside))
    ensures r.1.env.script == s.env.script
    ensures r.0 == Some(Some(ToShutdown)) ==> r.1.env.queue == [] && !r.1.env.open
    ensures r.0 == Some(Some(ToDisabled)) ==> !r.1.enabled
    ensures r.0 == None ==> r.1 == s
    ensures r.0 == Some(None) && s.enabled ==> r.1.enabled
  {
    var (received, env) := Dequeued(s.env);
    match received
    case NotReady => (None, s)
    case Closed => (Some(Some(ToShutdown)), s)
    case Taken(command) => var (change, s') := FailedCommand(s.(env := env), command); (Some(change), s')
  }

  function FailedNext(s: Outside): (r: (Flow<Option<StateChange>>, Outside))
    ensures |r.1.env.script| <= |s.env.script|
    ensures r.0.Dropped? ==> r.1.env.script == []
    ensures r.0.Ended? ==> |r.1.env.script| < |s.env.script|
    ensures r.0 == Ended(Some(ToShutdown)) ==> r.1.env.queue == [] && !r.1.env.open
    ensures r.0 == Ended(Some(ToDisabled)) ==> !r.1.enabled
    ensures r.0 == Ended(None) && s.enabled ==> r.1.enabled
    decreases |s.env.script|
  {
    var (e, rest) := Upcoming(s.env);
    if e.None? then (Dropped, s.(env := rest))
    else if !e.value.Receive? then FailedNext(s.(env := rest))
    else
      var (change, s') := FailedReceived(s.(env := rest));
      if change.None? then FailedNext(s') else (Ended(change.value), s')
  }

  function WaitedForEnabled(s: Outside): (r: (Flow<bool>, Outside))
    ensures |r.1.env.script| <= |s.env.script|
    ensures r.0.Dropped? ==> r.1.env.script == []
    ensures r.0 == Ended(true) ==> r.1.enabled
    ensures r.0 == Ended(false) ==> r.1.env.queue == [] && !r.1.env.open
    decreases |s.env.script|
  {
    if s.enabled then (Ended(true), s)
    else
      var (end, s') := FailedNext(s);
      match end
      case Dropped => (Dropped, s')
      case Ended(Some(ToShutdown)) => (Ended(false), s')
      case Ended(_) => WaitedForEnabled(s')
  }

  function FailedRequests(s: Outside, connecting: bool): (r: (Flow<Result<bool, StateChange>>, Outside))
    ensures |r.1.env.script| <= |s.env.script|
    ensures r.0.Dropped? ==> r.1.env.script == []
    ensures r.0.Ended? ==> |r.1.env.script| < |s.env.script|
    decreases |s.env.script|
  {
    var (e, rest) := Upcoming(s.env);
    match e
    case None => (Dropped, s.(env := rest))
    case Some(ConnectDone(connected)) =>
      if connecting then (Ended(Ok(connected)), s.(env := rest)) else FailedRequests(s.(env := rest), connecting)
    case Some(DelayElapsed) =>
      if connecting then FailedRequests(s.(env := rest), connecting) else (Ended(Ok(true)), s.(env := rest))
    case Some(Receive) =>
      (var (change, s') := FailedReceived(s.(env := rest));
       match change
       case Some(Some(c)) => (Ended(Err(c)), s')
       case _ => FailedRequests(s', connecting))
    case Some(_) => FailedRequests(s.(env := rest), connecting)
  }

  /** How the wait ends, and what that says about the channel. */
  lemma {:induction false} FailedRequestsEnd(s: Outside, connecting: bool)
    ensures var (r, s') := FailedRequests(s, connecting);
            && (r == Ended(Err(ToShutdown)) ==> s'.env.queue == [] && !s'.env.open)
            && (r == Ended(Err(ToDisabled)) ==> !s'.enabled)
            && (r.Ended? && r.value.Ok? && s.enabled ==> s'.enabled)
    decreases |s.env.script|
  {
    hide Upcoming, FailedReceived;
    var (e, rest) := Upcoming(s.env);
    if e.Some? {
      if e.value.Receive? {
        var (change, s') := FailedReceived(s.(env := rest));
        if change == None || change == Some(None) {
          FailedRequestsEnd(s', connecting);
        }
      } else {
        FailedRequestsEnd(s.(env := rest), connecting);
      }
    }
  }

  function AwaitedAttempt(env: Env, handshake: bool): (r: (Flow<bool>, Env))
    ensures r.0.Dropped? ==> r.1.script == []
    ensures r.0.Ended? ==> |r.1.script| < |env.script|
    decreases |env.script|
  {
    var (e, rest) := Upcoming(env);
    match e
    case None => (Dropped, rest)
    case Some(HandshakeDone(secure)) => if handshake then (Ended(secure), rest) else AwaitedAttempt(rest, handshake)
    case Some(ConnectDone(connected)) => if handshake then AwaitedAttempt(rest, handshake) else (Ended(connected), rest)
    case Some(_) => AwaitedAttempt(rest, handshake)
  }

  // Inside a session.

  function AwaitedWrite(env: Env): (r: (Flow<Option<IoErrorKind>>, Env))
    ensures |r.1.script| <= |env.script| && (r.0.Dropped? ==> r.1.script == [])
    decreases |env.script|
  {
    var (e, rest) := Upcoming(env);
    match e
    case None => (Dropped, rest)
    case Some(WriteDone(error)) => (Ended(error), rest)
    case Some(_) => AwaitedWrite(rest)
  }

  /** How the wait for a response ends, and what is left after it. */
  datatype Answer = Answer(skipped: seq<Frame>, cause: Cause, env: Env, reader: Reading.Reader)

  /** One look at the connection. */
  function Looked(env: Env, r: Reading.Reader): (x: (Reading.Status, Env, Reading.Reader))
    requires r.Valid()
    ensures x.2.Valid() && x.1.script == env.script
  {
    Reading.NextFrameProgress(r, env.socket);
    var next := Reading.NextFrame(r, env.socket);
    (next.status, env.(socket := next.script), next.reader)
  }

  function AwaitedResponse(id: u16, env: Env, r: Reading.Reader): (a: Answer)
    requires r.Valid()
    ensures a.reader.Valid() && |a.env.script| <= |env.script| && (a.cause.Abandoned? ==> a.env.script == [])
    decreases |env.script|
  {
    var (e, rest) := Upcoming(env);
    match e
    case None => Answer([], Abandoned, rest, r)
    case Some(Deadline) => Answer([], TimedOut, rest, r)
    case Some(ReadReady) =>
      (var (status, env', r') := Looked(rest, r);
       match status
       case Failed(kind) => Answer([], ReadFailed(kind), env', r')
       case Output(Bad(error)) => Answer([], BadlyFramed(error), env', r')
       case Output(Got(frame)) =>
         if !Foreign(id, frame) then Answer([], AnsweredBy(frame), env', r')
         else
           var a := AwaitedResponse(id, env', r');
           a.(skipped := [frame] + a.skipped)
       case _ => AwaitedResponse(id, env', r'))
    case Some(_) => AwaitedResponse(id, rest, r)
  }

  /** The answer to a wait that has already skipped some frames. */
  function After(skipped: seq<Frame>, a: Answer): Answer { a.(skipped := skipped + a.skipped) }

  lemma AfterNothing(a: Answer)
    ensures After([], a) == a
  {
    assert [] + a.skipped == a.skipped;
  }

  lemma AnswerAfter(skipped: seq<Frame>, a: Answer)
    ensures After(skipped, a) == Answer(skipped + a.skipped, a.cause, a.env, a.reader)
  {}

  lemma AfterAgain(first: seq<Frame>, second: seq<Frame>, a: Answer)
    ensures After(first + second, a) == After(first, After(second, a))
  {
    assert (first + second) + a.skipped == first + (second + a.skipped);
  }

  function Conversed(id: u16, env: Env, r: Reading.Reader): (a: Answer)
    requires r.Valid()
    ensures a.reader.Valid() && |a.env.script| <= |env.script| && (a.cause.Abandoned? ==> a.env.script == [])
  {
    var (written, rest) := AwaitedWrite(env);
    match written
    case Dropped => Answer([], Abandoned, rest, r)
    case Ended(Some(kind)) => Answer([], WriteFailed(kind), rest, r)
    case Ended(None) => AwaitedResponse(id, rest, r)
  }

  /** A whole transaction: its result, and what is left after it. */
  function Executed(format: FormatType, request: ClientRequest, id: u16, env: Env, r: Reading.Reader): (a: Answer)
    requires r.Valid()
    ensures a.reader.Valid() && |a.env.script| <= |env.script| && (a.cause.Abandoned? ==> a.env.script == [])
  {
    match FormattedRequest(format, request.unit, id, request.details)
    case Err(e) => Answer([], NotFormatted(e), env, r)
    case Ok(_) => Conversed(id, env, r)
  }

  datatype Inside = Inside(outside: Outside, reader: Reading.Reader, transactions: seq<Transaction>)
  {
    function Env(): Env { outside.env }

    function WithEnv(env: Env): Inside { this.(outside := outside.(env := env)) }
  }

  /** How a transaction ends its turn: only I/O and framing errors end the session with it. */
  function EndOf(t: Transaction): Flow<Option<SessionError>> {
    if t.cause.Abandoned? then Dropped
    else Ended(if t.Result().Err? then FromRequestError(t.Result().error) else None)
  }

  function Performed(format: FormatType, s: Inside, request: ClientRequest): (r: (Flow<Option<SessionError>>, Inside))
    requires s.reader.Valid()
    ensures r.1.outside.enabled == s.outside.enabled
    ensures r.0.Ended? && r.0.value.Some? ==> r.0.value.value.IoError? || r.0.value.value.BadFrameError?
    ensures r.1.reader.Valid() && |r.1.Env().script| <= |s.Env().script| && (r.0.Dropped? ==> r.1.Env().script == [])
  {
    var id := |s.transactions| % 0x1_0000;
    var a := Executed(format, request, id, s.Env(), s.reader);
    var t := Transaction(request, id, a.skipped, a.cause);
    (EndOf(t), Inside(Outside(a.env, s.outside.enabled, s.outside.fired + [Completion(request.id, t.Result())]), a.reader,
                      s.transactions + [t]))
  }

  function Commanded(format: FormatType, s: Inside, command: Command): (r: (Flow<Option<SessionError>>, Inside))
    requires s.reader.Valid()
    ensures s.outside.enabled ==> (r.1.outside.enabled <==> r.0 != Ended(Some(Disabled)))
    ensures r.0 != Ended(Some(SessionShutdown))
    ensures r.1.reader.Valid() && |r.1.Env().script| <= |s.Env().script| && (r.0.Dropped? ==> r.1.Env().script == [])
  {
    match command
    case Perform(request) => Performed(format, s, request)
    case Change(setting) =>
      var enabled := Set(s.outside.enabled, setting);
      (Ended(if enabled then None else Some(Disabled)), s.(outside := s.outside.(enabled := enabled)))
  }

  /** What a look at the connection between transactions means for the session; nothing, if it still waits. */
  function IdleEnd(status: Reading.Status): Option<Flow<Option<SessionError>>> {
    match status
    case Failed(kind) => Some(Ended(Some(IoError(kind))))
    case Output(Bad(_)) => Some(Ended(Some(BadFrameError)))
    case Output(Got(_)) => Some(Ended(None))
    case _ => None
  }

  /** The queue is looked at in a session. */
  function CommandReceived(format: FormatType, s: Inside): (r: (Option<Flow<Option<SessionError>>>, Inside))
    requires s.reader.Valid()
    ensures r.1.reader.Valid() && |r.1.Env().script| <= |s.Env().script|
    ensures r.0 == None ==> r.1 == s
    ensures r.0 == Some(Dropped) ==> r.1.Env().script == []
    ensures s.outside.enabled ==> (r.1.outside.enabled <==> r.0 != Some(Ended(Some(Disabled))))
    ensures r.0 == Some(Ended(Some(SessionShutdown))) ==> r.1.Env().queue == [] && !r.1.Env().open
  {
    var (received, env) := Dequeued(s.Env());
    match received
    case NotReady => (None, s)
    case Closed => (Some(Ended(Some(SessionShutdown))), s)
    case Taken(command) => var (end, s') := Commanded(format, s.WithEnv(env), command); (Some(end), s')
  }

  function Polled(format: FormatType, s: Inside): (r: (Flow<Option<SessionError>>, Inside))
    requires s.reader.Valid()
    ensures r.1.reader.Valid() && |r.1.Env().script| <= |s.Env().script| && (r.0.Dropped? ==> r.1.Env().script == [])
    ensures r.0.Ended? ==> |r.1.Env().script| < |s.Env().script|
    decreases |s.Env().script|
  {
    var (e, rest) := Upcoming(s.Env());
    match e
    case None => (Dropped, s.WithEnv(rest))
    case Some(ReadReady) =>
      (var (status, env, r) := Looked(rest, s.reader);
       var s' := s.WithEnv(env).(reader := r);
       match IdleEnd(status)
       case Some(end) => (end, s')
       case None => Polled(format, s'))
    case Some(Receive) =>
      (var (end, s') := CommandReceived(format, s.WithEnv(rest));
       match end
       case Some(x) => (x, s')
       case None => Polled(format, s'))
    case Some(_) => Polled(format, s.WithEnv(rest))
  }

  function Ran(format: FormatType, s: Inside): (r: (Flow<SessionError>, Inside))
    requires s.reader.Valid()
    ensures r.1.reader.Valid() && |r.1.Env().script| <= |s.Env().script| && (r.0.Dropped? ==> r.1.Env().script == [])
    ensures r.0.Ended? ==> |r.1.Env().script| < |s.Env().script|
    decreases |s.Env().script|
  {
    var (end, s') := Polled(format, s);
    match end
    case Dropped => (Dropped, s')
    case Ended(Some(error)) => (Ended(error), s')
    case Ended(None) => Ran(format, s')
  }

  /** The state of a session after its next `n` turns. */
  function AfterPolls(format: FormatType, s: Inside, n: nat): (r: Inside)
    requires s.reader.Valid()
    ensures r.reader.Valid()
    decreases n
  {
    if n == 0 then s else AfterPolls(format, Polled(format, s).1, n - 1)
  }

  lemma {:induction false} PolledEnd(format: FormatType, s: Inside)
    requires s.reader.Valid() && s.outside.enabled
    ensures var (r, s') := Polled(format, s);
            && (s'.outside.enabled <==> r != Ended(Some(Disabled)))
            && (r == Ended(Some(SessionShutdown)) ==> s'.Env().queue == [] && !s'.Env().open)
    decreases |s.Env().script|
  {
    hide Upcoming, Looked, CommandReceived;
    var (e, rest) := Upcoming(s.Env());
    if e == Some(ReadReady) {
      var (status, env, r) := Looked(rest, s.reader);
      if IdleEnd(status).None? {
        PolledEnd(format, s.WithEnv(env).(reader := r));
      }
    } else if e == Some(Receive) {
      var (end, s') := CommandReceived(format, s.WithEnv(rest));
      if end.None? {
        PolledEnd(format, s');
      }
    } else if e.Some? {
      PolledEnd(format, s.WithEnv(rest));
    }
  }

  lemma {:induction false} RanEnd(format: FormatType, s: Inside)
    requires s.reader.Valid() && s.outside.enabled
    ensures var (r, s') := Ran(format, s);
            && (s'.outside.enabled <==> r != Ended(Disabled))
            && (r == Ended(SessionShutdown) ==> s'.Env().queue == [] && !s'.Env().open)
    decreases |s.Env().script|
  {
    hide Polled;
    PolledEnd(format, s);
    if Polled(format, s).0 == Ended(None) {
      RanEnd(format, Polled(format, s).1);
    }
  }

  // ----- what a session hears -----

  /** `heard` is what `next_frame` returned since the reader was `r` and had been delivered `before`. */
  ghost predicate Listened(r: Reading.Reader, before: seq<u8>, heard: seq<Framing.Outcome>, now: Reading.Reader,
                           delivered: seq<u8>)
  {
    before <= delivered && Reading.Heard(r, delivered[|before|..], heard, now)
  }

  lemma StartListening(r: Reading.Reader, delivered: seq<u8>)
    requires r.Valid()
    ensures Listened(r, delivered, [], r, delivered) && Gots([]) == []
  {
    hide Reading.Heard;
    Reading.HeardNothing(r);
    assert delivered[|delivered|..] == [];
  }

  lemma KeepListening(r0: Reading.Reader, d0: seq<u8>, heard: seq<Framing.Outcome>, r1: Reading.Reader, d1: seq<u8>,
                      more: seq<Framing.Outcome>, r2: Reading.Reader, d2: seq<u8>)
    requires Listened(r0, d0, heard, r1, d1) && Listened(r1, d1, more, r2, d2)
    ensures Listened(r0, d0, heard + more, r2, d2)
  {
    hide Reading.Heard;
    Reading.HeardThen(r0, d1[|d0|..], heard, r1, d2[|d1|..], more, r2);
    assert d1[|d0|..] + d2[|d1|..] == d2[|d0|..];
  }

  /** What the transactions read, one after the other, with what was heard between them. */
  function Interleave(gaps: seq<seq<Framing.Outcome>>, ts: seq<Transaction>): seq<Framing.Outcome>
    requires |gaps| == |ts| + 1
    decreases |ts|
  {
    if ts == [] then gaps[0] else gaps[0] + ts[0].Heard() + Interleave(gaps[1..], ts[1..])
  }

  /** `heard` is made of the parts of these transactions, in their order, and of gaps between them. */
  ghost predicate MadeOf(heard: seq<Framing.Outcome>, ts: seq<Transaction>) {
    exists gaps: seq<seq<Framing.Outcome>> :: |gaps| == |ts| + 1 && heard == Interleave(gaps, ts)
  }

  /** What was heard while the transactions grew from `before` to `after`. */
  ghost predicate HeardIn(heard: seq<Framing.Outcome>, before: seq<Transaction>, after: seq<Transaction>) {
    before <= after && MadeOf(heard, after[|before|..])
  }

  lemma OnlyGaps(heard: seq<Framing.Outcome>, ts: seq<Transaction>)
    ensures HeardIn(heard, ts, ts)
  {
    assert heard == Interleave([heard], []) && ts[|ts|..] == [];
  }

  lemma OneTransaction(before: seq<Transaction>, t: Transaction)
    ensures HeardIn(t.Heard(), before, before + [t])
  {
    hide Transaction.Heard;
    var gaps: seq<seq<Framing.Outcome>> := [[], []];
    assert (before + [t])[|before|..] == [t] && [t][1..] == [] && gaps[1..] == [[]];
    assert t.Heard() == [] + t.Heard() + [];
    assert Interleave(gaps, [t]) == [] + t.Heard() + Interleave([[]], []);
  }

  /** Two gaps that meet become one. */
  function Joined(a: seq<seq<Framing.Outcome>>, b: seq<seq<Framing.Outcome>>): seq<seq<Framing.Outcome>>
    requires a != [] && b != []
  {
    a[..|a| - 1] + [a[|a| - 1] + b[0]] + b[1..]
  }

  lemma {:induction false} InterleaveJoined(a: seq<seq<Framing.Outcome>>, ts: seq<Transaction>,
                                            b: seq<seq<Framing.Outcome>>, us: seq<Transaction>)
    requires |a| == |ts| + 1 && |b| == |us| + 1
    ensures |Joined(a, b)| == |ts + us| + 1
    ensures Interleave(Joined(a, b), ts + us) == Interleave(a, ts) + Interleave(b, us)
    decreases |ts|
  {
    hide Transaction.Heard;
    if ts == [] {
      assert ts + us == us;
      if us == [] {
        assert Joined(a, b) == [a[0] + b[0]];
      } else {
        assert Joined(a, b)[0] == a[0] + b[0] && Joined(a, b)[1..] == b[1..];
        assert (a[0] + b[0]) + us[0].Heard() + Interleave(b[1..], us[1..]) ==
               a[0] + (b[0] + us[0].Heard() + Interleave(b[1..], us[1..]));
      }
    } else {
      InterleaveJoined(a[1..], ts[1..], b, us);
      assert (ts + us)[1..] == ts[1..] + us && Joined(a, b)[1..] == Joined(a[1..], b);
      assert Joined(a, b)[0] == a[0] && (ts + us)[0] == ts[0];
    }
  }

  lemma HeardMore(heard: seq<Framing.Outcome>, before: seq<Transaction>, middle: seq<Transaction>,
                  more: seq<Framing.Outcome>, after: seq<Transaction>)
    requires HeardIn(heard, before, middle) && HeardIn(more, middle, after)
    ensures HeardIn(heard + more, before, after)
  {
    hide Interleave;
    var ts, us := middle[|before|..], after[|middle|..];
    var a: seq<seq<Framing.Outcome>> :| |a| == |ts| + 1 && heard == Interleave(a, ts);
    var b: seq<seq<Framing.Outcome>> :| |b| == |us| + 1 && more == Interleave(b, us);
    InterleaveJoined(a, ts, b, us);
    assert after[|before|..] == ts + us;
  }

  /** Each transaction of a session read a part of what it heard. */
  ghost predicate IsPart(part: seq<Framing.Outcome>, heard: seq<Framing.Outcome>) {
    exists pre: seq<Framing.Outcome>, post: seq<Framing.Outcome> :: heard == pre + part + post
  }

  lemma {:induction false} PartOfInterleave(gaps: seq<seq<Framing.Outcome>>, ts: seq<Transaction>, n: nat)
    requires |gaps| == |ts| + 1 && n < |ts|
    ensures IsPart(ts[n].Heard(), Interleave(gaps, ts))
    decreases |ts|
  {
    hide Transaction.Heard;
    var tail := Interleave(gaps[1..], ts[1..]);
    if n == 0 {
      assert Interleave(gaps, ts) == gaps[0] + ts[0].Heard() + tail;
    } else {
      PartOfInterleave(gaps[1..], ts[1..], n - 1);
      var pre: seq<Framing.Outcome>, post: seq<Framing.Outcome> :| tail == pre + ts[n].Heard() + post;
      assert Interleave(gaps, ts) == (gaps[0] + ts[0].Heard() + pre) + ts[n].Heard() + post;
    }
  }

  /** A session that is over: the reader before it, what it delivered and what was heard, and the reader after it. */
  datatype Session = Session(start: Reading.Reader, bytes: seq<u8>, heard: seq<Framing.Outcome>, end: Reading.Reader,
                             transactions: seq<Transaction>)
  {
    ghost predicate Valid() {
      Reading.Heard(start, bytes, heard, end) && MadeOf(heard, transactions)
    }
  }

  lemma PartOfSession(s: Session, n: nat)
    requires s.Valid() && n < |s.transactions|
    ensures IsPart(s.transactions[n].Heard(), s.heard)
  {
    hide Interleave, IsPart, Reading.Heard;
    var gaps: seq<seq<Framing.Outcome>> :| |gaps| == |s.transactions| + 1 && s.heard == Interleave(gaps, s.transactions);
    PartOfInterleave(gaps, s.transactions, n);
  }

  /** The transactions of all sessions, in order. */
  function AllTransactions(sessions: seq<Session>): seq<Transaction> {
    if sessions == [] then []
    else AllTransactions(sessions[..|sessions| - 1]) + sessions[|sessions| - 1].transactions
  }

  /**
   The chronicle of a channel: each session heard a one-shot parse of what its connection delivered, made of
   the parts of its own transactions in their order; every transaction belongs to one session; and each
   session starts with the reader as the one before it left it.
   */
  ghost predicate Chronicled(sessions: seq<Session>, transactions: seq<Transaction>, first: Reading.Reader,
                             now: Reading.Reader)
  {
    && (forall i | 0 <= i < |sessions| :: sessions[i].Valid())
    && AllTransactions(sessions) == transactions
    && (forall i | 0 <= i < |sessions| - 1 :: sessions[i].end == sessions[i + 1].start)
    && (if sessions == [] then first == now else sessions[0].start == first && sessions[|sessions| - 1].end == now)
  }

  lemma NothingChronicled(r: Reading.Reader)
    ensures Chronicled([], [], r, r)
  {}

  /** The transactions since `before`. */
  function NewSince(before: seq<Transaction>, after: seq<Transaction>): seq<Transaction> {
    if |before| <= |after| then after[|before|..] else []
  }

  lemma SessionIsValid(s: Session, before: seq<Transaction>, after: seq<Transaction>)
    requires Reading.Heard(s.start, s.bytes, s.heard, s.end)
    requires HeardIn(s.heard, before, after) && s.transactions == NewSince(before, after)
    ensures s.Valid() && after == before + s.transactions
  {
    hide MadeOf, Reading.Heard;
  }

  lemma ChronicleMore(sessions: seq<Session>, transactions: seq<Transaction>, first: Reading.Reader, s: Session)
    requires Chronicled(sessions, transactions, first, s.start) && s.Valid()
    ensures Chronicled(sessions + [s], transactions + s.transactions, first, s.end)
  {
    hide Session.Valid;
    assert (sessions + [s])[..|sessions|] == sessions;
  }

  // ----- transaction ids over whole runs -----

  /**
   A frame that carries the id of one transaction can have answered another only if the two are a
   multiple of 65536 transactions apart.
   */
  lemma LateEcho(transactions: seq<Transaction>, m: nat, n: nat)
    requires Matched(TcpFormat, transactions) && m < |transactions| && n < |transactions|
    requires transactions[n].cause.AnsweredBy? && transactions[n].cause.frame.txId == Some(transactions[m].txId)
    ensures (n - m) % 0x1_0000 == 0
  {
    assert transactions[n].txId == n % 0x1_0000 && transactions[m].txId == m % 0x1_0000;
    assert Proper(TcpFormat, transactions[n]);
  }
}
