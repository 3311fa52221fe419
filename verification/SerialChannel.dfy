/**
 The serial channel task: the same client loop behind a port that is opened and reopened.
 */
module SerialChannels {
  import opened Types
  import opened FrameWriters
  import opened ClientRuns
  import opened ClientLoops
  import opened Retry
  import Framing
  import Reading
  import FramedReaders

  datatype PortState = PortDisabled | Wait(delay: nat) | Open | PortShutdown

  datatype Update = Update(state: PortState, enabled: bool)

  /** Failed attempts to open the port since it was last open: the waits that do not follow `Open`. */
  function Failures(trace: seq<Update>): nat {
    if trace == [] then 0
    else
      var rest := trace[..|trace| - 1];
      match trace[|trace| - 1].state
      case Open => 0
      case Wait(_) => if IsOpen(rest) then 0 else Failures(rest) + 1
      case _ => Failures(rest)
  }

  /** The last update was `Open`. */
  predicate IsOpen(trace: seq<Update>) { trace != [] && trace[|trace| - 1].state.Open? }

  predicate Is(trace: seq<Update>, state: PortState) { trace != [] && trace[|trace| - 1].state == state }

  /** An update is right where it stands. */
  ghost predicate RightUpdate(min: nat, max: nat, before: seq<Update>, u: Update) {
    && !Is(before, PortShutdown)
    && match u.state
       case PortDisabled => !u.enabled && !Is(before, PortDisabled)
       case Open => u.enabled && before != [] && !IsOpen(before)
       case Wait(delay) =>
         && before != [] && (IsOpen(before) ==> u.enabled)
         && delay == if IsOpen(before) then min else Delay(min, max, Failures(before))
       case PortShutdown => before != []
  }

  ghost predicate RightTrace(min: nat, max: nat, trace: seq<Update>) {
    forall i | 0 <= i < |trace| :: RightUpdate(min, max, trace[..i], trace[i])
  }

  lemma EmptyTrace(min: nat, max: nat)
    ensures RightTrace(min, max, []) && Failures([]) == 0
  {}

  lemma RightAppend(min: nat, max: nat, trace: seq<Update>, u: Update)
    requires RightTrace(min, max, trace) && RightUpdate(min, max, trace, u)
    ensures RightTrace(min, max, trace + [u])
  {
    forall i | 0 <= i < |trace + [u]|
      ensures RightUpdate(min, max, (trace + [u])[..i], (trace + [u])[i])
    {
      assert (trace + [u])[..i] == trace[..i];
    }
  }

  lemma FailuresAppend(trace: seq<Update>, u: Update)
    ensures Failures(trace + [u]) ==
            match u.state
            case Open => 0
            case Wait(_) => (if IsOpen(trace) then 0 else Failures(trace) + 1)
            case _ => Failures(trace)
  {
    assert (trace + [u])[..|trace|] == trace;
  }

  // ----- the task as a function of what happens -----

  datatype Channel = Channel(inside: Inside, trace: seq<Update>)
  {
    function Told(state: PortState): Channel { this.(trace := trace + [Update(state, inside.outside.enabled)]) }

    function With(outside: Outside): Channel { this.(inside := inside.(outside := outside)) }

    predicate Valid() { inside.reader.Valid() }

    function Left(): nat { |inside.Env().script| }
  }

  function FailedWhile(c: Channel, connecting: bool): (r: (Flow<Result<bool, StateChange>>, Channel))
    ensures r.1.inside.reader == c.inside.reader && r.1.Left() <= c.Left() && (r.0.Ended? ==> r.1.Left() < c.Left())
  {
    var (r, outside) := FailedRequests(c.inside.outside, connecting);
    (r, c.With(outside))
  }

  function Waited(c: Channel, delay: nat): (r: (Flow<Result<bool, StateChange>>, Channel))
    ensures r.1.inside.reader == c.inside.reader && r.1.Left() <= c.Left()
  {
    FailedWhile(c.Told(Wait(delay)), false)
  }

  function RanSession(min: nat, c: Channel): (r: (Flow<Result<bool, StateChange>>, Channel))
    requires c.Valid()
    ensures r.1.Valid() && r.1.Left() <= c.Left()
  {
    var c1 := c.Told(Open);
    var (end, s) := Ran(RtuFormat, c1.inside.WithEnv(c1.inside.Env().(socket := [])));
    var c2 := c1.(inside := s);
    match end
    case Dropped => (Dropped, c2)
    case Ended(SessionShutdown) => (Ended(Err(ToShutdown)), c2)
    case Ended(Disabled) => (Ended(Ok(true)), c2)
    case Ended(_) => Waited(c2, min)
  }

  /** `try_open_and_run` */
  function Attempted(min: nat, max: nat, c: Channel): (r: (Flow<Result<bool, StateChange>>, Channel))
    requires c.Valid()
    ensures r.1.Valid() && r.1.Left() <= c.Left() && (r.0.Ended? ==> r.1.Left() < c.Left())
  {
    var (attempt, env) := AwaitedAttempt(c.inside.Env(), false);
    var c1 := c.(inside := c.inside.WithEnv(env));
    match attempt
    case Dropped => (Dropped, c1)
    case Ended(true) => RanSession(min, c1)
    case Ended(false) => Waited(c1, Delay(min, max, Failures(c1.trace)))
  }

  /** `run_inner` */
  function RanInner(min: nat, max: nat, c: Channel): (r: (Flow<()>, Channel))
    requires c.Valid()
    ensures r.1.Valid()
    decreases c.Left()
  {
    var (enabled, outside) := WaitedForEnabled(c.inside.outside);
    var c1 := c.With(outside);
    match enabled
    case Dropped => (Dropped, c1)
    case Ended(false) => (Ended(()), c1)
    case Ended(true) =>
      var (end, c2) := Attempted(min, max, c1);
      match end
      case Dropped => (Dropped, c2)
      case Ended(Err(ToShutdown)) => (Ended(()), c2)
      case Ended(_) => RanInner(min, max, if c2.inside.outside.enabled then c2 else c2.Told(PortDisabled))
  }

  class SerialChannelTask {
    const loop: ClientLoop
    const retry: Doubling
    var trace: seq<Update>

    ghost predicate Valid()
      reads this, loop, loop.callbacks, retry
      reads loop.reader.ParserObject(), loop.reader.buffer, loop.reader.buffer.buffer
    {
      && loop.writer.format == RtuFormat
      && loop.Valid() && loop.Linked() && loop.Between() && loop.now.Valid() && !loop.inSession
      && retry.Valid() && retry.failures == Failures(trace) && loop.reader.ParserObject() != retry
      && RightTrace(retry.min, retry.max, trace)
    }

    ghost function Now(): (c: Channel)
      reads this`trace, loop`script, loop`socket, loop`queue, loop`open, loop`enabled, loop`transactions, loop`now
      reads loop.callbacks
      ensures c.inside.reader == loop.now && c.trace == trace && c.inside.transactions == loop.transactions
      ensures c.inside.outside.enabled == loop.enabled && c.inside.outside.fired == loop.callbacks.fired
    {
      Channel(loop.State(), trace)
    }

    /** The task has not been dropped. */
    ghost predicate Running()
      reads loop
    {
      Undropped(loop.origins, loop.transactions)
    }

    constructor (loop: ClientLoop, retry: Doubling)
      ensures this.loop == loop && this.retry == retry && trace == []
    {
      this.loop, this.retry, trace := loop, retry, [];
    }

    method Tell(state: PortState)
      requires RightTrace(retry.min, retry.max, trace)
      requires RightUpdate(retry.min, retry.max, trace, Update(state, loop.enabled))
      modifies this`trace
      ensures trace == old(trace) + [Update(state, loop.enabled)] && Now() == old(Now()).Told(state)
      ensures RightTrace(retry.min, retry.max, trace)
      ensures Failures(trace) ==
              match state
              case Open => 0
              case Wait(_) => (if old(IsOpen(trace)) then 0 else old(Failures(trace)) + 1)
              case _ => old(Failures(trace))
    {
      RightAppend(retry.min, retry.max, trace, Update(state, loop.enabled));
      FailuresAppend(trace, Update(state, loop.enabled));
      trace := trace + [Update(state, loop.enabled)];
    }

    // Waits that tell the listener nothing.

    method FailFor(connecting: bool) returns (r: Flow<Result<bool, StateChange>>)
      requires Valid() && Running()
      modifies loop, loop.callbacks
      ensures Valid() && Running() && trace == old(trace)
      ensures (r, Now()) == FailedWhile(old(Now()), connecting)
      ensures OnlyNoConnection(old(loop.callbacks.fired), loop.callbacks.fired)
      ensures r.Dropped? ==> loop.script == []
      ensures r.Ended? ==> |loop.script| < |old(loop.script)|
      ensures r == Ended(Err(ToShutdown)) ==> loop.queue == [] && !loop.open
      ensures r == Ended(Err(ToDisabled)) ==> !loop.enabled
      ensures r.Ended? && r.value.Ok? && old(loop.enabled) ==> loop.enabled
    {
      hide FailedRequests, ClientLoop.Valid, ClientLoop.Linked, ClientLoop.Between, OnlyNoConnection, Undropped, RightTrace;
      hide Failures;
      r := loop.FailRequests(connecting);
    }

    method EnabledOrClosed() returns (r: Flow<bool>)
      requires Valid() && Running()
      modifies loop, loop.callbacks
      ensures Valid() && Running() && trace == old(trace)
      ensures var (end, outside) := WaitedForEnabled(old(Now()).inside.outside);
              r == end && Now() == old(Now()).With(outside)
      ensures |loop.script| <= |old(loop.script)|
      ensures r == Ended(true) ==> loop.enabled
      ensures r == Ended(false) ==> loop.queue == [] && !loop.open
    {
      hide WaitedForEnabled, ClientLoop.Valid, ClientLoop.Linked, ClientLoop.Between, OnlyNoConnection, Undropped, RightTrace;
      hide Failures;
      r := loop.WaitForEnabled();
    }

    method Attempt(handshake: bool) returns (r: Flow<bool>)
      requires Valid() && Running()
      modifies loop
      ensures Valid() && Running() && trace == old(trace) && loop.enabled == old(loop.enabled)
      ensures var (end, env) := AwaitedAttempt(old(Now()).inside.Env(), handshake);
              r == end && Now() == old(Now()).(inside := old(Now()).inside.WithEnv(env))
      ensures r.Dropped? ==> loop.script == []
      ensures r.Ended? ==> |loop.script| < |old(loop.script)|
    {
      hide AwaitedAttempt, ClientLoop.Valid, ClientLoop.Linked, ClientLoop.Between, Undropped, RightTrace, Failures;
      r := loop.AwaitAttempt(handshake);
    }

    /** Tell the listener about a delay, and fail requests until it is over. */
    method WaitFor(delay: nat) returns (r: Flow<Result<bool, StateChange>>)
      requires loop.Valid() && loop.Linked() && loop.Between() && loop.now.Valid() && !loop.inSession
      requires loop.writer.format == RtuFormat && Running()
      requires RightTrace(retry.min, retry.max, trace)
      requires RightUpdate(retry.min, retry.max, trace, Update(Wait(delay), loop.enabled))
      requires loop.reader.ParserObject() != retry
      requires retry.Valid() && retry.failures == if IsOpen(trace) then 0 else Failures(trace) + 1
      modifies this`trace, loop, loop.callbacks
      ensures Valid() && Running() && trace != [] && trace[|trace| - 1].state.Wait?
      ensures (r, Now()) == Waited(old(Now()), delay)
      ensures OnlyNoConnection(old(loop.callbacks.fired), loop.callbacks.fired)
      ensures |loop.script| <= |old(loop.script)| && (r.Dropped? ==> loop.script == [])
      ensures r == Ended(Err(ToShutdown)) ==> loop.queue == [] && !loop.open
    {
      hide SerialChannelTask.Now;
      hide FailedWhile, WaitedForEnabled, AwaitedAttempt, Ran;
      hide ClientLoop.Valid, ClientLoop.Linked, ClientLoop.Between, OnlyNoConnection, Undropped, RightTrace, Failures;
      Tell(Wait(delay));
      r := FailFor(false);
    }

    /** The port is open: forget earlier failures, and tell the listener. */
    method AfterOpen()
      requires Valid() && trace != [] && !Is(trace, PortShutdown) && !IsOpen(trace) && loop.enabled
      modifies this`trace, retry
      ensures Valid() && IsOpen(trace) && retry.failures == 0 && Now() == old(Now()).Told(Open)
    {
      hide SerialChannelTask.Now;
      hide FailedWhile, WaitedForEnabled, AwaitedAttempt, Ran;
      hide ClientLoop.Valid, ClientLoop.Linked, ClientLoop.Between, RightTrace, Failures, Delay;
      retry.Reset();
      Tell(Open);
    }

    /** A session that broke: wait before the port is opened again. */
    method AfterSession() returns (r: Flow<Result<bool, StateChange>>)
      requires Valid() && Running() && IsOpen(trace) && retry.failures == 0 && loop.enabled
      modifies this`trace, loop, loop.callbacks
      ensures Valid() && Running() && trace != [] && trace[|trace| - 1].state.Wait?
      ensures (r, Now()) == Waited(old(Now()), retry.min)
      ensures OnlyNoConnection(old(loop.callbacks.fired), loop.callbacks.fired)
      ensures |loop.script| <= |old(loop.script)| && (r.Dropped? ==> loop.script == [])
      ensures r == Ended(Err(ToShutdown)) ==> loop.queue == [] && !loop.open
    {
      hide SerialChannelTask.Now, Waited;
      hide FailedWhile, WaitedForEnabled, AwaitedAttempt, Ran;
      hide ClientLoop.Valid, ClientLoop.Linked, ClientLoop.Between, OnlyNoConnection, Undropped, RightTrace, Failures;
      var delay := retry.AfterDisconnect();
      r := WaitFor(delay);
    }

    /** The port is open: run a session. A disabled channel does not wait, a broken session does. */
    method RunSession() returns (r: Flow<Result<bool, StateChange>>)
      requires Valid() && Running() && trace != [] && !Is(trace, PortShutdown) && !IsOpen(trace) && loop.enabled
      modifies this`trace, retry, loop, loop.callbacks, loop.writer.buffer
      modifies loop.reader.ParserObject(), loop.reader.buffer, loop.reader.buffer.buffer
      ensures Valid() && trace != [] && (IsOpen(trace) || trace[|trace| - 1].state.Wait?) && (r.Ended? ==> Running())
      ensures old(Now()).Valid() && (r, Now()) == RanSession(retry.min, old(Now()))
      ensures r.Dropped? ==> loop.script == []
      ensures |loop.script| <= |old(loop.script)|
      ensures r == Ended(Err(ToShutdown)) ==> loop.queue == [] && !loop.open
      ensures r.Ended? && r != Ended(Err(ToShutdown)) && IsOpen(trace) ==> !loop.enabled
    {
      hide FailedWhile, WaitedForEnabled, AwaitedAttempt, Ran;
      hide ClientLoop.Valid, ClientLoop.Linked, ClientLoop.Between, Undropped, RightTrace, Failures, Delay;
      hide FramedReaders.FramedReader.ParserObject;
      loop.reader.Apart(this);
      loop.reader.Apart(retry);
      loop.reader.Apart(loop.callbacks);
      AfterOpen();
      var end := loop.Connection();
      match end
      case Dropped => r := Dropped;
      case Ended(SessionShutdown) => r := Ended(Err(ToShutdown));
      case Ended(Disabled) => r := Ended(Ok(true));
      case Ended(_) => r := AfterSession();
    }

    /** `try_open_and_run` */
    method TryOpenAndRun() returns (r: Flow<Result<bool, StateChange>>)
      requires Valid() && Running() && trace != [] && !Is(trace, PortShutdown) && !IsOpen(trace) && loop.enabled
      modifies this`trace, retry, loop, loop.callbacks, loop.writer.buffer
      modifies loop.reader.ParserObject(), loop.reader.buffer, loop.reader.buffer.buffer
      ensures Valid() && trace != [] && !Is(trace, PortShutdown) && (r.Ended? ==> Running())
      ensures old(Now()).Valid() && (r, Now()) == Attempted(retry.min, retry.max, old(Now()))
      ensures r.Dropped? ==> loop.script == []
      ensures r.Ended? ==> |loop.script| < |old(loop.script)|
      ensures r == Ended(Err(ToShutdown)) ==> loop.queue == [] && !loop.open
      ensures r.Ended? && r != Ended(Err(ToShutdown)) ==>
                trace[|trace| - 1].state.Wait? || (IsOpen(trace) && !loop.enabled)
    {
      hide SerialChannelTask.Now, Waited, RanSession;
      hide FailedWhile, WaitedForEnabled, AwaitedAttempt, Ran;
      hide ClientLoop.Valid, ClientLoop.Linked, ClientLoop.Between, OnlyNoConnection, Undropped, RightTrace, Failures, Delay;
      var attempt := Attempt(false);
      if attempt.Dropped? {
        return Dropped;
      }
      if attempt.value {
        r := RunSession();
      } else {
        var delay := retry.AfterFailedConnect();
        r := WaitFor(delay);
      }
    }

    /** One round of `run_inner` */
    method InnerTurn() returns (r: Option<Flow<()>>)
      requires Valid() && Running() && trace != [] && (Is(trace, PortDisabled) || trace[|trace| - 1].state.Wait?)
      modifies this`trace, retry, loop, loop.callbacks, loop.writer.buffer
      modifies loop.reader.ParserObject(), loop.reader.buffer, loop.reader.buffer.buffer
      ensures Valid() && trace != [] && !Is(trace, PortShutdown)
      ensures r != Some(Dropped) ==> Running()
      ensures old(Now()).Valid() && Now().Valid()
      ensures RanInner(retry.min, retry.max, old(Now())) ==
              if r.Some? then (r.value, Now()) else RanInner(retry.min, retry.max, Now())
      ensures r.Some? && r.value.Ended? ==> loop.queue == [] && !loop.open
      ensures r.None? ==> Is(trace, PortDisabled) || trace[|trace| - 1].state.Wait?
      ensures r.None? ==> |loop.script| < |old(loop.script)|
    {
      hide SerialChannelTask.Now, Attempted, WaitedForEnabled;
      hide ClientLoop.Valid, ClientLoop.Linked, ClientLoop.Between, OnlyNoConnection, Undropped, RightTrace, Failures, Delay;
      var enabled := EnabledOrClosed();
      if enabled.Dropped? {
        return Some(Dropped);
      }
      if !enabled.value {
        return Some(Ended(()));
      }
      var end := TryOpenAndRun();
      if end.Dropped? {
        return Some(Dropped);
      }
      if end.value == Err(ToShutdown) {
        return Some(Ended(()));
      }
      if !loop.enabled {
        Tell(PortDisabled);
      }
      r := None;
    }

    method RunInner() returns (r: Flow<()>)
      requires Valid() && Running() && Is(trace, PortDisabled)
      modifies this`trace, retry, loop, loop.callbacks, loop.writer.buffer
      modifies loop.reader.ParserObject(), loop.reader.buffer, loop.reader.buffer.buffer
      ensures Valid() && trace != [] && !Is(trace, PortShutdown) && (r.Ended? ==> Running())
      ensures old(Now()).Valid() && (r, Now()) == RanInner(retry.min, retry.max, old(Now()))
      ensures r.Ended? ==> loop.queue == [] && !loop.open
    {
      hide SerialChannelTask.Now, RanInner;
      hide ClientLoop.Valid, ClientLoop.Linked, ClientLoop.Between, Undropped, RightTrace, Failures, Delay;
      while true
        invariant Valid() && Running() && trace != [] && (Is(trace, PortDisabled) || trace[|trace| - 1].state.Wait?)
        invariant Now().Valid() && old(Now()).Valid()
        invariant RanInner(retry.min, retry.max, Now()) == RanInner(retry.min, retry.max, old(Now()))
        decreases |loop.script|
      {
        var end := InnerTurn();
        if end.Some? {
          return end.value;
        }
      }
    }

    /** A whole run: the guarantees of the TCP channel, with the port's own listener. RTU frames have no ids. */
    method Run() returns (r: Flow<()>)
      requires Valid() && Running() && trace == [] && !loop.enabled
      modifies this`trace, retry, loop, loop.callbacks, loop.writer.buffer
      modifies loop.reader.ParserObject(), loop.reader.buffer, loop.reader.buffer.buffer
      ensures loop.submitted == Ids(loop.callbacks.fired)
      ensures Explained(loop.callbacks.fired, loop.origins, loop.transactions)
      ensures Telling(loop.callbacks.fired, loop.origins, loop.transactions)
      ensures Matched(RtuFormat, loop.transactions)
      ensures loop.wire == Transmitted(RtuFormat, loop.transactions)
      ensures loop.now.Valid() && Chronicled(loop.sessions, loop.transactions, loop.start, loop.now)
      ensures old(Now()).Valid()
      ensures var (end, c) := RanInner(retry.min, retry.max, old(Now()).Told(PortDisabled));
              && r == end && loop.transactions == c.inside.transactions
              && (r.Ended? ==> Now() == c.Told(PortShutdown))
              && (r.Dropped? ==> trace == c.trace && c.inside.outside.fired <= loop.callbacks.fired)
      ensures RightTrace(retry.min, retry.max, trace)
      ensures trace != [] && trace[0].state.PortDisabled?
      ensures r.Ended? <==> Is(trace, PortShutdown)
      ensures r.Ended? ==> !loop.open && Undropped(loop.origins, loop.transactions)
    {
      hide SerialChannelTask.Now, RanInner;
      hide ClientLoop.Valid, ClientLoop.Linked, Chronicled, Matched, Transmitted, Explained, Telling, Undropped, Failures, Delay;
      Tell(PortDisabled);
      r := RunInner();
      if r.Dropped? {
        loop.DropQueue();
      } else {
        Tell(PortShutdown);
      }
      FirstUpdate(retry.min, retry.max, trace);
      loop.Account();
    }
  }

  /** A new channel, with everything that it owns. */
  method NewChannel(min: nat, max: nat, script: seq<Event>) returns (task: SerialChannelTask)
    ensures task.Valid() && task.Running() && task.trace == [] && !task.loop.enabled && task.loop.script == script
    ensures task.retry.min == min && task.retry.max == max
    ensures task.loop.submitted == [] && task.loop.callbacks.fired == []
    ensures task.loop.start == Reading.Fresh(Framing.Rtu(Framing.Response, Framing.Start))
  {
    hide RightTrace, Failures, Delay, ClientLoop.Valid, ClientLoop.Linked, ClientLoop.Between;
    hide FramedReaders.FramedReader.Valid, FramedReaders.FramedReader.Value;
    EmptyTrace(min, max);
    var writer := new FrameWriter(RtuFormat);
    var reader := new FramedReaders.FramedReader.Rtu(Framing.Response);
    var loop := new ClientLoop(writer, reader, script);
    var retry := new Doubling(min, max);
    task := new SerialChannelTask(loop, retry);
  }

  lemma FirstUpdate(min: nat, max: nat, trace: seq<Update>)
    requires RightTrace(min, max, trace) && trace != []
    ensures trace[0].state.PortDisabled?
  {
    assert RightUpdate(min, max, trace[..0], trace[0]);
  }
}
