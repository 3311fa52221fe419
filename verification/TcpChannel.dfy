/**
 The TCP channel task: connect, run a session, wait, and tell a listener about it.
 */
module TcpChannels {
  import opened Types
  import opened FrameWriters
  import opened ClientRequests
  import opened ClientRuns
  import opened ClientLoops
  import opened Retry
  import Framing
  import Reading
  import FramedReaders

  datatype ClientState =
    | IsDisabled
    | Connecting
    | Connected
    | WaitAfterFailedConnect(delay: nat)
    | WaitAfterDisconnect(delay: nat)
    | IsShutdown

  /** An update of the listener, and whether the channel was enabled at that moment. */
  datatype Update = Update(state: ClientState, enabled: bool)

  // ----- what the listener may see -----

  /** Where a run is, judged by its last update; `Wrong` is never left. */
  datatype Mode = Initial | InDisabled | InConnecting | InConnected | InWait | Over | Wrong

  function NextMode(mode: Mode, state: ClientState): Mode {
    match (mode, state)
    case (Initial, IsDisabled) => InDisabled
    case (InDisabled, Connecting) => InConnecting
    case (InWait, Connecting) => InConnecting
    case (InConnecting, Connected) => InConnected
    case (InConnecting, WaitAfterFailedConnect(_)) => InWait
    case (InConnected, WaitAfterDisconnect(_)) => InWait
    case (InConnecting, IsDisabled) => InDisabled
    case (InWait, IsDisabled) => InDisabled
    case (InDisabled, IsShutdown) => Over
    case (InConnecting, IsShutdown) => Over
    case (InConnected, IsShutdown) => Over
    case (InWait, IsShutdown) => Over
    case _ => Wrong
  }

  function ModeAfter(mode: Mode, trace: seq<Update>): Mode {
    if trace == [] then mode else NextMode(ModeAfter(mode, trace[..|trace| - 1]), trace[|trace| - 1].state)
  }

  lemma ModeAppend(mode: Mode, trace: seq<Update>, u: Update)
    ensures ModeAfter(mode, trace + [u]) == NextMode(ModeAfter(mode, trace), u.state)
  {
    assert (trace + [u])[..|trace|] == trace;
  }

  // The same language, as rounds read from the front.

  function States(trace: seq<Update>): seq<ClientState> {
    seq(|trace|, i requires 0 <= i < |trace| => trace[i].state)
  }

  /** The length of the round at the front: a connect attempt, its session or its wait, and a final `IsDisabled`. */
  function RoundLength(t: seq<ClientState>): nat {
    if |t| < 2 || t[0] != Connecting then 0
    else if t[1].IsDisabled? then 2
    else if t[1].WaitAfterFailedConnect? then (if |t| > 2 && t[2].IsDisabled? then 3 else 2)
    else if t[1].Connected? && |t| > 2 && t[2].WaitAfterDisconnect? then
      (if |t| > 3 && t[3].IsDisabled? then 4 else 3)
    else 0
  }

  /** Rounds, then a shutdown, which may cut the last round short after `Connecting` or `Connected`. */
  predicate Rounds(t: seq<ClientState>)
    decreases |t|
  {
    || t == [IsShutdown]
    || t == [Connecting, IsShutdown]
    || t == [Connecting, Connected, IsShutdown]
    || (0 < RoundLength(t) <= |t| && Rounds(t[RoundLength(t)..]))
  }

  /** The complete runs of the listener. */
  predicate CompleteRun(t: seq<ClientState>) { t != [] && t[0] == IsDisabled && Rounds(t[1..]) }

  function ModeFrom(mode: Mode, t: seq<ClientState>): Mode
    decreases |t|
  {
    if t == [] then mode else ModeFrom(NextMode(mode, t[0]), t[1..])
  }

  lemma {:induction false} ModeFromAppend(mode: Mode, t: seq<ClientState>, s: ClientState)
    ensures ModeFrom(mode, t + [s]) == NextMode(ModeFrom(mode, t), s)
    decreases |t|
  {
    if t == [] {
      assert t + [s] == [s] && [s][1..] == [];
    } else {
      ModeFromAppend(NextMode(mode, t[0]), t[1..], s);
      assert (t + [s])[1..] == t[1..] + [s];
    }
  }

  lemma {:induction false} ModeAfterIsModeFrom(mode: Mode, trace: seq<Update>)
    ensures ModeAfter(mode, trace) == ModeFrom(mode, States(trace))
    decreases |trace|
  {
    if trace != [] {
      var front, last := trace[..|trace| - 1], trace[|trace| - 1];
      ModeAfterIsModeFrom(mode, front);
      ModeFromAppend(mode, States(front), last.state);
      assert States(trace) == States(front) + [last.state];
    }
  }

  lemma {:induction false} StaysWrong(t: seq<ClientState>)
    ensures ModeFrom(Wrong, t) == Wrong
    ensures ModeFrom(Over, t) == Over <==> t == []
    decreases |t|
  {
    if t != [] {
      StaysWrong(t[1..]);
    }
  }

  lemma WaitOrDisabled(t: seq<ClientState>)
    ensures ModeFrom(InWait, t) == Over <==>
            ModeFrom(InDisabled, if t != [] && t[0].IsDisabled? then t[1..] else t) == Over
  {}

  lemma {:induction false} RoundsIff(t: seq<ClientState>)
    ensures ModeFrom(InDisabled, t) == Over <==> Rounds(t)
    decreases |t|, 2
  {
    if t != [] {
      StaysWrong(t[1..]);
      if t[0] == Connecting {
        AttemptIff(t);
      }
    }
  }

  lemma {:induction false} AttemptIff(t: seq<ClientState>)
    requires t != [] && t[0] == Connecting
    ensures ModeFrom(InDisabled, t) == Over <==> Rounds(t)
    decreases |t|, 1
  {
    assert ModeFrom(InDisabled, t) == ModeFrom(InConnecting, t[1..]);
    if |t| > 1 {
      var rest := t[2..];
      assert t[1..][1..] == rest;
      assert ModeFrom(InConnecting, t[1..]) == ModeFrom(NextMode(InConnecting, t[1]), rest);
      StaysWrong(rest);
      match t[1]
      case IsDisabled => RoundsIff(rest);
      case WaitAfterFailedConnect(_) => AfterWaitIff(t, 2);
      case Connected =>
        if |t| > 2 {
          assert rest[1..] == t[3..];
          assert ModeFrom(InConnected, rest) == ModeFrom(NextMode(InConnected, t[2]), t[3..]);
          StaysWrong(t[3..]);
          if t[2].WaitAfterDisconnect? {
            AfterWaitIff(t, 3);
          }
        }
      case IsShutdown => assert rest == [] <==> t == [Connecting, IsShutdown];
      case _ =>
    }
  }

  lemma AfterWaitIff(t: seq<ClientState>, n: nat)
    requires 0 < n <= |t|
    ensures ModeFrom(InWait, t[n..]) == Over <==>
            Rounds(t[if n < |t| && t[n].IsDisabled? then n + 1 else n..])
    decreases |t| - n, 3
  {
    var m := if n < |t| && t[n].IsDisabled? then n + 1 else n;
    WaitOrDisabled(t[n..]);
    assert (if t[n..] != [] && t[n..][0].IsDisabled? then t[n..][1..] else t[n..]) == t[m..];
    RoundsIff(t[m..]);
  }

  /** A listener has seen a run to its end exactly when what it saw is a complete run. */
  lemma OverIffCompleteRun(trace: seq<Update>)
    ensures ModeAfter(Initial, trace) == Over <==> CompleteRun(States(trace))
  {
    ModeAfterIsModeFrom(Initial, trace);
    var t := States(trace);
    if t != [] {
      StaysWrong(t[1..]);
      RoundsIff(t[1..]);
    }
  }

  // ----- delays -----

  /** Failed connect attempts since the last connection. */
  function Failures(trace: seq<Update>): nat {
    if trace == [] then 0
    else
      var rest := trace[..|trace| - 1];
      match trace[|trace| - 1].state
      case Connected => 0
      case WaitAfterFailedConnect(_) => Failures(rest) + 1
      case _ => Failures(rest)
  }

  lemma FailuresAppend(trace: seq<Update>, u: Update)
    ensures Failures(trace + [u]) ==
            match u.state
            case Connected => 0
            case WaitAfterFailedConnect(_) => Failures(trace) + 1
            case _ => Failures(trace)
  {
    assert (trace + [u])[..|trace|] == trace;
  }

  /** An update is right where it stands: its delay, and whether the channel is enabled. */
  ghost predicate RightUpdate(min: nat, max: nat, before: seq<Update>, u: Update) {
    match u.state
    case IsDisabled => !u.enabled
    case Connecting => u.enabled
    case Connected => u.enabled
    case WaitAfterFailedConnect(delay) => delay == Delay(min, max, Failures(before))
    case WaitAfterDisconnect(delay) => delay == min
    case IsShutdown => true
  }

  ghost predicate RightTrace(min: nat, max: nat, trace: seq<Update>) {
    forall i | 0 <= i < |trace| :: RightUpdate(min, max, trace[..i], trace[i])
  }

  lemma EmptyTrace(min: nat, max: nat)
    ensures RightTrace(min, max, []) && Failures([]) == 0
  {}

  lemma RightAppend(min: nat, max: nat, trace: seq<Update>, u: Update)
    requires RightTrace(min, max, trace) && RightUpdate(min, max, trace, u)
    ensures RightTrace(min, max, trace + [u])
  {
    forall i | 0 <= i < |trace + [u]|
      ensures RightUpdate(min, max, (trace + [u])[..i], (trace + [u])[i])
    {
      assert (trace + [u])[..i] == trace[..i];
    }
  }

  // ----- the task as a function of what happens -----

  datatype Channel = Channel(inside: Inside, trace: seq<Update>)
  {
    function Told(state: ClientState): Channel { this.(trace := trace + [Update(state, inside.outside.enabled)]) }

    function With(outside: Outside): Channel { this.(inside := inside.(outside := outside)) }

    predicate Valid() { inside.reader.Valid() }

    function Left(): nat { |inside.Env().script| }
  }

  function FailedWhile(c: Channel, connecting: bool): (r: (Flow<Result<bool, StateChange>>, Channel))
    ensures r.1.inside.reader == c.inside.reader && r.1.Left() <= c.Left() && (r.0.Ended? ==> r.1.Left() < c.Left())
  {
    var (r, outside) := FailedRequests(c.inside.outside, connecting);
    (r, c.With(outside))
  }

  function AfterFailedAttempt(min: nat, max: nat, c: Channel): (r: (Flow<Result<bool, StateChange>>, Channel))
    ensures r.1.inside.reader == c.inside.reader && r.1.Left() <= c.Left()
  {
    FailedWhile(c.Told(WaitAfterFailedConnect(Delay(min, max, Failures(c.trace)))), false)
  }

  function AfterBrokenSession(min: nat, c: Channel): (r: (Flow<Result<bool, StateChange>>, Channel))
    ensures r.1.inside.reader == c.inside.reader && r.1.Left() <= c.Left()
  {
    FailedWhile(c.Told(WaitAfterDisconnect(min)), false)
  }

  function RanSession(min: nat, c: Channel): (r: (Flow<Result<bool, StateChange>>, Channel))
    requires c.Valid()
    ensures r.1.Valid() && r.1.Left() <= c.Left()
  {
    var c1 := c.Told(Connected);
    var (end, s) := Ran(TcpFormat, c1.inside.WithEnv(c1.inside.Env().(socket := [])));
    var c2 := c1.(inside := s);
    match end
    case Dropped => (Dropped, c2)
    case Ended(SessionShutdown) => (Ended(Err(ToShutdown)), c2)
    case Ended(_) => AfterBrokenSession(min, c2)
  }

  /** `try_connect_and_run` */
  function Attempted(min: nat, max: nat, c: Channel): (r: (Flow<Result<bool, StateChange>>, Channel))
    requires c.Valid()
    ensures r.1.Valid() && r.1.Left() <= c.Left() && (r.0.Ended? ==> r.1.Left() < c.Left())
  {
    var (r, c1) := FailedWhile(c.Told(Connecting), true);
    if r.Dropped? || r.value.Err? then (r, c1)
    else if !r.value.value then AfterFailedAttempt(min, max, c1)
    else
      var (secure, env) := AwaitedAttempt(c1.inside.Env(), true);
      var c2 := c1.(inside := c1.inside.WithEnv(env));
      match secure
      case Dropped => (Dropped, c2)
      case Ended(true) => RanSession(min, c2)
      case Ended(false) => AfterFailedAttempt(min, max, c2)
  }

  /** `run_inner` */
  function RanInner(min: nat, max: nat, c: Channel): (r: (Flow<()>, Channel))
    requires c.Valid()
    ensures r.1.Valid()
    decreases c.Left()
  {
    var (enabled, outside) := WaitedForEnabled(c.inside.outside);
    var c1 := c.With(outside);
    match enabled
    case Dropped => (Dropped, c1)
    case Ended(false) => (Ended(()), c1)
    case Ended(true) =>
      var (end, c2) := Attempted(min, max, c1);
      match end
      case Dropped => (Dropped, c2)
      case Ended(Err(ToShutdown)) => (Ended(()), c2)
      case Ended(_) => RanInner(min, max, if c2.inside.outside.enabled then c2 else c2.Told(IsDisabled))
  }

  class TcpChannelTask {
    const loop: ClientLoop
    const retry: Doubling
    var trace: seq<Update>

    ghost predicate Valid()
      reads this, loop, loop.callbacks, retry
      reads loop.reader.ParserObject(), loop.reader.buffer, loop.reader.buffer.buffer
    {
      && loop.writer.format == TcpFormat
      && loop.Valid() && loop.Linked() && loop.Between() && loop.now.Valid() && !loop.inSession
      && retry.Valid() && retry.failures == Failures(trace) && loop.reader.ParserObject() != retry
      && RightTrace(retry.min, retry.max, trace)
    }

    ghost function Now(): (c: Channel)
      reads this`trace, loop`script, loop`socket, loop`queue, loop`open, loop`enabled, loop`transactions, loop`now
      reads loop.callbacks
      ensures c.inside.reader == loop.now && c.trace == trace && c.inside.transactions == loop.transactions
      ensures c.inside.outside.enabled == loop.enabled && c.inside.outside.fired == loop.callbacks.fired
    {
      Channel(loop.State(), trace)
    }

    /** The task has not been dropped. */
    ghost predicate Running()
      reads loop
    {
      Undropped(loop.origins, loop.transactions)
    }

    ghost function Where(): Mode
      reads this
    {
      ModeAfter(Initial, trace)
    }

    constructor (loop: ClientLoop, retry: Doubling)
      ensures this.loop == loop && this.retry == retry && trace == []
    {
      this.loop, this.retry, trace := loop, retry, [];
    }

    /** `listener.update(..)` for anything but a change of the retry state */
    method Tell(state: ClientState)
      requires loop.Valid() && RightTrace(retry.min, retry.max, trace)
      requires RightUpdate(retry.min, retry.max, trace, Update(state, loop.enabled))
      modifies this`trace
      ensures trace == old(trace) + [Update(state, loop.enabled)] && Now() == old(Now()).Told(state)
      ensures RightTrace(retry.min, retry.max, trace)
      ensures Where() == NextMode(old(Where()), state)
      ensures Failures(trace) ==
              match state
              case Connected => 0
              case WaitAfterFailedConnect(_) => old(Failures(trace)) + 1
              case _ => old(Failures(trace))
    {
      RightAppend(retry.min, retry.max, trace, Update(state, loop.enabled));
      ModeAppend(Initial, trace, Update(state, loop.enabled));
      FailuresAppend(trace, Update(state, loop.enabled));
      trace := trace + [Update(state, loop.enabled)];
    }

    // Waits that tell the listener nothing.

    method FailFor(connecting: bool) returns (r: Flow<Result<bool, StateChange>>)
      requires Valid() && Running()
      modifies loop, loop.callbacks
      ensures Valid() && Running() && trace == old(trace)
      ensures (r, Now()) == FailedWhile(old(Now()), connecting)
      ensures OnlyNoConnection(old(loop.callbacks.fired), loop.callbacks.fired)
      ensures r.Dropped? ==> loop.script == []
      ensures r.Ended? ==> |loop.script| < |old(loop.script)|
      ensures r == Ended(Err(ToShutdown)) ==> loop.queue == [] && !loop.open
      ensures r == Ended(Err(ToDisabled)) ==> !loop.enabled
      ensures r.Ended? && r.value.Ok? && old(loop.enabled) ==> loop.enabled
    {
      hide FailedRequests, ClientLoop.Valid, ClientLoop.Linked, ClientLoop.Between, OnlyNoConnection, Undropped, RightTrace;
      hide Failures;
      r := loop.FailRequests(connecting);
    }

    method EnabledOrClosed() returns (r: Flow<bool>)
      requires Valid() && Running()
      modifies loop, loop.callbacks
      ensures Valid() && Running() && trace == old(trace)
      ensures var (end, outside) := WaitedForEnabled(old(Now()).inside.outside);
              r == end && Now() == old(Now()).With(outside)
      ensures |loop.script| <= |old(loop.script)|
      ensures r == Ended(true) ==> loop.enabled
      ensures r == Ended(false) ==> loop.queue == [] && !loop.open
    {
      hide WaitedForEnabled, ClientLoop.Valid, ClientLoop.Linked, ClientLoop.Between, OnlyNoConnection, Undropped, RightTrace;
      hide Failures;
      r := loop.WaitForEnabled();
    }

    method Attempt(handshake: bool) returns (r: Flow<bool>)
      requires Valid() && Running()
      modifies loop
      ensures Valid() && Running() && trace == old(trace) && loop.enabled == old(loop.enabled)
      ensures var (end, env) := AwaitedAttempt(old(Now()).inside.Env(), handshake);
              r == end && Now() == old(Now()).(inside := old(Now()).inside.WithEnv(env))
      ensures r.Dropped? ==> loop.script == []
      ensures r.Ended? ==> |loop.script| < |old(loop.script)|
    {
      hide AwaitedAttempt, ClientLoop.Valid, ClientLoop.Linked, ClientLoop.Between, Undropped, RightTrace, Failures;
      r := loop.AwaitAttempt(handshake);
    }

    /** A failed attempt: tell the listener, and fail requests until the delay is over. */
    method AfterFailure() returns (r: Flow<Result<bool, StateChange>>)
      requires Valid() && Running() && Where() == InConnecting
      modifies this`trace, retry, loop, loop.callbacks
      ensures Valid() && Running() && Where() == InWait
      ensures (r, Now()) == AfterFailedAttempt(retry.min, retry.max, old(Now()))
      ensures OnlyNoConnection(old(loop.callbacks.fired), loop.callbacks.fired)
      ensures |loop.script| <= |old(loop.script)| && (r.Dropped? ==> loop.script == [])
      ensures r == Ended(Err(ToShutdown)) ==> loop.queue == [] && !loop.open
      ensures r == Ended(Err(ToDisabled)) ==> !loop.enabled
    {
      hide TcpChannelTask.Now, Delay;
      hide FailedWhile, WaitedForEnabled, AwaitedAttempt, Ran;
      hide ClientLoop.Valid, ClientLoop.Linked, ClientLoop.Between, OnlyNoConnection, Undropped, RightTrace, Failures, ModeAfter;
      var delay := retry.AfterFailedConnect();
      Tell(WaitAfterFailedConnect(delay));
      r := FailFor(false);
    }

    /** A session that broke: tell the listener, and fail requests until the delay is over. */
    method AfterSession() returns (r: Flow<Result<bool, StateChange>>)
      requires Valid() && Running() && Where() == InConnected
      modifies this`trace, loop, loop.callbacks
      ensures Valid() && Running() && Where() == InWait
      ensures (r, Now()) == AfterBrokenSession(retry.min, old(Now()))
      ensures OnlyNoConnection(old(loop.callbacks.fired), loop.callbacks.fired)
      ensures |loop.script| <= |old(loop.script)| && (r.Dropped? ==> loop.script == [])
      ensures r == Ended(Err(ToShutdown)) ==> loop.queue == [] && !loop.open
      ensures r == Ended(Err(ToDisabled)) ==> !loop.enabled
    {
      hide TcpChannelTask.Now;
      hide FailedWhile, WaitedForEnabled, AwaitedAttempt, Ran;
      hide ClientLoop.Valid, ClientLoop.Linked, ClientLoop.Between, OnlyNoConnection, Undropped, RightTrace, Failures, ModeAfter;
      var delay := retry.AfterDisconnect();
      Tell(WaitAfterDisconnect(delay));
      r := FailFor(false);
    }

    /** A connection: tell the listener, and forget earlier failures. */
    method AfterConnect()
      requires Valid() && Where() == InConnecting && loop.enabled
      modifies this`trace, retry
      ensures Valid() && Where() == InConnected && Now() == old(Now()).Told(Connected)
    {
      hide TcpChannelTask.Now;
      hide FailedWhile, WaitedForEnabled, AwaitedAttempt, Ran;
      hide ClientLoop.Valid, ClientLoop.Linked, ClientLoop.Between, RightTrace, Failures, ModeAfter, Delay;
      Tell(Connected);
      retry.Reset();
    }

    /** A connection, and what follows when it ends. */
    method RunSession() returns (r: Flow<Result<bool, StateChange>>)
      requires Valid() && Running() && Where() == InConnecting && loop.enabled
      modifies this`trace, retry, loop, loop.callbacks, loop.writer.buffer
      modifies loop.reader.ParserObject(), loop.reader.buffer, loop.reader.buffer.buffer
      ensures Valid() && Where() in {InConnected, InWait} && (r.Ended? ==> Running())
      ensures old(Now()).Valid() && (r, Now()) == RanSession(retry.min, old(Now()))
      ensures |loop.script| <= |old(loop.script)| && (r.Dropped? ==> loop.script == [])
      ensures r == Ended(Err(ToShutdown)) ==> loop.queue == [] && !loop.open
      ensures r == Ended(Err(ToDisabled)) ==> !loop.enabled && Where() == InWait
      ensures r.Ended? && r.value.Ok? ==> Where() == InWait
    {
      hide FailedWhile, WaitedForEnabled, AwaitedAttempt, Ran;
      hide ClientLoop.Valid, ClientLoop.Linked, ClientLoop.Between, Undropped, RightTrace, Failures, ModeAfter, Delay;
      hide FramedReaders.FramedReader.ParserObject;
      loop.reader.Apart(this);
      loop.reader.Apart(retry);
      loop.reader.Apart(loop.callbacks);
      AfterConnect();
      var end := loop.Connection();
      match end
      case Dropped => r := Dropped;
      case Ended(SessionShutdown) => r := Ended(Err(ToShutdown));
      case Ended(_) => r := AfterSession();
    }

    /** `try_connect_and_run` */
    method TryConnectAndRun() returns (r: Flow<Result<bool, StateChange>>)
      requires Valid() && Running() && Where() in {InDisabled, InWait} && loop.enabled
      modifies this`trace, retry, loop, loop.callbacks, loop.writer.buffer
      modifies loop.reader.ParserObject(), loop.reader.buffer, loop.reader.buffer.buffer
      ensures Valid() && (r.Ended? ==> Running())
      ensures old(Now()).Valid() && (r, Now()) == Attempted(retry.min, retry.max, old(Now()))
      ensures r.Dropped? ==> loop.script == []
      ensures r.Ended? ==> |loop.script| < |old(loop.script)|
      ensures Where() in {InConnecting, InConnected, InWait}
      ensures r == Ended(Err(ToShutdown)) ==> loop.queue == [] && !loop.open
      ensures r == Ended(Err(ToDisabled)) ==> !loop.enabled && Where() in {InConnecting, InWait}
      ensures r.Ended? && r.value.Ok? ==> Where() == InWait
    {
      hide TcpChannelTask.Now, AfterFailedAttempt, RanSession;
      hide FailedWhile, WaitedForEnabled, AwaitedAttempt, Ran;
      hide ClientLoop.Valid, ClientLoop.Linked, ClientLoop.Between, OnlyNoConnection, Undropped, RightTrace, Failures, ModeAfter;
      Tell(Connecting);
      r := FailFor(true);
      if r.Dropped? || r.value.Err? {
        return;
      }
      if r.value.value {
        var secure := Attempt(true);
        if secure.Dropped? {
          return Dropped;
        }
        if secure.value {
          r := RunSession();
          return;
        }
      }
      r := AfterFailure();
    }

    /** One round of `run_inner` */
    method InnerTurn() returns (r: Option<Flow<()>>)
      requires Valid() && Running() && Where() in {InDisabled, InWait}
      modifies this`trace, retry, loop, loop.callbacks, loop.writer.buffer
      modifies loop.reader.ParserObject(), loop.reader.buffer, loop.reader.buffer.buffer
      ensures Valid() && Where() in {InDisabled, InConnecting, InConnected, InWait}
      ensures r != Some(Dropped) ==> Running()
      ensures old(Now()).Valid() && Now().Valid()
      ensures RanInner(retry.min, retry.max, old(Now())) ==
              if r.Some? then (r.value, Now()) else RanInner(retry.min, retry.max, Now())
      ensures r.Some? && r.value.Ended? ==> loop.queue == [] && !loop.open
      ensures r.None? ==> Where() in {InDisabled, InWait} && |loop.script| < |old(loop.script)|
    {
      hide TcpChannelTask.Now, Attempted, WaitedForEnabled;
      hide ClientLoop.Valid, ClientLoop.Linked, ClientLoop.Between, OnlyNoConnection, Undropped, RightTrace, Failures, ModeAfter;
      var enabled := EnabledOrClosed();
      if enabled.Dropped? {
        return Some(Dropped);
      }
      if !enabled.value {
        return Some(Ended(()));
      }
      var end := TryConnectAndRun();
      if end.Dropped? {
        return Some(Dropped);
      }
      if end.value == Err(ToShutdown) {
        return Some(Ended(()));
      }
      assert end.value.Ok? || end.value.error == ToDisabled;
      if !loop.enabled {
        Tell(IsDisabled);
      }
      r := None;
    }

    /** `run_inner`, until the channel is shut down */
    method RunInner() returns (r: Flow<()>)
      requires Valid() && Running() && Where() == InDisabled
      modifies this`trace, retry, loop, loop.callbacks, loop.writer.buffer
      modifies loop.reader.ParserObject(), loop.reader.buffer, loop.reader.buffer.buffer
      ensures Valid() && Where() in {InDisabled, InConnecting, InConnected, InWait} && (r.Ended? ==> Running())
      ensures old(Now()).Valid() && (r, Now()) == RanInner(retry.min, retry.max, old(Now()))
      ensures r.Ended? ==> loop.queue == [] && !loop.open
    {
      hide TcpChannelTask.Now, RanInner;
      hide ClientLoop.Valid, ClientLoop.Linked, ClientLoop.Between, Undropped, RightTrace, Failures, ModeAfter;
      while true
        invariant Valid() && Running() && Where() in {InDisabled, InWait} && Now().Valid() && old(Now()).Valid()
        invariant RanInner(retry.min, retry.max, Now()) == RanInner(retry.min, retry.max, old(Now()))
        decreases |loop.script|
      {
        var end := InnerTurn();
        if end.Some? {
          return end.value;
        }
      }
    }

    /**
     A whole run of the task, over any environment. Every request ever submitted has completed exactly
     once, in the order of submission: with the result of its transaction, or with `NoConnection` if and only
     if it was taken from the queue outside a session, or with `Shutdown` if and only if the task was dropped.
     The n-th transaction has the id n modulo 65536, and ended in one of the ways of `Proper`; if it was
     answered, then by a frame with its own id. What went out is what the transactions send, each its own
     request, while the channel was enabled and connected. The listener saw a prefix of the allowed updates,
     all of them if the run came to its end.
     */
    method Run() returns (r: Flow<()>)
      requires Valid() && Running() && trace == [] && !loop.enabled
      modifies this`trace, retry, loop, loop.callbacks, loop.writer.buffer
      modifies loop.reader.ParserObject(), loop.reader.buffer, loop.reader.buffer.buffer
      ensures loop.submitted == Ids(loop.callbacks.fired)
      ensures Explained(loop.callbacks.fired, loop.origins, loop.transactions)
      ensures Telling(loop.callbacks.fired, loop.origins, loop.transactions)
      ensures Matched(TcpFormat, loop.transactions)
      ensures loop.wire == Transmitted(TcpFormat, loop.transactions)
      ensures loop.now.Valid() && Chronicled(loop.sessions, loop.transactions, loop.start, loop.now)
      ensures old(Now()).Valid()
      ensures var (end, c) := RanInner(retry.min, retry.max, old(Now()).Told(IsDisabled));
              && r == end && loop.transactions == c.inside.transactions
              && (r.Ended? ==> Now() == c.Told(IsShutdown))
              && (r.Dropped? ==> trace == c.trace && c.inside.outside.fired <= loop.callbacks.fired)
      ensures RightTrace(retry.min, retry.max, trace)
      ensures r.Ended? ==> CompleteRun(States(trace)) && !loop.open && Undropped(loop.origins, loop.transactions)
      ensures r.Dropped? ==> Where() in {InDisabled, InConnecting, InConnected, InWait}
    {
      hide TcpChannelTask.Now, RanInner, Ids;
      hide ClientLoop.Valid, ClientLoop.Linked, Chronicled, Matched, Transmitted, Explained, Telling, Undropped;
      hide RightTrace, Failures, ModeAfter;
      InitialMode();
      Tell(IsDisabled);
      r := RunInner();
      if r.Dropped? {
        loop.DropQueue();
      } else {
        Tell(IsShutdown);
        OverIffCompleteRun(trace);
      }
      loop.Account();
    }
  }

  /** A new channel, with everything that it owns. */
  method NewChannel(min: nat, max: nat, script: seq<Event>) returns (task: TcpChannelTask)
    ensures task.Valid() && task.Running() && task.trace == [] && !task.loop.enabled && task.loop.script == script
    ensures task.retry.min == min && task.retry.max == max
    ensures task.loop.submitted == [] && task.loop.callbacks.fired == []
    ensures task.loop.start == Reading.Fresh(Framing.Tcp(Framing.Begin))
  {
    hide RightTrace, Failures, Delay, ClientLoop.Valid, ClientLoop.Linked, ClientLoop.Between;
    hide FramedReaders.FramedReader.Valid, FramedReaders.FramedReader.Value;
    EmptyTrace(min, max);
    var writer := new FrameWriter(TcpFormat);
    var reader := new FramedReaders.FramedReader.Tcp();
    var loop := new ClientLoop(writer, reader, script);
    var retry := new Doubling(min, max);
    task := new TcpChannelTask(loop, retry);
  }

  lemma InitialMode()
    ensures ModeAfter(Initial, []) == Initial
  {}
}
