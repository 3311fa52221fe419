/**
 What a listener of a channel is told, as a function of the events: how an attempt to connect turns out, and
 that at every moment of every run its last update says whether the channel is disabled.
 */
module ChannelLaws {
  import opened Types
  import opened FrameWriters
  import opened ClientRuns
  import opened ClientLaws
  import opened Retry
  import Tcp = TcpChannels
  import Serial = SerialChannels

  // ----- how an attempt turns out -----

  /** The awaited connect attempt succeeds at `k`, and its handshake does at `m` after that. */
  ghost predicate Succeeds(o: Outside, k: nat, m: nat) {
    && Connects(o, k) && o.env.script[k] == ConnectDone(true)
    && FirstAttempt(o.env.script[k + 1..], true, m) && o.env.script[k + 1..][m] == HandshakeDone(true)
  }

  /** The awaited connect attempt fails at `k`, or its handshake does at `m` after that. */
  ghost predicate Fails(o: Outside, k: nat, m: nat) {
    && Connects(o, k)
    && (o.env.script[k] == ConnectDone(true) ==>
          FirstAttempt(o.env.script[k + 1..], true, m) && o.env.script[k + 1..][m] == HandshakeDone(false))
  }

  lemma FailuresWhileConnecting(trace: seq<Tcp.Update>, enabled: bool)
    ensures Tcp.Failures(trace + [Tcp.Update(Tcp.Connecting, enabled)]) == Tcp.Failures(trace)
  {
    Tcp.FailuresAppend(trace, Tcp.Update(Tcp.Connecting, enabled));
  }

  /** The update of the listener after those of `before`, if there is one. */
  function Next<T>(before: seq<T>, after: seq<T>): Option<T> {
    if |before| < |after| then Some(after[|before|]) else None
  }

  /** The channel that its task has told about the attempt, with the events of the attempt behind it. */
  function Attempting(c: Tcp.Channel, o: Outside): Tcp.Channel { c.Told(Tcp.Connecting).With(o) }

  lemma AttemptUnfolds(min: nat, max: nat, c: Tcp.Channel, o: Outside, secure: bool, env: Env)
    requires c.Valid() && FailedRequests(c.inside.outside, true) == (Ended(Ok(true)), o)
    requires AwaitedAttempt(o.env, true) == (Ended(secure), env)
    ensures Tcp.Attempted(min, max, c) ==
            if secure then Tcp.RanSession(min, Attempting(c, o.(env := env)))
            else Tcp.AfterFailedAttempt(min, max, Attempting(c, o.(env := env)))
  {
    hide FailedRequests, AwaitedAttempt, Tcp.RanSession, Tcp.AfterFailedAttempt;
    assert Tcp.FailedWhile(c.Told(Tcp.Connecting), true) == (Ended(Ok(true)), Attempting(c, o));
  }

  lemma RefusalUnfolds(min: nat, max: nat, c: Tcp.Channel, o: Outside)
    requires c.Valid() && FailedRequests(c.inside.outside, true) == (Ended(Ok(false)), o)
    ensures Tcp.Attempted(min, max, c) == Tcp.AfterFailedAttempt(min, max, Attempting(c, o))
  {
    hide FailedRequests, AwaitedAttempt, Tcp.RanSession, Tcp.AfterFailedAttempt;
    assert Tcp.FailedWhile(c.Told(Tcp.Connecting), true) == (Ended(Ok(false)), Attempting(c, o));
  }

  /** The session of a connection, and what follows. */
  lemma AttemptSucceeds(min: nat, max: nat, c: Tcp.Channel, k: nat, m: nat)
    requires c.Valid() && Succeeds(c.inside.outside, k, m)
    ensures var o := ServeAll(c.inside.outside, k + 1);
            Tcp.Attempted(min, max, c) == Tcp.RanSession(min, Attempting(c, o.(env := PastAll(o.env, m + 1))))
  {
    var o := ServeAll(c.inside.outside, k + 1);
    ConnectLaw(c.inside.outside);
    AttemptLaw(o.env, true);
    hide FailedRequests, AwaitedAttempt, Connects, ServeAll, PastAll, FirstAttempt, Tcp.Attempted, Tcp.RanSession, Attempting;
    AttemptUnfolds(min, max, c, o, true, PastAll(o.env, m + 1));
  }

  /** A failed attempt, and what follows. */
  lemma AttemptFails(min: nat, max: nat, c: Tcp.Channel, k: nat, m: nat)
    requires c.Valid() && Fails(c.inside.outside, k, m)
    ensures var o := ServeAll(c.inside.outside, k + 1);
            var connected := c.inside.outside.env.script[k] == ConnectDone(true);
            Tcp.Attempted(min, max, c) ==
            Tcp.AfterFailedAttempt(min, max, Attempting(c, if connected then o.(env := PastAll(o.env, m + 1)) else o))
  {
    var o := ServeAll(c.inside.outside, k + 1);
    ConnectLaw(c.inside.outside);
    AttemptLaw(o.env, true);
    hide FailedRequests, AwaitedAttempt, Connects, ServeAll, PastAll, FirstAttempt, Tcp.Attempted, Tcp.AfterFailedAttempt, Attempting;
    if c.inside.outside.env.script[k] == ConnectDone(true) {
      AttemptUnfolds(min, max, c, o, false, PastAll(o.env, m + 1));
    } else {
      RefusalUnfolds(min, max, c, o);
    }
  }

  lemma FirstUpdates(min: nat, max: nat, c: Tcp.Channel, o: Outside)
    requires c.Valid()
    ensures var connecting := c.trace + [Tcp.Update(Tcp.Connecting, c.inside.outside.enabled)];
            && connecting + [Tcp.Update(Tcp.Connected, o.enabled)] <= Tcp.RanSession(min, Attempting(c, o)).1.trace
            && connecting + [Tcp.Update(Tcp.WaitAfterFailedConnect(Delay(min, max, Tcp.Failures(c.trace))), o.enabled)] ==
               Tcp.AfterFailedAttempt(min, max, Attempting(c, o)).1.trace
  {
    FailuresWhileConnecting(c.trace, c.inside.outside.enabled);
    hide FailedRequests, Ran, Delay, Tcp.Failures;
  }

  lemma AttemptTells(min: nat, max: nat, c: Tcp.Channel, k: nat, m: nat)
    requires c.Valid()
    ensures var connecting := c.trace + [Tcp.Update(Tcp.Connecting, c.inside.outside.enabled)];
            var trace := Tcp.Attempted(min, max, c).1.trace;
            && (Succeeds(c.inside.outside, k, m) ==>
                  connecting <= trace && Next(connecting, trace).Some? && Next(connecting, trace).value.state == Tcp.Connected)
            && (Fails(c.inside.outside, k, m) ==>
                  connecting <= trace && Next(connecting, trace).Some? &&
                  Next(connecting, trace).value.state == Tcp.WaitAfterFailedConnect(Delay(min, max, Tcp.Failures(c.trace))))
  {
    var o := c.inside.outside;
    hide ServeAll, PastAll, Attempting, Tcp.Failures, Delay;
    hide Tcp.Attempted, Tcp.RanSession, Tcp.AfterFailedAttempt;
    if Succeeds(o, k, m) {
      var o1 := ServeAll(o, k + 1);
      AttemptSucceeds(min, max, c, k, m);
      FirstUpdates(min, max, c, o1.(env := PastAll(o1.env, m + 1)));
    } else if Fails(o, k, m) {
      var o1 := ServeAll(o, k + 1);
      AttemptFails(min, max, c, k, m);
      FirstUpdates(min, max, c, if o.env.script[k] == ConnectDone(true) then o1.(env := PastAll(o1.env, m + 1)) else o1);
    }
  }

  lemma NothingTold(min: nat, max: nat, c: Tcp.Channel)
    requires c.Valid()
    ensures var (r, o) := FailedRequests(c.inside.outside, true);
            var connecting := c.trace + [Tcp.Update(Tcp.Connecting, c.inside.outside.enabled)];
            r.Dropped? || r.value.Err? || (r.value.value && AwaitedAttempt(o.env, true).0.Dropped?) ==>
            Tcp.Attempted(min, max, c).1.trace == connecting
  {
    hide FailedRequests, AwaitedAttempt, Tcp.RanSession, Tcp.AfterFailedAttempt;
  }

  lemma HandshakeEnds(o: Outside, k: nat)
    requires Connects(o, k) && o.env.script[k] == ConnectDone(true)
    ensures || AwaitedAttempt(ServeAll(o, k + 1).env, true).0.Dropped?
            || (exists m: nat :: Succeeds(o, k, m)) || (exists m: nat :: Fails(o, k, m))
  {
    var later := ServeAll(o, k + 1).env;
    AttemptLaw(later, true);
    hide AwaitedAttempt, Connects, ServeAll;
    if m: nat :| FirstAttempt(later.script, true, m) {
      assert Succeeds(o, k, m) || Fails(o, k, m);
    }
  }

  lemma AttemptEnds(min: nat, max: nat, c: Tcp.Channel)
    requires c.Valid()
    ensures var connecting := c.trace + [Tcp.Update(Tcp.Connecting, c.inside.outside.enabled)];
            var trace := Tcp.Attempted(min, max, c).1.trace;
            || trace == connecting
            || (exists k: nat, m: nat :: Succeeds(c.inside.outside, k, m))
            || (exists k: nat, m: nat :: Fails(c.inside.outside, k, m))
  {
    var o := c.inside.outside;
    NothingTold(min, max, c);
    ConnectLaw(o);
    hide FailedRequests, AwaitedAttempt, ServeAll, Succeeds, Tcp.Attempted, Connects;
    if k: nat :| Connects(o, k) {
      if o.env.script[k] == ConnectDone(true) {
        HandshakeEnds(o, k);
      } else {
        assert Fails(o, k, 0);
      }
    }
  }

  /**
   After `Connecting` the listener is told `Connected` if and only if the connect attempt and the handshake that
   follow succeed, and that the channel waits, with the delay for its failures, if and only if one of them fails.
   */
  lemma AttemptUpdates(min: nat, max: nat, c: Tcp.Channel)
    requires c.Valid()
    ensures var o := c.inside.outside;
            var connecting := c.trace + [Tcp.Update(Tcp.Connecting, o.enabled)];
            var trace := Tcp.Attempted(min, max, c).1.trace;
            var next := Next(connecting, trace);
            var wait := Tcp.WaitAfterFailedConnect(Delay(min, max, Tcp.Failures(c.trace)));
            && connecting <= trace
            && (next.Some? && next.value.state == Tcp.Connected <==> exists k: nat, m: nat :: Succeeds(o, k, m))
            && (next.Some? && next.value.state == wait <==> exists k: nat, m: nat :: Fails(o, k, m))
            && (next.Some? ==> next.value.state == Tcp.Connected || next.value.state == wait)
  {
    hide Tcp.Attempted, Tcp.Failures, Delay, Succeeds, Fails;
    AttemptEnds(min, max, c);
    if k: nat, m: nat :| Succeeds(c.inside.outside, k, m) { AttemptTells(min, max, c, k, m); }
    if k: nat, m: nat :| Fails(c.inside.outside, k, m) { AttemptTells(min, max, c, k, m); }
  }

  /** The session that starts when the attempt has succeeded: on a new connection, with the reader as it was left. */
  function Started(c: Tcp.Channel, k: nat, m: nat): Inside
    requires Succeeds(c.inside.outside, k, m)
  {
    var o := ServeAll(c.inside.outside, k + 1);
    var env := PastAll(o.env, m + 1);
    Inside(o.(env := env.(socket := [])), c.inside.reader, c.inside.transactions)
  }

  lemma SessionTold(min: nat, c: Tcp.Channel, o: Outside)
    requires c.Valid()
    ensures var s := Inside(o.(env := o.env.(socket := [])), c.inside.reader, c.inside.transactions);
            var (end, s') := Ran(TcpFormat, s);
            var (r, c') := Tcp.RanSession(min, Attempting(c, o));
            var connected := Attempting(c, o).Told(Tcp.Connected).trace;
            && c'.inside.transactions == s'.transactions
            && (end.Dropped? ==> r == Dropped && c'.trace == connected)
            && (end == Ended(SessionShutdown) ==> r == Ended(Err(ToShutdown)) && c'.trace == connected)
            && (end.Ended? && end.value != SessionShutdown ==>
                  c'.trace == connected + [Tcp.Update(Tcp.WaitAfterDisconnect(min), s'.outside.enabled)])
  {
    hide Ran, FailedRequests;
    var c1 := Attempting(c, o).Told(Tcp.Connected);
    assert c1.inside.WithEnv(c1.inside.Env().(socket := [])) ==
           Inside(o.(env := o.env.(socket := [])), c.inside.reader, c.inside.transactions);
  }

  /**
   What the listener is told when the attempt succeeds: `Connected`, and, if the session that then runs ends for
   any reason but a shutdown, that the channel waits to connect again.
   */
  lemma SessionUpdates(min: nat, max: nat, c: Tcp.Channel, k: nat, m: nat)
    requires c.Valid() && Succeeds(c.inside.outside, k, m)
    ensures var (end, s) := Ran(TcpFormat, Started(c, k, m));
            var (r, c') := Tcp.Attempted(min, max, c);
            var enabled := Started(c, k, m).outside.enabled;
            var connected := c.trace + [Tcp.Update(Tcp.Connecting, c.inside.outside.enabled)] + [Tcp.Update(Tcp.Connected, enabled)];
            && c'.inside.transactions == s.transactions
            && (end.Dropped? ==> r == Dropped && c'.trace == connected)
            && (end == Ended(SessionShutdown) ==> r == Ended(Err(ToShutdown)) && c'.trace == connected)
            && (end.Ended? && end.value != SessionShutdown ==>
                  c'.trace == connected + [Tcp.Update(Tcp.WaitAfterDisconnect(min), s.outside.enabled)])
  {
    var o := ServeAll(c.inside.outside, k + 1);
    AttemptSucceeds(min, max, c, k, m);
    SessionTold(min, c, o.(env := PastAll(o.env, m + 1)));
    hide Ran, Tcp.RanSession, Tcp.Attempted, ServeAll, PastAll, Connects, FirstAttempt;
  }

  // ----- a serial port -----

  lemma PortTold(min: nat, max: nat, c: Serial.Channel)
    requires c.Valid()
    ensures var (attempt, env) := AwaitedAttempt(c.inside.Env(), false);
            var enabled := c.inside.outside.enabled;
            var trace := Serial.Attempted(min, max, c).1.trace;
            match attempt
            case Dropped => trace == c.trace
            case Ended(true) => c.trace + [Serial.Update(Serial.Open, enabled)] <= trace
            case Ended(false) => trace == c.trace + [Serial.Update(Serial.Wait(Delay(min, max, Serial.Failures(c.trace))), enabled)]
  {
    hide AwaitedAttempt, Ran, FailedRequests, Delay, Serial.Failures;
  }

  /**
   The listener of a port is told `Open` if and only if the next attempt to open it succeeds, and that the channel
   waits, with the delay for its failures, if and only if it fails.
   */
  lemma PortUpdates(min: nat, max: nat, c: Serial.Channel)
    requires c.Valid()
    ensures var script := c.inside.Env().script;
            var trace := Serial.Attempted(min, max, c).1.trace;
            var next := Next(c.trace, trace);
            var wait := Serial.Wait(Delay(min, max, Serial.Failures(c.trace)));
            && c.trace <= trace
            && (next.Some? && next.value.state == Serial.Open <==>
                  exists k: nat :: FirstAttempt(script, false, k) && script[k] == ConnectDone(true))
            && (next.Some? && next.value.state == wait <==>
                  exists k: nat :: FirstAttempt(script, false, k) && script[k] == ConnectDone(false))
            && (next.Some? ==> next.value.state == Serial.Open || next.value.state == wait)
  {
    AttemptLaw(c.inside.Env(), false);
    PortTold(min, max, c);
    hide AwaitedAttempt, Serial.Attempted, Delay, Serial.Failures;
  }

  // ----- the listener knows whether the channel is disabled -----

  lemma {:induction false} WaitKeepsEnabled(o: Outside, connecting: bool)
    ensures var (r, o') := FailedRequests(o, connecting);
            o.enabled ==> (o'.enabled <==> r != Ended(Err(ToDisabled)))
    decreases |o.env.script|
  {
    if o.env.script != [] {
      FailedRequestsStep(o, connecting);
      hide FailedRequests;
      if WaitEnds(o, connecting).None? {
        WaitKeepsEnabled(Serve(o), connecting);
      }
    }
  }

  lemma {:induction false} SleepEnds(o: Outside)
    ensures var (r, o') := WaitedForEnabled(o); (o'.enabled <==> r == Ended(true)) && (o.enabled ==> o'.enabled)
    decreases |o.env.script|
  {
    if o.env.script != [] && !o.enabled {
      EnabledStep(o);
      hide WaitedForEnabled;
      if !Wakes(o) {
        SleepEnds(Serve(o));
      }
    }
  }

  function LastOf<T>(trace: seq<T>): T
    requires trace != []
  {
    trace[|trace| - 1]
  }

  /**
   The listener is told that the channel is disabled only while it is, and always while it is, but for the wait
   after a session that ended because it was disabled: there it is told of the wait first.
   */
  predicate TcpTold(c: Tcp.Channel) {
    && c.trace != []
    && (LastOf(c.trace).state.IsDisabled? ==> !c.inside.outside.enabled)
    && (!c.inside.outside.enabled ==> LastOf(c.trace).state.IsDisabled? || WaitsDisabled(LastOf(c.trace)))
  }

  predicate WaitsDisabled(u: Tcp.Update) { u.state.WaitAfterDisconnect? && !u.enabled }

  /** What an attempt leaves: if the channel is disabled, it is told so next, or it waits. */
  predicate TcpLeft(r: Flow<Result<bool, StateChange>>, c: Tcp.Channel) {
    && c.trace != [] && !LastOf(c.trace).state.IsDisabled?
    && (!c.inside.outside.enabled ==> (r.Ended? && r != Ended(Err(ToShutdown))) || WaitsDisabled(LastOf(c.trace)))
  }

  lemma WaitLeaves(c: Tcp.Channel, connecting: bool)
    requires c.trace != [] && !LastOf(c.trace).state.IsDisabled?
    requires c.inside.outside.enabled || WaitsDisabled(LastOf(c.trace))
    ensures var (r, c') := Tcp.FailedWhile(c, connecting);
            TcpLeft(r, c') && (r.Ended? && r.value.Ok? && c.inside.outside.enabled ==> c'.inside.outside.enabled)
    ensures Tcp.FailedWhile(c, connecting).1.trace == c.trace
  {
    WaitKeepsEnabled(c.inside.outside, connecting);
    hide FailedRequests;
  }

  lemma SessionLeaves(min: nat, c: Tcp.Channel)
    requires c.Valid() && c.inside.outside.enabled
    ensures var (r, c') := Tcp.RanSession(min, c); TcpLeft(r, c')
  {
    var c1 := c.Told(Tcp.Connected);
    var s := c1.inside.WithEnv(c1.inside.Env().(socket := []));
    RanEnd(TcpFormat, s);
    var (end, s') := Ran(TcpFormat, s);
    hide Ran, Tcp.FailedWhile;
    if end.Ended? && end != Ended(SessionShutdown) {
      WaitLeaves(c1.(inside := s').Told(Tcp.WaitAfterDisconnect(min)), false);
    }
  }

  lemma AttemptLeaves(min: nat, max: nat, c: Tcp.Channel)
    requires c.Valid() && c.inside.outside.enabled
    ensures var (r, c') := Tcp.Attempted(min, max, c); TcpLeft(r, c')
  {
    var (r, c1) := Tcp.FailedWhile(c.Told(Tcp.Connecting), true);
    WaitLeaves(c.Told(Tcp.Connecting), true);
    hide Tcp.FailedWhile, AwaitedAttempt, Tcp.RanSession, Tcp.Failures, Delay;
    if r.Ended? && r.value.Ok? {
      var (secure, env) := AwaitedAttempt(c1.inside.Env(), true);
      var c2 := c1.(inside := c1.inside.WithEnv(env));
      SessionLeaves(min, c2);
      var wait := Tcp.WaitAfterFailedConnect(Delay(min, max, Tcp.Failures(c1.trace)));
      WaitLeaves(c1.Told(wait), false);
      WaitLeaves(c2.Told(wait), false);
    }
  }

  /** The listener knows, at every moment of every run, as far as `TcpTold` says. */
  lemma {:induction false} ListenerKnows(min: nat, max: nat, c: Tcp.Channel)
    requires c.Valid() && c.trace != [] && (LastOf(c.trace).state.IsDisabled? <==> !c.inside.outside.enabled)
    ensures TcpTold(Tcp.RanInner(min, max, c).1)
    decreases c.Left()
  {
    SleepEnds(c.inside.outside);
    var (enabled, outside) := WaitedForEnabled(c.inside.outside);
    hide WaitedForEnabled, Tcp.Attempted;
    if enabled == Ended(true) {
      AttemptLeaves(min, max, c.With(outside));
      var (end, c2) := Tcp.Attempted(min, max, c.With(outside));
      if end.Ended? && end != Ended(Err(ToShutdown)) {
        ListenerKnows(min, max, if c2.inside.outside.enabled then c2 else c2.Told(Tcp.IsDisabled));
      }
    }
  }

  lemma DisabledInSession(s: Inside)
    requires s.reader.Valid() && s.Env().script == [Receive] && s.Env().queue == [Change(Disable)]
    ensures Ran(TcpFormat, s) ==
            (Ended(Disabled), s.(outside := Outside(s.Env().(script := [], queue := []), false, s.outside.fired)))
  {
    EventFirst(Receive, [], s.Env().socket, s.Env().queue, s.Env().open);
    assert [Receive] + [] == [Receive];
    hide Upcoming, Performed, Looked;
  }

  lemma WaitingInVain(min: nat, c: Tcp.Channel)
    requires c.Valid() && c.inside.Env().script == [Receive] && c.inside.Env().queue == [Change(Disable)]
    ensures var (r, c') := Tcp.RanSession(min, c);
            && r == Dropped && !c'.inside.outside.enabled
            && c'.trace == c.trace + [Tcp.Update(Tcp.Connected, c.inside.outside.enabled)] +
                           [Tcp.Update(Tcp.WaitAfterDisconnect(min), false)]
  {
    var c1 := c.Told(Tcp.Connected);
    DisabledInSession(c1.inside.WithEnv(c1.inside.Env().(socket := [])));
    hide Ran;
  }

  lemma SucceedsAtOnce(o: Outside, tail: seq<Event>)
    requires o.env.script == [ConnectDone(true)] + ([HandshakeDone(true)] + tail)
    ensures Succeeds(o, 0, 0) && ServeAll(o, 1) == o.(env := o.env.(script := [HandshakeDone(true)] + tail))
    ensures PastAll(ServeAll(o, 1).env, 1) == o.env.(script := tail)
  {
    var later := [HandshakeDone(true)] + tail;
    assert o.env.script[1..] == later && later[1..] == tail;
    assert ServeAll(o, 0) == o && ServeAll(o, 1) == ServeAll(Serve(o), 0);
    var env := ServeAll(o, 1).env;
    assert PastAll(env, 1) == PastAll(Past(env), 0);
    assert FirstAttempt(later, true, 0);
  }

  /** The exception is real: a channel that is disabled in its session is disabled while its listener is told of the wait. */
  lemma DisabledWhileWaiting(min: nat, max: nat, c: Tcp.Channel)
    requires c.Valid() && c.inside.outside.enabled && c.inside.Env().queue == [Change(Disable)]
    requires c.inside.Env().script == [ConnectDone(true)] + ([HandshakeDone(true)] + [Receive])
    ensures var (r, c') := Tcp.Attempted(min, max, c);
            && r == Dropped && !c'.inside.outside.enabled
            && c'.trace == c.trace + [Tcp.Update(Tcp.Connecting, true)] + [Tcp.Update(Tcp.Connected, true)] +
                           [Tcp.Update(Tcp.WaitAfterDisconnect(min), false)]
  {
    var o := c.inside.outside;
    SucceedsAtOnce(o, [Receive]);
    AttemptSucceeds(min, max, c, 0, 0);
    WaitingInVain(min, Attempting(c, o.(env := o.env.(script := [Receive]))));
    hide Tcp.RanSession, Tcp.Attempted, ServeAll, PastAll, Succeeds;
  }

  // The same for a port, where a disabled session does not wait.

  lemma PortWaits(c: Serial.Channel, delay: nat)
    requires c.inside.outside.enabled
    ensures var (r, c') := Serial.Waited(c, delay);
            && c'.trace != [] && !LastOf(c'.trace).state.PortDisabled?
            && (!c'.inside.outside.enabled ==> r.Ended? && r != Ended(Err(ToShutdown)))
  {
    WaitKeepsEnabled(c.inside.outside, false);
    hide FailedRequests;
  }

  lemma PortLeaves(min: nat, max: nat, c: Serial.Channel)
    requires c.Valid() && c.inside.outside.enabled && c.trace != []
    ensures var (r, c') := Serial.Attempted(min, max, c);
            && c'.trace != [] && (r.Ended? ==> !LastOf(c'.trace).state.PortDisabled?)
            && (!c'.inside.outside.enabled ==> r.Ended? && r != Ended(Err(ToShutdown)))
  {
    var (attempt, env) := AwaitedAttempt(c.inside.Env(), false);
    var c1 := c.(inside := c.inside.WithEnv(env));
    var c2 := c1.Told(Serial.Open);
    var s := c2.inside.WithEnv(c2.inside.Env().(socket := []));
    var (end, s') := Ran(RtuFormat, s);
    RanEnd(RtuFormat, s);
    hide AwaitedAttempt, Ran, Serial.Waited, Serial.Failures, Delay;
    if s'.outside.enabled {
      PortWaits(c2.(inside := s'), min);
    }
    PortWaits(c1, Delay(min, max, Serial.Failures(c1.trace)));
  }

  /**
   A disabled channel has always told the listener of its port so; and at the end of a run a listener that was
   told so last knows that the channel is disabled.
   */
  lemma {:induction false} PortListenerKnows(min: nat, max: nat, c: Serial.Channel)
    requires c.Valid() && c.trace != [] && (LastOf(c.trace).state.PortDisabled? <==> !c.inside.outside.enabled)
    ensures var (r, c') := Serial.RanInner(min, max, c);
            && c'.trace != [] && (!c'.inside.outside.enabled ==> LastOf(c'.trace).state.PortDisabled?)
            && (r.Ended? && LastOf(c'.trace).state.PortDisabled? ==> !c'.inside.outside.enabled)
    decreases c.Left()
  {
    SleepEnds(c.inside.outside);
    var (enabled, outside) := WaitedForEnabled(c.inside.outside);
    hide WaitedForEnabled, Serial.Attempted;
    if enabled == Ended(true) {
      PortLeaves(min, max, c.With(outside));
      var (end, c2) := Serial.Attempted(min, max, c.With(outside));
      if end.Ended? && end != Ended(Err(ToShutdown)) {
        PortListenerKnows(min, max, if c2.inside.outside.enabled then c2 else c2.Told(Serial.PortDisabled));
      }
    }
  }

  // ----- a server that refuses -----

  function Refusals(n: nat): seq<Event> {
    if n == 0 then [] else [ConnectDone(false), DelayElapsed] + Refusals(n - 1)
  }

  /** What the listener has seen after `n` refused attempts: each with the delay for those before it. */
  function Refused(min: nat, max: nat, n: nat): (trace: seq<Tcp.Update>)
    ensures trace != []
  {
    if n == 0 then [Tcp.Update(Tcp.IsDisabled, false)]
    else
      Refused(min, max, n - 1) + [Tcp.Update(Tcp.Connecting, true)] +
      [Tcp.Update(Tcp.WaitAfterFailedConnect(Delay(min, max, n - 1)), true)]
  }

  lemma {:induction false} RefusedFailures(min: nat, max: nat, n: nat)
    ensures Tcp.Failures(Refused(min, max, n)) == n
  {
    if n > 0 {
      RefusedFailures(min, max, n - 1);
      var trace := Refused(min, max, n - 1);
      var told := Tcp.Update(Tcp.Connecting, true);
      Tcp.FailuresAppend(trace, told);
      Tcp.FailuresAppend(trace + [told], Tcp.Update(Tcp.WaitAfterFailedConnect(Delay(min, max, n - 1)), true));
    }
  }

  /** An enabled channel whose queue is empty. */
  predicate Ready(c: Tcp.Channel) {
    c.Valid() && c.inside.outside.enabled && c.inside.Env().queue == [] && c.inside.Env().open
  }

  function Moved(c: Tcp.Channel, script: seq<Event>, trace: seq<Tcp.Update>): Tcp.Channel {
    Tcp.Channel(c.inside.WithEnv(c.inside.Env().(script := script)), trace)
  }

  lemma WaitIsCut(o: Outside, tail: seq<Event>, connecting: bool)
    requires o.env.script == [if connecting then ConnectDone(false) else DelayElapsed] + tail
    ensures FailedRequests(o, connecting) == (Ended(Ok(!connecting)), o.(env := o.env.(script := tail)))
  {
    FailedRequestsStep(o, connecting);
    assert o.env.script[1..] == tail;
    hide FailedRequests;
  }

  lemma RefusedOnce(min: nat, max: nat, c: Tcp.Channel, i: nat, tail: seq<Event>)
    requires Ready(c) && c.trace == Refused(min, max, i) && c.inside.Env().script == [ConnectDone(false)] + ([DelayElapsed] + tail)
    ensures Tcp.Attempted(min, max, c) == (Ended(Ok(true)), Moved(c, tail, Refused(min, max, i + 1)))
  {
    var o := c.inside.outside;
    var o1 := o.(env := o.env.(script := [DelayElapsed] + tail));
    WaitIsCut(o, [DelayElapsed] + tail, true);
    WaitIsCut(o1, tail, false);
    RefusedFailures(min, max, i);
    FailuresWhileConnecting(c.trace, true);
    hide FailedRequests, AwaitedAttempt, Ran, Tcp.Failures, Delay, Tcp.RanSession;
  }

  lemma RoundGoesOn(min: nat, max: nat, c: Tcp.Channel, c1: Tcp.Channel)
    requires c.Valid() && c.inside.outside.enabled && c1.inside.outside.enabled
    requires Tcp.Attempted(min, max, c) == (Ended(Ok(true)), c1)
    ensures c1.Valid() && Tcp.RanInner(min, max, c) == Tcp.RanInner(min, max, c1)
  {
    hide Tcp.Attempted;
    assert c.With(c.inside.outside) == c;
  }

  lemma {:induction false} RefusedThen(min: nat, max: nat, c: Tcp.Channel, i: nat, n: nat, tail: seq<Event>)
    requires Ready(c) && c.trace == Refused(min, max, i) && c.inside.Env().script == Refusals(n) + tail
    ensures Tcp.RanInner(min, max, c) == Tcp.RanInner(min, max, Moved(c, tail, Refused(min, max, i + n)))
    decreases n
  {
    hide Tcp.RanInner, Tcp.Attempted, Refused;
    if n == 0 {
      assert Refusals(0) + tail == tail && Moved(c, tail, Refused(min, max, i)) == c;
    } else {
      var later := Refusals(n - 1) + tail;
      assert Refusals(n) + tail == [ConnectDone(false)] + ([DelayElapsed] + later);
      RefusedOnce(min, max, c, i, later);
      var c1 := Moved(c, later, Refused(min, max, i + 1));
      RoundGoesOn(min, max, c, c1);
      RefusedThen(min, max, c1, i + 1, n - 1, tail);
    }
  }

  lemma WakesUp(o: Outside, tail: seq<Event>)
    requires !o.enabled && o.env.queue == [] && o.env.open
    requires o.env.script == [Submit(Change(Enable))] + ([Receive] + tail)
    ensures WaitedForEnabled(o) == (Ended(true), o.(env := o.env.(script := tail), enabled := true))
  {
    var o1 := Serve(o);
    EnabledStep(o);
    EnabledStep(o1);
    assert o.env.script[1..] == [Receive] + tail && ([Receive] + tail)[1..] == tail;
    assert [] + [Change(Enable)] == [Change(Enable)] && [Change(Enable)][1..] == [];
    hide WaitedForEnabled;
  }

  lemma ChannelWakes(min: nat, max: nat, c: Tcp.Channel, tail: seq<Event>)
    requires c.Valid() && !c.inside.outside.enabled && c.inside.Env().queue == [] && c.inside.Env().open
    requires c.inside.Env().script == [Submit(Change(Enable))] + ([Receive] + tail)
    ensures var c1 := Moved(c, tail, c.trace);
            Tcp.RanInner(min, max, c) == Tcp.RanInner(min, max, c1.With(c1.inside.outside.(enabled := true)))
  {
    WakesUp(c.inside.outside, tail);
    hide WaitedForEnabled, Tcp.Attempted;
    var c1 := Moved(c, tail, c.trace);
    var c2 := c1.With(c1.inside.outside.(enabled := true));
    assert c.With(WaitedForEnabled(c.inside.outside).1) == c2;
    assert WaitedForEnabled(c2.inside.outside) == (Ended(true), c2.inside.outside) by { AlreadyEnabled(c2.inside.outside); }
  }

  lemma AlreadyEnabled(o: Outside)
    requires o.enabled
    ensures WaitedForEnabled(o) == (Ended(true), o)
  {}

  lemma LastAttempt(min: nat, max: nat, c: Tcp.Channel)
    requires Ready(c) && c.inside.Env().script == [ConnectDone(true)] + [HandshakeDone(true)]
    ensures Tcp.RanInner(min, max, c).1.trace == c.trace + [Tcp.Update(Tcp.Connecting, true)] + [Tcp.Update(Tcp.Connected, true)]
  {
  }

  /**
   An enabled channel tries to connect until it succeeds: after `n` refused attempts, each followed by its own
   delay, the next one that is accepted brings the listener to `Connected`.
   */
  lemma ConnectsAfterRefusals(min: nat, max: nat, c: Tcp.Channel, n: nat)
    requires c.Valid() && !c.inside.outside.enabled && c.trace == [Tcp.Update(Tcp.IsDisabled, false)]
    requires c.inside.Env().queue == [] && c.inside.Env().open
    requires c.inside.Env().script ==
             [Submit(Change(Enable)), Receive] + Refusals(n) + [ConnectDone(true), HandshakeDone(true)]
    ensures Tcp.RanInner(min, max, c).1.trace ==
            Refused(min, max, n) + [Tcp.Update(Tcp.Connecting, true)] + [Tcp.Update(Tcp.Connected, true)]
  {
    hide Tcp.RanInner;
    var last := [ConnectDone(true), HandshakeDone(true)];
    assert c.inside.Env().script == [Submit(Change(Enable))] + ([Receive] + (Refusals(n) + last));
    ChannelWakes(min, max, c, Refusals(n) + last);
    var c1 := Moved(c, Refusals(n) + last, c.trace);
    var c2 := c1.With(c1.inside.outside.(enabled := true));
    RefusedThen(min, max, c2, 0, n, last);
    assert last == [ConnectDone(true)] + [HandshakeDone(true)];
    LastAttempt(min, max, Moved(c2, last, Refused(min, max, n)));
  }
}
