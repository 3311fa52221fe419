/**
 What each event means to a client channel, and which event ends each of its waits. The functions of
 `ClientRuns` walk the events; here the walk is taken apart, event by event.
 */
module ClientLaws {
  import opened Types
  import opened FrameWriters
  import opened ClientRequests
  import opened ClientRuns
  import Framing
  import Reading

  // ----- single events -----

  /** What an event does to the surroundings of the task, whatever the task does. */
  function Around(env: Env, e: Event): Env {
    match e
    case Submit(command) => if env.open then env.(queue := env.queue + [command]) else env
    case CloseSenders => env.(open := false)
    case Arrives(bytes) => env.(socket := env.socket + [Reading.Data(bytes)])
    case Breaks(kind) => env.(socket := env.socket + [Reading.Fail(kind)])
    case _ => env
  }

  predicate FromOutside(e: Event) { e.Submit? || e.CloseSenders? || e.Arrives? || e.Breaks? }

  /** The surroundings after the next event, and after the next `k` events, of a task that only waits. */
  function Past(env: Env): Env
    requires env.script != []
  {
    Around(env, env.script[0]).(script := env.script[1..])
  }

  function PastAll(env: Env, k: nat): (r: Env)
    requires k <= |env.script|
    ensures r.script == env.script[k..]
    decreases k
  {
    if k == 0 then env else PastAll(Past(env), k - 1)
  }

  lemma UpcomingStep(env: Env)
    requires env.script != []
    ensures Upcoming(env) == if FromOutside(env.script[0]) then Upcoming(Past(env)) else (Some(env.script[0]), Past(env))
  {
    var tail := env.script[1..];
    EventFirst(env.script[0], tail, env.socket, env.queue, env.open);
    assert env == Env([env.script[0]] + tail, env.socket, env.queue, env.open);
  }

  // ----- writes and attempts: the first event of the kind decides -----

  predicate FirstWrite(script: seq<Event>, k: nat) {
    k < |script| && script[k].WriteDone? && forall i | 0 <= i < k :: !script[i].WriteDone?
  }

  /** A write ends as the first completion of a write says, and otherwise never. */
  lemma {:induction false} WriteLaw(env: Env)
    ensures AwaitedWrite(env).0.Dropped? <==> forall k: nat :: !FirstWrite(env.script, k)
    ensures forall k: nat | FirstWrite(env.script, k) :: AwaitedWrite(env) == (Ended(env.script[k].error), PastAll(env, k + 1))
    decreases |env.script|
  {
    if env.script != [] {
      UpcomingStep(env);
      hide Upcoming;
      var tail := Past(env);
      if env.script[0].WriteDone? {
        assert FirstWrite(env.script, 0) && PastAll(env, 1) == PastAll(tail, 0);
      } else {
        WriteLaw(tail);
        assert AwaitedWrite(env) == AwaitedWrite(tail);
        forall k: nat | FirstWrite(tail.script, k)
          ensures FirstWrite(env.script, k + 1)
        {}
        forall k: nat | FirstWrite(env.script, k)
          ensures k > 0 && FirstWrite(tail.script, k - 1) && PastAll(env, k + 1) == PastAll(tail, k)
        {}
      }
    }
  }

  /** The first completion of an attempt: of a handshake, or of a connect or open. */
  predicate FirstAttempt(script: seq<Event>, handshake: bool, k: nat) {
    && k < |script|
    && (if handshake then script[k].HandshakeDone? else script[k].ConnectDone?)
    && forall i | 0 <= i < k :: if handshake then !script[i].HandshakeDone? else !script[i].ConnectDone?
  }

  function Verdict(e: Event): bool
    requires e.HandshakeDone? || e.ConnectDone?
  {
    match e
    case HandshakeDone(secure) => secure
    case ConnectDone(connected) => connected
  }

  /** An attempt succeeds or fails as the first completion of its kind says, and otherwise never ends. */
  lemma {:induction false} AttemptLaw(env: Env, handshake: bool)
    ensures AwaitedAttempt(env, handshake).0.Dropped? <==> forall k: nat :: !FirstAttempt(env.script, handshake, k)
    ensures forall k: nat | FirstAttempt(env.script, handshake, k) ::
              AwaitedAttempt(env, handshake) == (Ended(Verdict(env.script[k])), PastAll(env, k + 1))
    decreases |env.script|
  {
    if env.script != [] {
      UpcomingStep(env);
      hide Upcoming;
      var tail := Past(env);
      if (if handshake then env.script[0].HandshakeDone? else env.script[0].ConnectDone?) {
        assert FirstAttempt(env.script, handshake, 0) && PastAll(env, 1) == PastAll(tail, 0);
      } else {
        AttemptLaw(tail, handshake);
        assert AwaitedAttempt(env, handshake) == AwaitedAttempt(tail, handshake);
        forall k: nat | FirstAttempt(tail.script, handshake, k)
          ensures FirstAttempt(env.script, handshake, k + 1)
        {}
        forall k: nat | FirstAttempt(env.script, handshake, k)
          ensures k > 0 && FirstAttempt(tail.script, handshake, k - 1) && PastAll(env, k + 1) == PastAll(tail, k)
        {}
      }
    }
  }

  // ----- outside a session -----

  /** What the next event does to a channel that waits outside a session: it serves its queue, and fails requests. */
  function Serve(o: Outside): Outside
    requires o.env.script != []
  {
    var rest := o.(env := Past(o.env));
    if !o.env.script[0].Receive? || o.env.queue == [] then rest
    else
      var popped := rest.(env := rest.env.(queue := o.env.queue[1..]));
      match o.env.queue[0]
      case Perform(request) => popped.(fired := o.fired + [Completion(request.id, Err(NoConnection))])
      case Change(Enable) => popped.(enabled := true)
      case Change(Disable) => popped.(enabled := false)
      case Change(DecodeLevel) => popped
  }

  function ServeAll(o: Outside, k: nat): (r: Outside)
    requires k <= |o.env.script|
    ensures r.env.script == o.env.script[k..]
    decreases k
  {
    if k == 0 then o else ServeAll(Serve(o), k - 1)
  }

  /**
   What ends a wait with a connect attempt (or with a delay): the completion of that attempt, with its result
   (or the end of the delay); a queue that is empty and closed; and a setting that leaves the channel disabled.
   */
  function WaitEnds(o: Outside, connecting: bool): Option<Result<bool, StateChange>>
    requires o.env.script != []
  {
    match o.env.script[0]
    case ConnectDone(connected) => if connecting then Some(Ok(connected)) else None
    case DelayElapsed => if connecting then None else Some(Ok(true))
    case Receive =>
      if o.env.queue == [] then (if o.env.open then None else Some(Err(ToShutdown)))
      else if o.env.queue[0].Change? && !Serve(o).enabled then Some(Err(ToDisabled))
      else None
    case _ => None
  }

  /** The event at `k` is the first that ends the wait. */
  ghost predicate WaitEndsAt(o: Outside, connecting: bool, k: nat) {
    && k < |o.env.script|
    && WaitEnds(ServeAll(o, k), connecting).Some?
    && forall i: nat | i < k :: WaitEnds(ServeAll(o, i), connecting).None?
  }

  lemma FailedRequestsStep(o: Outside, connecting: bool)
    requires o.env.script != []
    ensures FailedRequests(o, connecting) ==
            match WaitEnds(o, connecting)
            case Some(result) => (Ended(result), Serve(o))
            case None => FailedRequests(Serve(o), connecting)
  {
    UpcomingStep(o.env);
    hide Upcoming;
  }

  lemma NoneBefore(o: Outside, connecting: bool, k: nat)
    requires WaitEndsAt(o, connecting, k) && WaitEnds(ServeAll(o, 0), connecting).Some?
    ensures k == 0
  {}

  /** A wait outside a session ends with the first event that ends it, as that event says; until then the queue is served. */
  lemma {:induction false} WaitLaw(o: Outside, connecting: bool)
    ensures FailedRequests(o, connecting).0.Dropped? <==> forall k: nat :: !WaitEndsAt(o, connecting, k)
    ensures forall k: nat | WaitEndsAt(o, connecting, k) ::
              FailedRequests(o, connecting) == (Ended(WaitEnds(ServeAll(o, k), connecting).value), ServeAll(o, k + 1))
    ensures FailedRequests(o, connecting).0.Dropped? ==> FailedRequests(o, connecting).1 == ServeAll(o, |o.env.script|)
    decreases |o.env.script|
  {
    if o.env.script != [] {
      FailedRequestsStep(o, connecting);
      hide FailedRequests, WaitEnds, Serve;
      if WaitEnds(o, connecting).Some? {
        assert ServeAll(o, 0) == o && ServeAll(o, 1) == ServeAll(Serve(o), 0);
        assert WaitEndsAt(o, connecting, 0);
        forall k: nat | WaitEndsAt(o, connecting, k)
          ensures k == 0
        {
          NoneBefore(o, connecting, k);
        }
      } else {
        var rest := Serve(o);
        assert ServeAll(o, 1) == ServeAll(rest, 0);
        WaitLaw(rest, connecting);
        forall k: nat | WaitEndsAt(rest, connecting, k)
          ensures WaitEndsAt(o, connecting, k + 1)
        {
          forall i: nat | i < k + 1
            ensures WaitEnds(ServeAll(o, i), connecting).None?
          {
            if i > 0 {
              assert ServeAll(o, i) == ServeAll(rest, i - 1);
            }
          }
        }
        forall k: nat | WaitEndsAt(o, connecting, k)
          ensures k > 0 && WaitEndsAt(rest, connecting, k - 1)
        {
          forall i: nat | i < k - 1
            ensures WaitEnds(ServeAll(rest, i), connecting).None?
          {
            assert ServeAll(o, i + 1) == ServeAll(rest, i);
          }
        }
      }
    }
  }

  /** A look at the queue that ends a wait outside a session: it is closed and empty, or the channel ends up disabled. */
  predicate Interrupts(o: Outside)
    requires o.env.script != []
  {
    && o.env.script[0].Receive?
    && if o.env.queue == [] then !o.env.open else o.env.queue[0].Change? && !Serve(o).enabled
  }

  /** The connect attempt that completes at `k` is the one that was awaited: nothing interrupted it. */
  ghost predicate Connects(o: Outside, k: nat) {
    && k < |o.env.script| && o.env.script[k].ConnectDone?
    && forall i: nat | i < k :: !o.env.script[i].ConnectDone? && !Interrupts(ServeAll(o, i))
  }

  lemma ConnectsIff(o: Outside, k: nat)
    requires k < |o.env.script|
    ensures Connects(o, k) <==> WaitEndsAt(o, true, k) && o.env.script[k].ConnectDone?
  {
    hide Serve;
    forall i: nat | i <= k
      ensures ServeAll(o, i).env.script[0] == o.env.script[i]
    {}
    forall i: nat | i <= k
      ensures WaitEnds(ServeAll(o, i), true).Some? <==>
              o.env.script[i].ConnectDone? || Interrupts(ServeAll(o, i))
    {}
  }

  /** A connect attempt has the result that its completion has, if and only if nothing interrupts it first. */
  lemma ConnectLaw(o: Outside)
    ensures FailedRequests(o, true).0.Ended? && FailedRequests(o, true).0.value.Ok? <==> exists k: nat :: Connects(o, k)
    ensures forall k: nat | Connects(o, k) ::
              FailedRequests(o, true) == (Ended(Ok(o.env.script[k].connected)), ServeAll(o, k + 1))
  {
    hide *;
    WaitLaw(o, true);
    var r := FailedRequests(o, true);
    forall k: nat
      ensures Connects(o, k) ==>
                && WaitEndsAt(o, true, k) && k < |o.env.script| && o.env.script[k].ConnectDone?
                && r == (Ended(Ok(o.env.script[k].connected)), ServeAll(o, k + 1))
      ensures WaitEndsAt(o, true, k) && !Connects(o, k) ==> r.0.Ended? && r.0.value.Err?
    {
      ConnectsOrNot(o, k);
      if WaitEndsAt(o, true, k) {
        assert r == (Ended(WaitEnds(ServeAll(o, k), true).value), ServeAll(o, k + 1));
      }
    }
  }

  lemma ConnectsOrNot(o: Outside, k: nat)
    ensures WaitEndsAt(o, true, k) || Connects(o, k) ==> k < |o.env.script| && WaitEnds(ServeAll(o, k), true).Some?
    ensures Connects(o, k) ==> WaitEndsAt(o, true, k) && o.env.script[k].ConnectDone?
    ensures Connects(o, k) ==> WaitEnds(ServeAll(o, k), true) == Some(Ok(o.env.script[k].connected))
    ensures WaitEndsAt(o, true, k) && !Connects(o, k) ==> WaitEnds(ServeAll(o, k), true).value.Err?
  {
    if k < |o.env.script| {
      ConnectsIff(o, k);
      assert ServeAll(o, k).env.script[0] == o.env.script[k];
      hide Connects, ServeAll;
    }
  }

  /** A look at the queue of a disabled channel that ends its sleep: the channel is enabled, or the queue closed and empty. */
  predicate Wakes(o: Outside)
    requires o.env.script != []
  {
    && o.env.script[0].Receive?
    && if o.env.queue == [] then !o.env.open else o.env.queue[0] == Change(Enable)
  }

  ghost predicate WakesAt(o: Outside, k: nat) {
    k < |o.env.script| && Wakes(ServeAll(o, k)) && forall i: nat | i < k :: !Wakes(ServeAll(o, i))
  }

  lemma FailedNextStep(o: Outside)
    requires o.env.script != []
    ensures !o.env.script[0].Receive? || (o.env.queue == [] && o.env.open) ==> FailedNext(o) == FailedNext(Serve(o))
    ensures o.env.script[0].Receive? && o.env.queue == [] && !o.env.open ==> FailedNext(o) == (Ended(Some(ToShutdown)), Serve(o))
    ensures o.env.script[0].Receive? && o.env.queue != [] ==>
              FailedNext(o) == (Ended(if o.env.queue[0].Change? && !Serve(o).enabled then Some(ToDisabled) else None), Serve(o))
  {
    UpcomingStep(o.env);
    hide Upcoming;
  }

  lemma EnabledStep(o: Outside)
    requires o.env.script != [] && !o.enabled
    ensures WaitedForEnabled(o) ==
            if Wakes(o) then (Ended(o.env.queue != []), Serve(o)) else WaitedForEnabled(Serve(o))
  {
    FailedNextStep(o);
    hide FailedNext;
    assert !Wakes(o) ==> !Serve(o).enabled;
  }

  lemma FirstWake(o: Outside, k: nat)
    requires WakesAt(o, k) && Wakes(ServeAll(o, 0))
    ensures k == 0
  {}

  /** A disabled channel sleeps until the look at its queue that enables it, or that finds it closed and empty. */
  lemma {:induction false} EnableLaw(o: Outside)
    requires !o.enabled
    ensures WaitedForEnabled(o).0.Dropped? <==> forall k: nat :: !WakesAt(o, k)
    ensures forall k: nat | WakesAt(o, k) ::
              WaitedForEnabled(o) == (Ended(ServeAll(o, k).env.queue != []), ServeAll(o, k + 1))
    decreases |o.env.script|
  {
    if o.env.script != [] {
      EnabledStep(o);
      var rest := Serve(o);
      assert !Wakes(o) ==> !rest.enabled;
      hide WaitedForEnabled, Wakes, Serve;
      assert ServeAll(o, 0) == o && ServeAll(o, 1) == ServeAll(rest, 0);
      if Wakes(o) {
        assert WakesAt(o, 0);
        forall k: nat | WakesAt(o, k) ensures k == 0 { FirstWake(o, k); }
      } else {
        EnableLaw(rest);
        forall k: nat | WakesAt(rest, k)
          ensures WakesAt(o, k + 1)
        {
          forall i: nat | i < k + 1
            ensures !Wakes(ServeAll(o, i))
          {
            if i > 0 {
              assert ServeAll(o, i) == ServeAll(rest, i - 1);
            }
          }
        }
        forall k: nat | WakesAt(o, k)
          ensures k > 0 && WakesAt(rest, k - 1)
        {
          forall i: nat | i < k - 1
            ensures !Wakes(ServeAll(rest, i))
          {
            assert ServeAll(o, i + 1) == ServeAll(rest, i);
          }
        }
      }
    }
  }

  // ----- a transaction -----

  /** A task in a session, between two events: its surroundings and its reader. */
  datatype Listener = Listener(env: Env, reader: Reading.Reader)
  {
    predicate Valid() { reader.Valid() && env.script != [] }
  }

  /** What a look at the connection finds. */
  function Look(w: Listener): Reading.Status
    requires w.Valid()
  {
    Reading.NextFrame(w.reader, w.env.socket).status
  }

  /** What the next event does to a task that waits in a session: it looks at the connection when it is scheduled to. */
  function Listen(w: Listener): (r: Listener)
    requires w.Valid()
    ensures r.reader.Valid() && r.env.script == w.env.script[1..]
  {
    Reading.NextFrameProgress(w.reader, w.env.socket);
    var next := Reading.NextFrame(w.reader, w.env.socket);
    if w.env.script[0].ReadReady? then Listener(Past(w.env).(socket := next.script), next.reader)
    else Listener(Past(w.env), w.reader)
  }

  function ListenAll(w: Listener, k: nat): (r: Listener)
    requires w.reader.Valid() && k <= |w.env.script|
    ensures r.reader.Valid() && r.env.script == w.env.script[k..]
    decreases k
  {
    if k == 0 then w else ListenAll(Listen(w), k - 1)
  }

  /** The look finds a frame that the transaction is waiting for, an invalid frame, or a broken connection. */
  predicate Answers(id: u16, status: Reading.Status) {
    match status
    case Output(Got(frame)) => frame.txId == None || frame.txId == Some(id)
    case Output(Bad(_)) => true
    case Failed(_) => true
    case _ => false
  }

  predicate EndsResponse(id: u16, w: Listener)
    requires w.Valid()
  {
    w.env.script[0].Deadline? || (w.env.script[0].ReadReady? && Answers(id, Look(w)))
  }

  /** The event at `k` is the first that ends the wait for a response. */
  ghost predicate ResponseEndsAt(id: u16, w: Listener, k: nat)
    requires w.reader.Valid()
  {
    k < |w.env.script| && EndsResponse(id, ListenAll(w, k)) && forall i: nat | i < k :: !EndsResponse(id, ListenAll(w, i))
  }

  function EndingCause(w: Listener): Cause
    requires w.Valid()
  {
    if w.env.script[0].Deadline? then TimedOut else CauseOf(Look(w))
  }

  function CauseOf(status: Reading.Status): Cause {
    match status
    case Failed(kind) => ReadFailed(kind)
    case Output(Bad(error)) => BadlyFramed(error)
    case Output(Got(frame)) => AnsweredBy(frame)
    case _ => Abandoned
  }

  lemma ResponseStep(id: u16, w: Listener)
    requires w.Valid()
    ensures var a, rest := AwaitedResponse(id, w.env, w.reader), Listen(w);
            if EndsResponse(id, w) then a.cause == EndingCause(w) && Listener(a.env, a.reader) == rest
            else var later := AwaitedResponse(id, rest.env, rest.reader);
                 a.cause == later.cause && a.env == later.env && a.reader == later.reader
  {
    if w.env.script[0].ReadReady? {
      LookStep(id, w);
    } else {
      UpcomingStep(w.env);
      hide Upcoming, Reading.NextFrame, Looked, Look;
    }
  }

  lemma LookIsListened(w: Listener)
    requires w.Valid() && w.env.script[0].ReadReady?
    ensures Looked(Past(w.env), w.reader) == (Look(w), Listen(w).env, Listen(w).reader)
  {
    hide Reading.NextFrame;
  }

  lemma LookStep(id: u16, w: Listener)
    requires w.Valid() && w.env.script[0].ReadReady?
    ensures var a, rest := AwaitedResponse(id, w.env, w.reader), Listen(w);
            if Answers(id, Look(w)) then a.cause == EndingCause(w) && Listener(a.env, a.reader) == rest
            else var later := AwaitedResponse(id, rest.env, rest.reader);
                 a.cause == later.cause && a.env == later.env && a.reader == later.reader
  {
    UpcomingStep(w.env);
    LookIsListened(w);
    hide Upcoming, Past, Looked, Look, Listen, Reading.NextFrame, AwaitedResponse;
    assert w.env.script[0] == ReadReady;
    LookEnds(id, w.env, Past(w.env), w.reader, Look(w), Listen(w).env, Listen(w).reader);
  }

  lemma LookEnds(id: u16, env: Env, rest: Env, r: Reading.Reader, status: Reading.Status, env': Env, r': Reading.Reader)
    requires r.Valid() && r'.Valid()
    requires Upcoming(env) == (Some(ReadReady), rest) && Looked(rest, r) == (status, env', r')
    ensures |env'.script| < |env.script|
    ensures var a := AwaitedResponse(id, env, r);
            if Answers(id, status) then
              a.cause == CauseOf(status) && a.env == env' && a.reader == r'
            else
              var later := AwaitedResponse(id, env', r');
              a.cause == later.cause && a.env == later.env && a.reader == later.reader
  {
    assert Looked(rest, r).1.script == rest.script && |rest.script| < |env.script|;
    hide Upcoming, Looked;
    var later := AwaitedResponse(id, env', r');
    match status
    case Failed(kind) => assert AwaitedResponse(id, env, r) == Answer([], ReadFailed(kind), env', r');
    case Output(Bad(error)) => assert AwaitedResponse(id, env, r) == Answer([], BadlyFramed(error), env', r');
    case Output(Got(frame)) =>
      if !Foreign(id, frame) {
        assert AwaitedResponse(id, env, r) == Answer([], AnsweredBy(frame), env', r');
      } else {
        assert AwaitedResponse(id, env, r) == later.(skipped := [frame] + later.skipped);
      }
    case _ => assert AwaitedResponse(id, env, r) == later;
  }

  lemma FirstEnd(id: u16, w: Listener, k: nat)
    requires w.reader.Valid() && ResponseEndsAt(id, w, k) && EndsResponse(id, ListenAll(w, 0))
    ensures k == 0
  {}

  /** The wait for a response ends with the first event that can end it, as that event says. */
  lemma {:induction false} FirstEndDecides(id: u16, w: Listener)
    requires w.reader.Valid()
    ensures var a := AwaitedResponse(id, w.env, w.reader);
            && (a.cause != Abandoned <==> exists k: nat :: ResponseEndsAt(id, w, k))
            && forall k: nat | ResponseEndsAt(id, w, k) ::
                 a.cause == EndingCause(ListenAll(w, k)) && Listener(a.env, a.reader) == ListenAll(w, k + 1)
    decreases |w.env.script|
  {
    if w.env.script != [] {
      ResponseStep(id, w);
      var rest := Listen(w);
      assert ListenAll(w, 0) == w && ListenAll(w, 1) == ListenAll(rest, 0);
      assert EndsResponse(id, w) ==> EndingCause(w) != Abandoned;
      hide AwaitedResponse, EndsResponse, EndingCause, Listen;
      if EndsResponse(id, w) {
        assert ResponseEndsAt(id, w, 0);
        forall k: nat | ResponseEndsAt(id, w, k) ensures k == 0 { FirstEnd(id, w, k); }
      } else {
        FirstEndDecides(id, rest);
        forall k: nat | ResponseEndsAt(id, rest, k)
          ensures ResponseEndsAt(id, w, k + 1)
        {
          forall i: nat | i < k + 1
            ensures !EndsResponse(id, ListenAll(w, i))
          {
            if i > 0 {
              assert ListenAll(w, i) == ListenAll(rest, i - 1);
            }
          }
        }
        forall k: nat | ResponseEndsAt(id, w, k)
          ensures k > 0 && ResponseEndsAt(id, rest, k - 1)
        {
          forall i: nat | i < k - 1
            ensures !EndsResponse(id, ListenAll(rest, i))
          {
            assert ListenAll(w, i + 1) == ListenAll(rest, i);
          }
        }
      }
    }
  }

  /** The first event that can end the wait for a response is the deadline, or a look; and what that says is the cause. */
  lemma ResponseLaw(id: u16, env: Env, r: Reading.Reader, k: nat)
    requires r.Valid() && ResponseEndsAt(id, Listener(env, r), k)
    ensures k < |env.script|
    ensures var cause, status := AwaitedResponse(id, env, r).cause, Look(ListenAll(Listener(env, r), k));
            if env.script[k].Deadline? then cause == TimedOut
            else env.script[k].ReadReady? && Answers(id, status) && cause == CauseOf(status)
  {
    var w := Listener(env, r);
    FirstEndDecides(id, w);
    assert ListenAll(w, k).env.script[0] == env.script[k];
    hide AwaitedResponse;
  }

  // ----- a turn -----

  /** The request is written, and the event at `k` after that is the first that ends the wait for its response. */
  ghost predicate Concluded(id: u16, s: Inside, w: nat, k: nat)
    requires s.reader.Valid()
  {
    && FirstWrite(s.Env().script, w) && s.Env().script[w].error == None
    && ResponseEndsAt(id, Listener(PastAll(s.Env(), w + 1), s.reader), k)
  }

  /** What the look that ended the wait found. */
  function Found(s: Inside, w: nat, k: nat): Reading.Status
    requires s.reader.Valid() && w + 1 + k < |s.Env().script|
  {
    Look(ListenAll(Listener(PastAll(s.Env(), w + 1), s.reader), k))
  }

  lemma ConversedEnds(id: u16, s: Inside, w: nat, k: nat)
    requires s.reader.Valid() && Concluded(id, s, w, k)
    ensures w + 1 + k < |s.Env().script|
    ensures var cause := Conversed(id, s.Env(), s.reader).cause;
            if s.Env().script[w + 1 + k].Deadline? then cause == TimedOut
            else s.Env().script[w + 1 + k].ReadReady? && Answers(id, Found(s, w, k)) && cause == CauseOf(Found(s, w, k))
  {
    var env := PastAll(s.Env(), w + 1);
    WriteLaw(s.Env());
    ResponseLaw(id, env, s.reader, k);
    assert env.script[k] == s.Env().script[w + 1 + k];
    hide AwaitedResponse, AwaitedWrite, ResponseEndsAt, Look, ListenAll;
  }

  lemma OnlyWhileWaiting(id: u16, env: Env, r: Reading.Reader)
    requires r.Valid()
    ensures var cause := AwaitedResponse(id, env, r).cause; !cause.WriteFailed? && !cause.NotFormatted?
    ensures AwaitedResponse(id, env, r).cause == Abandoned <==> forall k: nat :: !ResponseEndsAt(id, Listener(env, r), k)
  {
    FirstEndDecides(id, Listener(env, r));
    hide AwaitedResponse, ResponseEndsAt, ListenAll, Look;
  }

  lemma WriteFailedIff(id: u16, s: Inside, kind: IoErrorKind)
    requires s.reader.Valid()
    ensures Conversed(id, s.Env(), s.reader).cause == WriteFailed(kind) <==>
            exists w: nat :: FirstWrite(s.Env().script, w) && s.Env().script[w].error == Some(kind)
  {
    WriteLaw(s.Env());
    OnlyWhileWaiting(id, AwaitedWrite(s.Env()).1, s.reader);
    hide AwaitedResponse, AwaitedWrite, ResponseEndsAt;
  }

  /** The task is dropped in a transaction if and only if its write, or the wait after it, never ends. */
  lemma AbandonedIff(id: u16, s: Inside)
    requires s.reader.Valid()
    ensures Conversed(id, s.Env(), s.reader).cause == Abandoned <==>
            && (forall w: nat | FirstWrite(s.Env().script, w) :: s.Env().script[w].error == None)
            && (forall w: nat, k: nat :: !Concluded(id, s, w, k))
  {
    var (written, env) := AwaitedWrite(s.Env());
    WriteLaw(s.Env());
    OnlyWhileWaiting(id, env, s.reader);
    hide AwaitedResponse, AwaitedWrite, ResponseEndsAt;
    if w: nat :| FirstWrite(s.Env().script, w) && s.Env().script[w].error == None {
      forall k: nat ensures Concluded(id, s, w, k) <==> ResponseEndsAt(id, Listener(env, s.reader), k) {}
    }
  }

  lemma NotConcluded(id: u16, s: Inside)
    requires s.reader.Valid()
    ensures (exists w: nat, k: nat :: Concluded(id, s, w, k)) ||
            Conversed(id, s.Env(), s.reader).cause.WriteFailed? || Conversed(id, s.Env(), s.reader).cause.Abandoned?
  {
    AbandonedIff(id, s);
    if w: nat :| FirstWrite(s.Env().script, w) && s.Env().script[w].error != None {
      WriteFailedIff(id, s, s.Env().script[w].error.value);
    }
    hide Conversed, Concluded;
  }

  /** The turn of a request completes it with this result, and nothing else. */
  predicate CompletesWith(format: FormatType, s: Inside, request: ClientRequest, result: RequestResult)
    requires s.reader.Valid()
  {
    Performed(format, s, request).1.outside.fired == s.outside.fired + [Completion(request.id, result)]
  }

  predicate Sent(format: FormatType, s: Inside, request: ClientRequest) {
    FormattedRequest(format, request.unit, |s.transactions| % 0x1_0000, request.details).Ok?
  }

  lemma EndIgnoresSkipped(request: ClientRequest, id: u16, skipped: seq<Frame>, cause: Cause)
    ensures EndOf(Transaction(request, id, skipped, cause)) == EndOf(Transaction(request, id, [], cause))
  {
    hide HandledResponse;
  }

  lemma TurnIs(format: FormatType, s: Inside, request: ClientRequest)
    requires s.reader.Valid()
    ensures var id := |s.transactions| % 0x1_0000;
            var t := Transaction(request, id, [], Executed(format, request, id, s.Env(), s.reader).cause);
            && Performed(format, s, request).0 == EndOf(t)
            && forall result :: CompletesWith(format, s, request, result) <==> result == t.Result()
  {
    hide Executed, HandledResponse, EndOf;
    var fired := s.outside.fired;
    var id := |s.transactions| % 0x1_0000;
    var a := Executed(format, request, id, s.Env(), s.reader);
    var t := Transaction(request, id, [], a.cause);
    EndIgnoresSkipped(request, id, a.skipped, a.cause);
    assert Performed(format, s, request).1.outside.fired == fired + [Completion(request.id, t.Result())];
    forall result
      ensures CompletesWith(format, s, request, result) <==> result == t.Result()
    {
      assert (fired + [Completion(request.id, result)])[|fired|] == Completion(request.id, result);
      assert (fired + [Completion(request.id, t.Result())])[|fired|] == Completion(request.id, t.Result());
    }
  }

  lemma CompletionIs(format: FormatType, s: Inside, request: ClientRequest, result: RequestResult)
    requires s.reader.Valid() && Sent(format, s, request)
    ensures var id := |s.transactions| % 0x1_0000;
            var t := Transaction(request, id, [], Conversed(id, s.Env(), s.reader).cause);
            CompletesWith(format, s, request, result) <==> result == t.Result()
  {
    TurnIs(format, s, request);
    hide Conversed, FormattedRequest, HandledResponse, CompletesWith, Performed;
  }

  /** A request times out if and only if its deadline comes, after the write, before any look that ends the wait. */
  lemma TimeoutIff(format: FormatType, s: Inside, request: ClientRequest)
    requires s.reader.Valid() && Sent(format, s, request)
    ensures var id := |s.transactions| % 0x1_0000;
            CompletesWith(format, s, request, Err(ResponseTimeout)) <==>
            exists w: nat, k: nat :: Concluded(id, s, w, k) && s.Env().script[w + 1 + k].Deadline?
  {
    var id := |s.transactions| % 0x1_0000;
    CompletionIs(format, s, request, Err(ResponseTimeout));
    CauseIs(format, s, request);
    NotConcluded(id, s);
    forall w: nat, k: nat | Concluded(id, s, w, k)
      ensures w + 1 + k < |s.Env().script|
      ensures Conversed(id, s.Env(), s.reader).cause == TimedOut <==> s.Env().script[w + 1 + k].Deadline?
    {
      ConversedEnds(id, s, w, k);
    }
    hide CompletesWith, Conversed, Concluded, Sent, HandledResponse;
  }

  /** Which causes the results of a request that was sent can have. */
  lemma CauseIs(format: FormatType, s: Inside, request: ClientRequest)
    requires s.reader.Valid() && Sent(format, s, request)
    ensures var id := |s.transactions| % 0x1_0000;
            var cause := Conversed(id, s.Env(), s.reader).cause;
            var result := Transaction(request, id, [], cause).Result();
            && !cause.NotFormatted?
            && (result == Err(ResponseTimeout) <==> cause == TimedOut)
            && (forall kind :: result == Err(Io(kind)) <==> cause == WriteFailed(kind) || cause == ReadFailed(kind))
            && (forall error :: result == Err(BadFrame(error)) <==> cause == BadlyFramed(error))
            && (result == Err(Shutdown) <==> cause == Abandoned)
            && (result.Ok? ==> cause.AnsweredBy?)
  {
    var id := |s.transactions| % 0x1_0000;
    var cause := Conversed(id, s.Env(), s.reader).cause;
    OnlyWhileWaiting(id, AwaitedWrite(s.Env()).1, s.reader);
    hide HandledResponse, AwaitedResponse, AwaitedWrite, ResponseEndsAt;
    assert !cause.NotFormatted?;
    hide Conversed;
    if cause.AnsweredBy? && HandledResponse(request.details, cause.frame.payload).Err? {
      ResponseErrors(request.details, cause.frame.payload);
    }
  }

  /** A request fails with an I/O error if and only if its write does, or the first look that ends the wait finds it. */
  lemma IoErrorIff(format: FormatType, s: Inside, request: ClientRequest, kind: IoErrorKind)
    requires s.reader.Valid() && Sent(format, s, request)
    ensures var id := |s.transactions| % 0x1_0000;
            CompletesWith(format, s, request, Err(Io(kind))) <==>
            || (exists w: nat :: FirstWrite(s.Env().script, w) && s.Env().script[w].error == Some(kind))
            || (exists w: nat, k: nat :: Concluded(id, s, w, k) && s.Env().script[w + 1 + k].ReadReady? &&
                                         Found(s, w, k) == Reading.Failed(kind))
  {
    hide *;
    var id := |s.transactions| % 0x1_0000;
    var cause := Conversed(id, s.Env(), s.reader).cause;
    CompletionIs(format, s, request, Err(Io(kind)));
    CauseIs(format, s, request);
    NotConcluded(id, s);
    WriteFailedIff(id, s, kind);
    forall w: nat, k: nat | Concluded(id, s, w, k)
      ensures w + 1 + k < |s.Env().script|
      ensures cause == ReadFailed(kind) <==>
              s.Env().script[w + 1 + k].ReadReady? && Found(s, w, k) == Reading.Failed(kind)
    {
      ConversedEnds(id, s, w, k);
      CauseOfFailed(Found(s, w, k), kind);
    }
  }

  lemma CauseOfFailed(status: Reading.Status, kind: IoErrorKind)
    ensures CauseOf(status) == ReadFailed(kind) <==> status == Reading.Failed(kind)
  {}

  /** A request fails with a framing error if and only if the first look that ends the wait finds an invalid frame. */
  lemma BadFrameIff(format: FormatType, s: Inside, request: ClientRequest, error: FrameParseError)
    requires s.reader.Valid() && Sent(format, s, request)
    ensures var id := |s.transactions| % 0x1_0000;
            CompletesWith(format, s, request, Err(BadFrame(error))) <==>
            exists w: nat, k: nat :: Concluded(id, s, w, k) && s.Env().script[w + 1 + k].ReadReady? &&
                                     Found(s, w, k) == Reading.Output(Framing.Bad(error))
  {
    hide *;
    var id := |s.transactions| % 0x1_0000;
    var cause := Conversed(id, s.Env(), s.reader).cause;
    CompletionIs(format, s, request, Err(BadFrame(error)));
    CauseIs(format, s, request);
    NotConcluded(id, s);
    forall w: nat, k: nat | Concluded(id, s, w, k)
      ensures w + 1 + k < |s.Env().script|
      ensures cause == BadlyFramed(error) <==>
              s.Env().script[w + 1 + k].ReadReady? && Found(s, w, k) == Reading.Output(Framing.Bad(error))
    {
      ConversedEnds(id, s, w, k);
      CauseOfBad(Found(s, w, k), error);
    }
  }

  lemma CauseOfBad(status: Reading.Status, error: FrameParseError)
    ensures CauseOf(status) == BadlyFramed(error) <==> status == Reading.Output(Framing.Bad(error))
  {}

  /** If that look finds a frame, the request has what the frame says. */
  lemma AnswerDecides(format: FormatType, s: Inside, request: ClientRequest, w: nat, k: nat, frame: Frame)
    requires s.reader.Valid() && Sent(format, s, request)
    requires Concluded(|s.transactions| % 0x1_0000, s, w, k) && w + 1 + k < |s.Env().script|
    requires s.Env().script[w + 1 + k].ReadReady? && Found(s, w, k) == Reading.Output(Framing.Got(frame))
    ensures frame.txId == None || frame.txId == Some(|s.transactions| % 0x1_0000)
    ensures CompletesWith(format, s, request, HandledResponse(request.details, frame.payload))
  {
    CompletionIs(format, s, request, HandledResponse(request.details, frame.payload));
    ConversedEnds(|s.transactions| % 0x1_0000, s, w, k);
    hide CompletesWith, Conversed, Concluded, Sent, HandledResponse, Found;
  }

  lemma ExecutedIs(format: FormatType, s: Inside, request: ClientRequest)
    requires s.reader.Valid()
    ensures var id := |s.transactions| % 0x1_0000;
            var t := Transaction(request, id, [], Executed(format, request, id, s.Env(), s.reader).cause);
            && (t.Result() == Err(Shutdown) <==> t.cause.Abandoned?)
            && EndOf(t) == if t.Result() == Err(Shutdown) then Dropped
                           else Ended(if t.Result().Err? then FromRequestError(t.Result().error) else None)
  {
    if Sent(format, s, request) {
      CauseIs(format, s, request);
      hide HandledResponse, FormattedRequest, Conversed;
    } else {
      FormattingErrors(format, request.unit, |s.transactions| % 0x1_0000, request.details);
      hide HandledResponse, FormattedRequest;
    }
  }

  /**
   The turn of a request ends the session with an I/O error if and only if the request failed with that error,
   and with a framing error if and only if it failed with one; a task that is dropped with the request never ends
   its turn; and in all other cases the session goes on.
   */
  lemma TurnEnds(format: FormatType, s: Inside, request: ClientRequest)
    requires s.reader.Valid()
    ensures var end := Performed(format, s, request).0;
            && (forall kind :: end == Ended(Some(IoError(kind))) <==> CompletesWith(format, s, request, Err(Io(kind))))
            && (end == Ended(Some(BadFrameError)) <==> exists error :: CompletesWith(format, s, request, Err(BadFrame(error))))
            && (end == Dropped <==> CompletesWith(format, s, request, Err(Shutdown)))
            && (end == Ended(None) <==>
                  && !CompletesWith(format, s, request, Err(Shutdown))
                  && (forall kind :: !CompletesWith(format, s, request, Err(Io(kind))))
                  && (forall error :: !CompletesWith(format, s, request, Err(BadFrame(error)))))
  {
    var id := |s.transactions| % 0x1_0000;
    var cause := Executed(format, request, id, s.Env(), s.reader).cause;
    var result := Transaction(request, id, [], cause).Result();
    TurnIs(format, s, request);
    ExecutedIs(format, s, request);
    hide CompletesWith, Performed, Executed, HandledResponse;
    assert CompletesWith(format, s, request, result);
    if result.Err? && result.error.BadFrame? {
      assert CompletesWith(format, s, request, Err(BadFrame(result.error.frameError)));
    }
    if result.Err? && result.error.Io? {
      assert CompletesWith(format, s, request, Err(Io(result.error.kind)));
    }
  }

  // ----- a session -----

  /** The state of an idle session after its next `k` events, none of which ended its turn. */
  function IdleAll(s: Inside, k: nat): (r: Inside)
    requires s.reader.Valid() && k <= |s.Env().script|
    ensures r.reader.Valid() && r.Env().script == s.Env().script[k..]
  {
    var w := ListenAll(Listener(s.Env(), s.reader), k);
    s.WithEnv(w.env).(reader := w.reader)
  }

  /** A look at the connection that finds something, or at a queue that holds a command or is closed, ends a turn. */
  predicate EndsTurn(s: Inside)
    requires s.reader.Valid() && s.Env().script != []
  {
    match s.Env().script[0]
    case ReadReady =>
      (match Look(Listener(s.Env(), s.reader))
       case Failed(_) => true
       case Output(outcome) => !outcome.More?
       case Cancelled => false)
    case Receive => s.Env().queue != [] || !s.Env().open
    case _ => false
  }

  /** How it ends: an idle session ignores frames, and ends with its connection, its queue, or the channel's enablement. */
  function TurnOf(format: FormatType, s: Inside): (Flow<Option<SessionError>>, Inside)
    requires s.reader.Valid() && s.Env().script != []
  {
    var later := IdleAll(s, 1);
    if s.Env().script[0].ReadReady? then
      match Look(Listener(s.Env(), s.reader))
      case Failed(kind) => (Ended(Some(IoError(kind))), later)
      case Output(Bad(_)) => (Ended(Some(BadFrameError)), later)
      case _ => (Ended(None), later)
    else if s.Env().queue == [] then (Ended(Some(SessionShutdown)), later)
    else
      var popped := later.WithEnv(later.Env().(queue := s.Env().queue[1..]));
      match s.Env().queue[0]
      case Perform(request) => Performed(format, popped, request)
      case Change(Enable) => (Ended(None), popped.(outside := popped.outside.(enabled := true)))
      case Change(Disable) => (Ended(Some(Disabled)), popped.(outside := popped.outside.(enabled := false)))
      case Change(DecodeLevel) => (Ended(if s.outside.enabled then None else Some(Disabled)), popped)
  }

  ghost predicate TurnEndsAt(s: Inside, k: nat)
    requires s.reader.Valid()
  {
    k < |s.Env().script| && EndsTurn(IdleAll(s, k)) && forall i: nat | i < k :: !EndsTurn(IdleAll(s, i))
  }

  lemma PolledLook(format: FormatType, s: Inside)
    requires s.reader.Valid() && s.Env().script != [] && s.Env().script[0].ReadReady?
    ensures Polled(format, s) == if EndsTurn(s) then TurnOf(format, s) else Polled(format, IdleAll(s, 1))
  {
    var w := Listener(s.Env(), s.reader);
    UpcomingStep(s.Env());
    LookIsListened(w);
    assert ListenAll(w, 1) == ListenAll(Listen(w), 0);
    hide Upcoming, Past, Looked, Look, Listen, Reading.NextFrame, CommandReceived;
    var next := IdleAll(s, 1);
    assert s.WithEnv(Listen(w).env).(reader := Listen(w).reader) == next;
    match Look(w)
    case Failed(kind) =>
    case Output(outcome) =>
    case Cancelled =>
  }

  lemma IdlePast(s: Inside)
    requires s.reader.Valid() && s.Env().script != [] && !s.Env().script[0].ReadReady?
    ensures IdleAll(s, 1) == s.WithEnv(Past(s.Env()))
  {
    var w := Listener(s.Env(), s.reader);
    assert ListenAll(w, 1) == ListenAll(Listen(w), 0);
  }

  lemma PolledIgnored(format: FormatType, s: Inside)
    requires s.reader.Valid() && s.Env().script != [] && !s.Env().script[0].ReadReady? && !s.Env().script[0].Receive?
    ensures !EndsTurn(s) && Polled(format, s) == Polled(format, IdleAll(s, 1))
  {
    UpcomingStep(s.Env());
    IdlePast(s);
    hide Upcoming, IdleAll, CommandReceived, Looked, Look;
  }

  lemma PolledReceive(format: FormatType, s: Inside)
    requires s.reader.Valid() && s.Env().script != [] && s.Env().script[0].Receive?
    ensures Polled(format, s) == if EndsTurn(s) then TurnOf(format, s) else Polled(format, IdleAll(s, 1))
  {
    UpcomingStep(s.Env());
    IdlePast(s);
    CommandIs(format, s);
    hide Upcoming, IdleAll, CommandReceived, Looked, Look, TurnOf;
  }

  /** The queue is looked at: what `TurnOf` says, if a command or the end was there. */
  lemma CommandIs(format: FormatType, s: Inside)
    requires s.reader.Valid() && s.Env().script != [] && s.Env().script[0].Receive?
    ensures var (end, s') := CommandReceived(format, s.WithEnv(Past(s.Env())));
            if EndsTurn(s) then end.Some? && (end.value, s') == TurnOf(format, s)
            else end.None? && s' == s.WithEnv(Past(s.Env()))
  {
    IdlePast(s);
    hide IdleAll, Performed;
  }

  lemma FirstTurn(s: Inside, k: nat)
    requires s.reader.Valid() && s.Env().script != [] && EndsTurn(s)
    ensures IdleAll(s, 0) == s && (TurnEndsAt(s, k) <==> k == 0)
  {
    assert IdleAll(s, 0) == s;
    hide EndsTurn, IdleAll;
  }

  /** If the first event does not end the turn, the event at `k + 1` does, first, when it is the one at `k` after that. */
  lemma LaterTurn(s: Inside, k: nat)
    requires s.reader.Valid() && s.Env().script != [] && !EndsTurn(s)
    ensures TurnEndsAt(s, k + 1) <==> TurnEndsAt(IdleAll(s, 1), k)
    ensures !TurnEndsAt(s, 0)
  {
    assert IdleAll(s, 0) == s;
    var rest := IdleAll(s, 1);
    forall i: nat | i < |s.Env().script|
      ensures IdleAll(s, i + 1) == IdleAll(rest, i)
    {
      IdleShift(s, i);
    }
    hide EndsTurn, IdleAll;
    if TurnEndsAt(rest, k) {
      forall i: nat | i < k + 1
        ensures !EndsTurn(IdleAll(s, i))
      {
        if i > 0 {
          assert IdleAll(s, i) == IdleAll(rest, i - 1);
        }
      }
    }
    if TurnEndsAt(s, k + 1) {
      forall i: nat | i < k
        ensures !EndsTurn(IdleAll(rest, i))
      {
        assert IdleAll(s, i + 1) == IdleAll(rest, i);
      }
    }
  }

  lemma PolledStep(format: FormatType, s: Inside)
    requires s.reader.Valid() && s.Env().script != []
    ensures Polled(format, s) == if EndsTurn(s) then TurnOf(format, s) else Polled(format, IdleAll(s, 1))
  {
    hide *;
    if s.Env().script[0].ReadReady? {
      PolledLook(format, s);
    } else if s.Env().script[0].Receive? {
      PolledReceive(format, s);
    } else {
      PolledIgnored(format, s);
    }
  }

  lemma TurnNow(format: FormatType, s: Inside)
    requires s.reader.Valid() && s.Env().script != [] && EndsTurn(s)
    ensures TurnEndsAt(s, 0)
    ensures forall k: nat | TurnEndsAt(s, k) :: Polled(format, s) == TurnOf(format, IdleAll(s, k))
  {
    PolledStep(format, s);
    hide Polled, EndsTurn, TurnOf, IdleAll, TurnEndsAt;
    FirstTurn(s, 0);
    forall k: nat | TurnEndsAt(s, k)
      ensures Polled(format, s) == TurnOf(format, IdleAll(s, k))
    {
      FirstTurn(s, k);
    }
  }

  lemma TurnOnceLater(format: FormatType, s: Inside, k: nat)
    requires s.reader.Valid() && s.Env().script != [] && !EndsTurn(s) && TurnEndsAt(s, k)
    requires forall j: nat | TurnEndsAt(IdleAll(s, 1), j) ::
               Polled(format, IdleAll(s, 1)) == TurnOf(format, IdleAll(IdleAll(s, 1), j))
    ensures Polled(format, s) == TurnOf(format, IdleAll(s, k))
  {
    PolledStep(format, s);
    TurnIsLater(s, k);
    hide Polled, EndsTurn, TurnOf, IdleAll, TurnEndsAt;
  }

  lemma NoTurnLater(format: FormatType, s: Inside)
    requires s.reader.Valid() && s.Env().script != [] && !EndsTurn(s)
    requires var rest := IdleAll(s, 1);
             (forall j: nat :: !TurnEndsAt(rest, j)) ==> Polled(format, rest) == (Dropped, IdleAll(rest, |rest.Env().script|))
    ensures (forall k: nat :: !TurnEndsAt(s, k)) ==> Polled(format, s) == (Dropped, IdleAll(s, |s.Env().script|))
  {
    PolledStep(format, s);
    IdleShift(s, |s.Env().script| - 1);
    var rest := IdleAll(s, 1);
    hide Polled, EndsTurn, IdleAll, TurnEndsAt;
    if j: nat :| TurnEndsAt(rest, j) {
      LaterTurn(s, j);
    }
  }

  /** A turn of a session is decided by the first event that can end it. */
  lemma {:induction false} PollLaw(format: FormatType, s: Inside)
    requires s.reader.Valid()
    ensures (forall k: nat :: !TurnEndsAt(s, k)) ==> Polled(format, s) == (Dropped, IdleAll(s, |s.Env().script|))
    ensures forall k: nat | TurnEndsAt(s, k) :: Polled(format, s) == TurnOf(format, IdleAll(s, k))
    decreases |s.Env().script|
  {
    hide Polled, EndsTurn, TurnOf, IdleAll;
    if s.Env().script == [] {
      NothingToHear(format, s);
    } else if EndsTurn(s) {
      TurnNow(format, s);
    } else {
      PollLaw(format, IdleAll(s, 1));
      NoTurnLater(format, s);
      forall k: nat | TurnEndsAt(s, k)
        ensures Polled(format, s) == TurnOf(format, IdleAll(s, k))
      {
        TurnOnceLater(format, s, k);
      }
    }
  }

  lemma TurnIsLater(s: Inside, k: nat)
    requires s.reader.Valid() && s.Env().script != [] && !EndsTurn(s) && TurnEndsAt(s, k)
    ensures 0 < k <= |s.Env().script| && TurnEndsAt(IdleAll(s, 1), k - 1) && IdleAll(s, k) == IdleAll(IdleAll(s, 1), k - 1)
  {
    LaterTurn(s, 0);
    LaterTurn(s, k - 1);
    IdleShift(s, k - 1);
  }

  lemma NothingToHear(format: FormatType, s: Inside)
    requires s.reader.Valid() && s.Env().script == []
    ensures Polled(format, s) == (Dropped, IdleAll(s, 0)) && forall k: nat :: !TurnEndsAt(s, k)
  {}

  lemma IdleShift(s: Inside, k: nat)
    requires s.reader.Valid() && k < |s.Env().script|
    ensures IdleAll(s, k + 1) == IdleAll(IdleAll(s, 1), k)
  {
    var w := Listener(s.Env(), s.reader);
    assert ListenAll(w, 1) == ListenAll(Listen(w), 0);
    assert Listener(IdleAll(s, 1).Env(), IdleAll(s, 1).reader) == Listen(w);
  }

  /** The n-th turn is the first that does not let the session go on. */
  ghost predicate LastTurn(format: FormatType, s: Inside, n: nat)
    requires s.reader.Valid()
  {
    && Polled(format, AfterPolls(format, s, n)).0 != Ended(None)
    && forall i: nat | i < n :: Polled(format, AfterPolls(format, s, i)).0 == Ended(None)
  }

  lemma OnlyTurn(format: FormatType, s: Inside, n: nat)
    requires s.reader.Valid() && LastTurn(format, s, n) && Polled(format, AfterPolls(format, s, 0)).0 != Ended(None)
    ensures n == 0
  {}

  /** A session ends with the first turn that ends with an error, and with that error; it has such a turn, or is dropped. */
  lemma {:induction false} SessionLaw(format: FormatType, s: Inside)
    requires s.reader.Valid()
    ensures exists n: nat :: LastTurn(format, s, n)
    ensures forall n: nat | LastTurn(format, s, n) ::
              var (end, s') := Polled(format, AfterPolls(format, s, n));
              Ran(format, s) == (if end.Dropped? then Dropped else Ended(end.value.value), s')
    decreases |s.Env().script|
  {
    var (end, rest) := Polled(format, s);
    hide Polled;
    assert AfterPolls(format, s, 0) == s;
    if end == Ended(None) {
      SessionLaw(format, rest);
      forall n: nat
        ensures AfterPolls(format, s, n + 1) == AfterPolls(format, rest, n)
      {}
      forall n: nat | LastTurn(format, rest, n)
        ensures LastTurn(format, s, n + 1)
      {
        forall i: nat | i < n + 1
          ensures Polled(format, AfterPolls(format, s, i)).0 == Ended(None)
        {
          if i > 0 {
            assert AfterPolls(format, s, i) == AfterPolls(format, rest, i - 1);
          }
        }
      }
      forall n: nat | LastTurn(format, s, n)
        ensures n > 0 && LastTurn(format, rest, n - 1)
      {
        forall i: nat | i < n - 1
          ensures Polled(format, AfterPolls(format, rest, i)).0 == Ended(None)
        {
          assert AfterPolls(format, s, i + 1) == AfterPolls(format, rest, i);
        }
      }
    } else {
      assert LastTurn(format, s, 0);
      forall n: nat | LastTurn(format, s, n) ensures n == 0 { OnlyTurn(format, s, n); }
    }
  }
}
