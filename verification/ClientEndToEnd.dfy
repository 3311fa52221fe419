/**
 The client loop and the server together: what a promise is completed with is the outcome of the call on
 the handler, and it is completed as soon as the reply is there and looked at.
 */
module ClientEndToEnd {
  import opened Types
  import opened FrameWriters
  import opened Framing
  import opened RoundTrip
  import opened ServerRequests
  import opened ServerSessions
  import opened ClientRequests
  import opened EndToEnd
  import opened Streams
  import opened ClientRuns
  import opened Reading

  /** A request of the client, as it travels. */
  function Travelling(request: ClientRequest, id: u16): Sent { Sent(request.unit, id, request.details) }

  /** `bytes` is the server's reply to a request, carried out on the handlers `devices`. */
  ghost predicate RepliedWith<S>(format: FormatType, auth: Authorization, h: Handler<S>, devices: Devices<S>, sent: Sent,
                                 bytes: seq<u8>)
  {
    && devices.Valid() && sent.unit in devices.units && Served(format, auth, sent)
    && Formattable(format, HeaderOf(FrameOf(format, sent)))
    && HandledFrame(format, auth, h, devices, FrameOf(format, sent)).1 == Reply(bytes)
  }

  /** The outcome of the call on the handler of the request's unit. */
  function CallResult<S>(h: Handler<S>, devices: Devices<S>, sent: Sent): RequestResult
    requires devices.Valid() && sent.unit in devices.units
  {
    CallOn(h, devices, sent).1
  }

  /** A reply is one frame, with the id of its request, and it decodes to the outcome of the call. */
  lemma ReplyFrame<S>(format: FormatType, auth: Authorization, h: Handler<S>, devices: Devices<S>, sent: Sent,
                      bytes: seq<u8>) returns (frame: Frame)
    requires RepliedWith(format, auth, h, devices, sent, bytes)
    ensures Carries(ClientParser(format), bytes, frame)
    ensures Own(format, sent.txId, frame)
    ensures HandledResponse(sent.details, frame.payload) == CallResult(h, devices, sent)
  {
    hide HandledFrame, ParseAll, ParseOne, Delimited, MbapFrame, RtuFrame, HandledResponse, CallOn, Served, PduOf;
    hide EncodedFrame;
    var request := FrameOf(format, sent);
    CallIsHandled(format, auth, h, devices, sent);
    ReplyMatchesRequest(format, auth, h, devices, request);
    var pdu: seq<u8> :| bytes == Enclosed(format, request, pdu) &&
                        2 <= |pdu| <= MAX_ADU_LENGTH && Delimited(Framing.Response, pdu);
    EnclosedIsEncoded(format, sent, pdu);
    frame := DecodedFrame(format, sent.txId, sent.unit, pdu);
    FrameCrosses(format, Framing.Response, sent.txId, sent.unit, pdu);
    OneFrame(ClientParser(format), bytes, frame);
  }

  lemma EnclosedIsEncoded(format: FormatType, sent: Sent, pdu: seq<u8>)
    requires Formattable(format, HeaderOf(FrameOf(format, sent)))
    ensures Enclosed(format, FrameOf(format, sent), pdu) == EncodedFrame(format, sent.txId, sent.unit, pdu)
  {
    hide MbapFrame, RtuFrame, PduOf;
  }

  // ----- a reply that arrives while its transaction waits -----

  /** The reader holds nothing and waits for a new frame. */
  predicate AtRest(format: FormatType, r: Reader) { r.Valid() && r.parser == ClientParser(format) && r.window == [] }

  predicate AllData(socket: seq<IoEvent>) { forall i | 0 <= i < |socket| :: socket[i].Data? && socket[i].bytes != [] }

  /**
   The bytes `f`, and nothing else so far, arrive cut in any way, and the connection is looked at once they are
   all there, before the deadline.
   */
  predicate Prompt(env: Env, f: seq<u8>)
    decreases |env.script|
  {
    var (e, rest) := Upcoming(env);
    match e
    case None => false
    case Some(Deadline) => false
    case Some(ReadReady) =>
      var d := DataOf(rest.socket);
      AllData(rest.socket) && (d == f || (d < f && Prompt(rest.(socket := []), f[|d|..])))
    case Some(_) => Prompt(rest, f)
  }

  /** The part `pre` of the frame `f` has been read, and only that. */
  ghost predicate Midway(p: Parser, r: Reader, pre: seq<u8>, f: seq<u8>) {
    && r.Valid() && pre < f
    && ParseOne(p, f) == ParseOne(r.parser, r.window + f[|pre|..])
    && r.Reindexed().End() <= |pre|
  }

  /** A part of a frame leaves the parser waiting. */
  lemma MidwayWaits(p: Parser, r: Reader, pre: seq<u8>, f: seq<u8>)
    requires Midway(p, r, pre, f) && ParseOne(p, f).outcome.Got? && ParseOne(p, f).rest == []
    ensures r.Parse().1.More? && r.Parse().0.Valid() && Midway(p, r.Parse().0.Reindexed(), pre, f)
  {
    hide ParseOne;
    ParseKeepsValid(r);
    ParseOneProgress(r.parser, r.window);
    ParseOneStable(r.parser, r.window, f[|pre|..]);
    assert f[|pre|..] != [];
  }

  /** More of the frame is read: all of it, or the reader is midway again. */
  lemma MidwayReads(p: Parser, r: Reader, pre: seq<u8>, f: seq<u8>, c: seq<u8>)
    requires Midway(p, r, pre, f) && r.Reindexed() == r && c != [] && c <= f[|pre|..] && |f| <= MAX_FRAME_LENGTH
    ensures |c| <= r.Room() && r.Receive(c).Valid()
    ensures if pre + c == f then ParseOne(r.Receive(c).parser, r.Receive(c).window) == ParseOne(p, f)
            else Midway(p, r.Receive(c), pre + c, f)
  {
    hide ParseOne;
    assert f[|pre|..] == c + f[|pre + c|..];
    assert (r.window + c) + f[|pre + c|..] == r.window + f[|pre|..];
    if pre + c == f {
      assert r.window + c == r.window + f[|pre|..];
    }
  }

  /** A look at the connection midway through a frame. */
  lemma {:induction false} LookMidway(p: Parser, r: Reader, pre: seq<u8>, f: seq<u8>, frame: Frame, socket: seq<IoEvent>)
    requires Midway(p, r, pre, f) && ParseOne(p, f) == Parsed(p, [], Got(frame)) && |f| <= MAX_FRAME_LENGTH
    requires AllData(socket) && DataOf(socket) <= f[|pre|..]
    ensures var next := NextFrame(r, socket);
            && next.script == [] && next.reader.Valid()
            && if pre + DataOf(socket) == f then
                 next.status == Output(Got(frame)) && next.reader.parser == p && next.reader.window == []
               else
                 next.status == Cancelled && Midway(p, next.reader, pre + DataOf(socket), f)
    decreases |socket|
  {
    hide ParseOne, NextFrame, Midway, Reading.Taken;
    MidwayIsValid(p, r, pre, f);
    NextFrameStep(r, socket);
    MidwayWaits(p, r, pre, f);
    var r1 := r.Parse().0;
    if socket == [] {
      assert pre + [] == pre;
    } else {
      var c, rest := socket[0].bytes, socket[1..];
      assert DataOf(socket) == c + DataOf(rest);
      MidwayReads(p, r1.Reindexed(), pre, f, c);
      assert c[..|c|] == c && Reading.Taken(socket, |c|) == rest by { TakenAll(socket); }
      var r2 := r1.Receive(c);
      assert (pre + c) + DataOf(rest) == pre + DataOf(socket);
      if pre + c == f {
        NothingMore(rest, f, pre, c);
        NextFrameStep(r2, rest);
        ParseKeepsValid(r2);
      } else {
        assert f[|pre|..][|c|..] == f[|pre + c|..];
        LookMidway(p, r2, pre + c, f, frame, rest);
      }
    }
  }

  lemma TakenAll(socket: seq<IoEvent>)
    requires socket != [] && socket[0].Data?
    ensures Reading.Taken(socket, |socket[0].bytes|) == socket[1..]
  {}

  lemma MidwayIsValid(p: Parser, r: Reader, pre: seq<u8>, f: seq<u8>)
    requires Midway(p, r, pre, f)
    ensures r.Valid() && pre < f
  {}

  lemma NothingMore(rest: seq<IoEvent>, f: seq<u8>, pre: seq<u8>, c: seq<u8>)
    requires AllData(rest) && pre + c == f && c + DataOf(rest) <= f[|pre|..]
    ensures rest == []
  {
    assert |f[|pre|..]| == |c|;
    assert DataOf(rest) == [];
  }

  /** A frame that arrives in time and is not foreign ends the wait, and leaves the reader at rest. */
  lemma {:induction false} PromptAnswer(id: u16, env: Env, p: Parser, r: Reader, pre: seq<u8>, f: seq<u8>, frame: Frame)
    requires Midway(p, r, pre, f) && ParseOne(p, f) == Parsed(p, [], Got(frame)) && |f| <= MAX_FRAME_LENGTH
    requires r.Valid() && Prompt(env, f[|pre|..]) && !Foreign(id, frame)
    ensures var a := AwaitedResponse(id, env, r);
            && a.skipped == [] && a.cause == AnsweredBy(frame)
            && a.reader.parser == p && a.reader.window == [] && a.env.socket == []
    decreases |env.script|
  {
    hide ParseOne, NextFrame, Midway, Upcoming;
    var (e, rest) := Upcoming(env);
    if e == Some(ReadReady) {
      var d := DataOf(rest.socket);
      LookMidway(p, r, pre, f, frame, rest.socket);
      assert d == f[|pre|..] ==> pre + d == f by { MidwayIsValid(p, r, pre, f); }
      if pre + d != f {
        assert f[|pre|..][|d|..] == f[|pre + d|..];
        var next := NextFrame(r, rest.socket);
        PromptAnswer(id, rest.(socket := []), p, next.reader, pre + d, f, frame);
      }
    } else {
      PromptAnswer(id, rest, p, r, pre, f, frame);
    }
  }

  /**
   Over either framing: a transaction whose bytes are taken, and whose reply arrives and is looked at before
   the deadline, however it is cut, completes its promise with the outcome of the call. Nothing is skipped,
   and the reader is at rest again.
   */
  lemma ReplyCompletes<S>(format: FormatType, auth: Authorization, h: Handler<S>, devices: Devices<S>,
                          request: ClientRequest, id: u16, bytes: seq<u8>, env: Env, r: Reader)
    requires RepliedWith(format, auth, h, devices, Travelling(request, id), bytes) && AtRest(format, r)
    requires AwaitedWrite(env).0 == Ended(None) && Prompt(AwaitedWrite(env).1, bytes)
    ensures var a := Executed(format, request, id, env, r);
            && a.skipped == [] && a.cause.AnsweredBy?
            && Transaction(request, id, a.skipped, a.cause).Result() == CallResult(h, devices, Travelling(request, id))
            && AtRest(format, a.reader) && a.env.socket == []
  {
    hide ParseOne, HandledResponse, CallOn, Prompt, AwaitedWrite, AwaitedResponse, FormattedRequest, HandledFrame, FrameOf;
    var p := ClientParser(format);
    var frame := ReplyFrame(format, auth, h, devices, Travelling(request, id), bytes);
    WholeFits(p, bytes);
    assert [] + bytes[0..] == bytes && bytes[0..] == bytes;
    PromptAnswer(id, AwaitedWrite(env).1, p, r, [], bytes, frame);
  }

  // ----- a session in which every reply is prompt, over either framing -----

  /** The next request that the loop takes from its queue, and the state in which it does; nothing, if anything else comes first. */
  function NextRequest(s: Inside): (r: Option<(ClientRequest, Inside)>)
    requires s.reader.Valid()
    ensures r.Some? ==> r.value.1.reader.Valid() && |r.value.1.Env().script| < |s.Env().script|
    decreases |s.Env().script|
  {
    var (e, rest) := Upcoming(s.Env());
    match e
    case None => None
    case Some(Receive) =>
      (match Dequeued(rest)
       case (Taken(Perform(request)), env) => Some((request, s.WithEnv(env)))
       case (NotReady, _) => NextRequest(s.WithEnv(rest))
       case _ => None)
    case Some(ReadReady) =>
      if rest.socket != [] then None
      else var (_, env, r) := Looked(rest, s.reader); NextRequest(s.WithEnv(env).(reader := r))
    case Some(_) => NextRequest(s.WithEnv(rest))
  }

  lemma {:induction false} NextRequestIsPolled(format: FormatType, s: Inside)
    requires AtRest(format, s.reader) && NextRequest(s).Some?
    ensures var (request, s1) := NextRequest(s).value;
            && Polled(format, s) == Performed(format, s1, request)
            && AtRest(format, s1.reader) && s1.transactions == s.transactions && s1.outside.fired == s.outside.fired
    decreases |s.Env().script|
  {
    hide Upcoming, Performed, NextFrame;
    var (e, rest) := Upcoming(s.Env());
    if e == Some(ReadReady) {
      LookAtNothing(format, rest, s.reader);
      var (_, env, r) := Looked(rest, s.reader);
      NextRequestIsPolled(format, s.WithEnv(env).(reader := r));
    } else if !(e == Some(Receive) && rest.queue != []) {
      NextRequestIsPolled(format, s.WithEnv(rest));
    }
  }

  lemma LookAtNothing(format: FormatType, env: Env, r: Reader)
    requires AtRest(format, r) && env.socket == []
    ensures Looked(env, r).0 == Cancelled && Looked(env, r).1 == env && AtRest(format, Looked(env, r).2)
  {
    NextFrameStep(r, []);
  }

  /** One request after the other, each with its reply in time, carried out on the handlers that the others left. */
  ghost predicate InTurn<S>(format: FormatType, auth: Authorization, h: Handler<S>, devices: Devices<S>, s: Inside,
                            replies: seq<seq<u8>>)
    requires s.reader.Valid()
    decreases |replies|
  {
    replies != [] ==>
      NextRequest(s).Some? &&
      var (request, s1) := NextRequest(s).value;
      var sent := Travelling(request, |s1.transactions| % 0x1_0000);
      && RepliedWith(format, auth, h, devices, sent, replies[0])
      && AwaitedWrite(s1.Env()).0 == Ended(None) && Prompt(AwaitedWrite(s1.Env()).1, replies[0])
      && InTurn(format, auth, h, HandledFrame(format, auth, h, devices, FrameOf(format, sent)).0,
                Performed(format, s1, request).1, replies[1..])
  }

  function Completed(ts: seq<Transaction>): seq<Completion> {
    if ts == [] then [] else [Completion(ts[0].request.id, ts[0].Result())] + Completed(ts[1..])
  }

  function Results(ts: seq<Transaction>): seq<RequestResult> {
    if ts == [] then [] else [ts[0].Result()] + Results(ts[1..])
  }

  function AllTravelling(ts: seq<Transaction>): seq<Sent> {
    if ts == [] then [] else [Travelling(ts[0].request, ts[0].txId)] + AllTravelling(ts[1..])
  }

  /** Such a session is what an orderly peer brings about: here its next request, and then whatever follows. */
  lemma OrderlyExchange(s: Inside, request: ClientRequest, reply: seq<u8>, tail: seq<Event>)
    requires s.reader.Valid() && reply != []
    requires s.Env() == Env([Submit(Perform(request)), Receive, WriteDone(None), Arrives(reply), ReadReady] + tail, [], [], true)
    ensures NextRequest(s).Some? && NextRequest(s).value.0 == request
    ensures var env := NextRequest(s).value.1.Env();
            AwaitedWrite(env).0 == Ended(None) && Prompt(AwaitedWrite(env).1, reply)
  {
    hide Upcoming;
    var t3 := [Arrives(reply)] + ([ReadReady] + tail);
    var t1 := [Receive] + ([WriteDone(None)] + t3);
    assert s.Env().script == [Submit(Perform(request))] + t1;
    EventFirst(Submit(Perform(request)), t1, [], [], true);
    assert [] + [Perform(request)] == [Perform(request)];
    EventFirst(Receive, [WriteDone(None)] + t3, [], [Perform(request)], true);
    assert [Perform(request)][1..] == [];
    EventFirst(WriteDone(None), t3, [], [], true);
    EventFirst(Arrives(reply), [ReadReady] + tail, [], [], true);
    assert [] + [Data(reply)] == [Data(reply)];
    EventFirst(ReadReady, tail, [Data(reply)], [], true);
    assert DataOf([Data(reply)]) == reply by { assert [Data(reply)][1..] == [] && reply + [] == reply; }
  }

  /** One request of such a session: its transaction, and the state after it. */
  lemma OneInTurn<S>(format: FormatType, auth: Authorization, h: Handler<S>, devices: Devices<S>, s: Inside, reply: seq<u8>)
    returns (t: Transaction)
    requires AtRest(format, s.reader) && NextRequest(s).Some?
    requires var (request, s1) := NextRequest(s).value;
             && RepliedWith(format, auth, h, devices, Travelling(request, |s1.transactions| % 0x1_0000), reply)
             && AwaitedWrite(s1.Env()).0 == Ended(None) && Prompt(AwaitedWrite(s1.Env()).1, reply)
    ensures var (request, s1) := NextRequest(s).value;
            Polled(format, s) == Performed(format, s1, request) && t.request == request && t.txId == |s1.transactions| % 0x1_0000
    ensures devices.Valid() && t.request.unit in devices.units
    ensures Formattable(format, HeaderOf(FrameOf(format, Travelling(t.request, t.txId))))
    ensures HandledFrame(format, auth, h, devices, FrameOf(format, Travelling(t.request, t.txId))).0 ==
            CallOn(h, devices, Travelling(t.request, t.txId)).0
    ensures t.Result() == CallResult(h, devices, Travelling(t.request, t.txId))
    ensures var (end, s') := Polled(format, s);
            && end == Ended(None) && AtRest(format, s'.reader)
            && s'.transactions == s.transactions + [t]
            && s'.outside.fired == s.outside.fired + [Completion(t.request.id, t.Result())]
  {
    hide NextRequest, Executed, HandledResponse, CallOn, Prompt, AwaitedWrite, HandledFrame, FrameOf, Served, Polled, FormattedRequest;
    var (request, s1) := NextRequest(s).value;
    NextRequestIsPolled(format, s);
    var id := |s1.transactions| % 0x1_0000;
    CallIsHandled(format, auth, h, devices, Travelling(request, id));
    ReplyCompletes(format, auth, h, devices, request, id, reply, s1.Env(), s1.reader);
    var a := Executed(format, request, id, s1.Env(), s1.reader);
    t := Transaction(request, id, a.skipped, a.cause);
    if t.Result().Err? {
      ResponseErrors(request.details, a.cause.frame.payload);
    }
  }

  /**
   A session in which every reply is prompt: the loop completes the promises, in order, with the outcomes of the
   direct calls, each on the handlers that the others left, and goes on with its reader at rest.
   */
  lemma {:induction false} PromisesAreDirectCalls<S>(format: FormatType, auth: Authorization, h: Handler<S>,
                                                     devices: Devices<S>, s: Inside, replies: seq<seq<u8>>)
    returns (ts: seq<Transaction>)
    requires devices.Valid() && AtRest(format, s.reader) && InTurn(format, auth, h, devices, s, replies)
    ensures |ts| == |replies|
    ensures var s' := AfterPolls(format, s, |replies|);
            && s'.transactions == s.transactions + ts && s'.outside.fired == s.outside.fired + Completed(ts)
            && AtRest(format, s'.reader) && Ran(format, s) == Ran(format, s')
    ensures AllMapped(devices, AllTravelling(ts))
    ensures Results(ts) == DirectCalls(h, devices, AllTravelling(ts)).1
    decreases |replies|
  {
    hide NextRequest, Performed, Polled, Prompt, AwaitedWrite, HandledFrame, FrameOf, Served, Transaction.Result, CallOn;
    hide DirectCalls, Ran, AfterPolls, Results, Completed, AllTravelling, AllMapped, RepliedWith;
    if replies == [] {
      ts := [];
      NoneCompleted(format, h, devices, s);
    } else {
      var t := OneInTurn(format, auth, h, devices, s, replies[0]);
      var d, s2 := CallOn(h, devices, Travelling(t.request, t.txId)).0, Polled(format, s).1;
      var rest := PromisesAreDirectCalls(format, auth, h, d, s2, replies[1..]);
      ts := [t] + rest;
      OneMoreCompleted(format, h, devices, s, t, rest, |replies| - 1);
    }
  }

  lemma NoneCompleted<S>(format: FormatType, h: Handler<S>, devices: Devices<S>, s: Inside)
    requires devices.Valid() && s.reader.Valid()
    ensures AfterPolls(format, s, 0) == s
    ensures AllMapped(devices, AllTravelling([])) && DirectCalls(h, devices, AllTravelling([])).1 == [] && Results([]) == []
    ensures s.transactions + [] == s.transactions && s.outside.fired + Completed([]) == s.outside.fired
  {}

  /** The first transaction of a session, and what its others complete. */
  lemma OneMoreCompleted<S>(format: FormatType, h: Handler<S>, devices: Devices<S>, s: Inside, t: Transaction,
                            rest: seq<Transaction>, n: nat)
    requires devices.Valid() && t.request.unit in devices.units && s.reader.Valid()
    requires Polled(format, s).0 == Ended(None)
    requires var s2 := Polled(format, s).1;
             s2.transactions == s.transactions + [t] &&
             s2.outside.fired == s.outside.fired + [Completion(t.request.id, t.Result())]
    requires t.Result() == CallResult(h, devices, Travelling(t.request, t.txId))
    requires var d := CallOn(h, devices, Travelling(t.request, t.txId)).0;
             AllMapped(d, AllTravelling(rest)) && Results(rest) == DirectCalls(h, d, AllTravelling(rest)).1
    ensures var ts, s2 := [t] + rest, Polled(format, s).1;
            && AfterPolls(format, s, n + 1) == AfterPolls(format, s2, n) && Ran(format, s) == Ran(format, s2)
            && s2.transactions + rest == s.transactions + ts
            && s2.outside.fired + Completed(rest) == s.outside.fired + Completed(ts)
            && AllMapped(devices, AllTravelling(ts)) && Results(ts) == DirectCalls(h, devices, AllTravelling(ts)).1
  {
    hide Polled, Transaction.Result, CallOn, AfterPolls, Ran, Completed, Results, AllTravelling, DirectCalls, AllMapped;
    OnePoll(format, s, n);
    OneMoreCall(h, devices, t, rest);
    var c := Completion(t.request.id, t.Result());
    assert Completed([t] + rest) == [c] + Completed(rest) by { OneMore(t, rest); }
    assert (s.transactions + [t]) + rest == s.transactions + ([t] + rest);
    assert (s.outside.fired + [c]) + Completed(rest) == s.outside.fired + ([c] + Completed(rest));
  }

  lemma OnePoll(format: FormatType, s: Inside, n: nat)
    requires s.reader.Valid() && Polled(format, s).0 == Ended(None)
    ensures AfterPolls(format, s, n + 1) == AfterPolls(format, Polled(format, s).1, n)
    ensures Ran(format, s) == Ran(format, Polled(format, s).1)
  {
    hide Polled;
  }

  lemma OneMore(t: Transaction, rest: seq<Transaction>)
    ensures Completed([t] + rest) == [Completion(t.request.id, t.Result())] + Completed(rest)
    ensures Results([t] + rest) == [t.Result()] + Results(rest)
    ensures AllTravelling([t] + rest) == [Travelling(t.request, t.txId)] + AllTravelling(rest)
  {
    hide Transaction.Result;
    assert ([t] + rest)[1..] == rest;
  }

  lemma OneMoreCall<S>(h: Handler<S>, devices: Devices<S>, t: Transaction, rest: seq<Transaction>)
    requires devices.Valid() && t.request.unit in devices.units
    requires t.Result() == CallResult(h, devices, Travelling(t.request, t.txId))
    requires var d := CallOn(h, devices, Travelling(t.request, t.txId)).0;
             AllMapped(d, AllTravelling(rest)) && Results(rest) == DirectCalls(h, d, AllTravelling(rest)).1
    ensures AllMapped(devices, AllTravelling([t] + rest))
    ensures Results([t] + rest) == DirectCalls(h, devices, AllTravelling([t] + rest)).1
  {
    hide Transaction.Result, CallOn, Results, AllTravelling;
    OneMore(t, rest);
    var sents := AllTravelling([t] + rest);
    assert sents[0] == Travelling(t.request, t.txId) && sents[1..] == AllTravelling(rest);
  }

  // ----- replies that are late, lost, repeated or out of order, over TCP -----

  /** The server's reply to the n-th transaction, carried out on the handlers `devices`. */
  datatype Sending<S> = Sending(n: nat, devices: Devices<S>, bytes: seq<u8>)

  ghost predicate FromServer<S>(auth: Authorization, h: Handler<S>, ts: seq<Transaction>, sendings: seq<Sending<S>>) {
    forall i | 0 <= i < |sendings| ::
      sendings[i].n < |ts| && RepliedWith(TcpFormat, auth, h, sendings[i].devices, Travelling(ts[sendings[i].n].request, ts[sendings[i].n].txId),
                  sendings[i].bytes)
  }

  function AllBytesOf<S>(sendings: seq<Sending<S>>): seq<seq<u8>> {
    seq(|sendings|, i requires 0 <= i < |sendings| => sendings[i].bytes)
  }

  /** The frames of the replies: each carries the id of its own request and decodes to its outcome. */
  lemma FramesOf<S>(auth: Authorization, h: Handler<S>, ts: seq<Transaction>, sendings: seq<Sending<S>>)
    returns (frames: seq<Frame>)
    requires FromServer(auth, h, ts, sendings)
    ensures |frames| == |sendings|
    ensures forall i | 0 <= i < |frames| ::
              && sendings[i].n < |ts|
              && Own(TcpFormat, ts[sendings[i].n].txId, frames[i])
              && RepliedWith(TcpFormat, auth, h, sendings[i].devices, Travelling(ts[sendings[i].n].request, ts[sendings[i].n].txId),
                  sendings[i].bytes)
              && HandledResponse(ts[sendings[i].n].request.details, frames[i].payload) ==
                 CallResult(h, sendings[i].devices, Travelling(ts[sendings[i].n].request, ts[sendings[i].n].txId))
    ensures ParseAll(Tcp(Begin), Concat(AllBytesOf(sendings))) == Stream(Gots(frames), Tcp(Begin), [])
  {
    hide ParseAll, ParseOne, HandledResponse, CallOn, Served, HandledFrame, FrameOf, Own;
    frames := [];
    for k := 0 to |sendings|
      invariant |frames| == k
      invariant forall i | 0 <= i < k ::
                  && Carries(Tcp(Begin), sendings[i].bytes, frames[i])
                  && Own(TcpFormat, ts[sendings[i].n].txId, frames[i])
                  && HandledResponse(ts[sendings[i].n].request.details, frames[i].payload) ==
                     CallResult(h, sendings[i].devices, Travelling(ts[sendings[i].n].request, ts[sendings[i].n].txId))
    {
      var frame := ReplyFrame(TcpFormat, auth, h, sendings[k].devices, 
                              Travelling(ts[sendings[k].n].request, ts[sendings[k].n].txId), sendings[k].bytes);
      frames := frames + [frame];
    }
    FramesInARow(Tcp(Begin), AllBytesOf(sendings), frames);
  }

  /**
   Over TCP, whatever subset of the server's replies a connection delivers, late, repeated or in any order,
   cut anyhow and broken off anywhere: a transaction that is completed by a frame is completed by the reply
   to a request that is a multiple of 65536 transactions away, and so by the reply to its own, with the
   outcome of that call, if none that old is delivered.
   */
  lemma AnsweredByOwnReply<S>(auth: Authorization, h: Handler<S>, ts: seq<Transaction>, sendings: seq<Sending<S>>,
                              delivered: seq<u8>, heard: seq<Outcome>, r: Reader, r': Reader, n: nat) returns (i: nat)
    requires Matched(TcpFormat, ts) && FromServer(auth, h, ts, sendings)
    requires delivered <= Concat(AllBytesOf(sendings))
    requires AtRest(TcpFormat, r) && Heard(r, delivered, heard, r')
    requires n < |ts| && ts[n].cause.AnsweredBy? && IsPart(ts[n].Heard(), heard)
    ensures i < |sendings| && (sendings[i].n - n) % 0x1_0000 == 0
    ensures -0x1_0000 < sendings[i].n - n < 0x1_0000 ==>
              && sendings[i].n == n
              && RepliedWith(TcpFormat, auth, h, sendings[i].devices, Travelling(ts[n].request, ts[n].txId), sendings[i].bytes)
              && ts[n].Result() == CallResult(h, sendings[i].devices, Travelling(ts[n].request, ts[n].txId))
  {
    hide ParseAll, ParseOne, HandledResponse, CallOn, RepliedWith, RequestBytes, Gots, IsPart, FromServer;
    var all := Concat(AllBytesOf(sendings));
    var frames := FramesOf(auth, h, ts, sendings);
    assert delivered == all[..|delivered|] && r.window + delivered == delivered;
    PrefixOfStream(Tcp(Begin), all, |delivered|);
    assert heard <= Gots(frames);
    var j := LastHeard(ts[n], heard);
    GotsLength(frames);
    assert Gots(frames)[j] == heard[j];
    i := j;
    assert Own(TcpFormat, ts[n].txId, frames[i]);
    LateEcho(ts, sendings[i].n, n);
  }

  lemma LastHeard(t: Transaction, heard: seq<Outcome>) returns (j: nat)
    requires t.cause.AnsweredBy? && IsPart(t.Heard(), heard)
    ensures j < |heard| && heard[j] == Got(t.cause.frame)
  {
    var pre, post :| heard == pre + t.Heard() + post;
    j := |pre| + |t.skipped|;
    GotsLength(t.skipped);
  }

  lemma {:induction false} GotsLength(frames: seq<Frame>)
    ensures |Gots(frames)| == |frames|
    ensures forall i | 0 <= i < |frames| :: Gots(frames)[i] == Got(frames[i])
  {
    if frames != [] {
      GotsLength(frames[1..]);
    }
  }
}
