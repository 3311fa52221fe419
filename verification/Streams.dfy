/**
 Streams of requests and replies: RTU frames delimit themselves, and what a pipelining client does
 to the receive buffer.
 */
module Streams {
  import opened Types
  import opened Framing
  import opened RoundTrip
  import opened FrameWriters
  import opened ServerRequests
  import opened ServerSessions
  import opened ClientRequests
  import opened EndToEnd
  import opened Reading
  import Crc

  datatype Sent = Sent(unit: u8, txId: u16, details: RequestDetails)

  /** `bytes` are the requests as `format_request` writes them, and each of them can be sent. */
  ghost predicate AllFormatted(format: FormatType, requests: seq<Sent>, bytes: seq<seq<u8>>) {
    && |bytes| == |requests|
    && forall i | 0 <= i < |requests| ::
         && Sendable(format, requests[i].unit, requests[i].txId, requests[i].details)
         && FormattedRequest(format, requests[i].unit, requests[i].txId, requests[i].details) == Ok(bytes[i])
  }

  /** Any list of requests that can be sent, written one after the other, is read back as that list. */
  lemma RequestStream(format: FormatType, requests: seq<Sent>, bytes: seq<seq<u8>>)
    requires AllFormatted(format, requests, bytes)
    ensures ServerParser(format).Valid()
    ensures ParseAll(ServerParser(format), Concat(bytes)) ==
            Stream(Gots(Frames(format, requests)), ServerParser(format), [])
  {
    hide ParseAll, ParseOne, FormattedRequest, EncodedFrame, DecodedFrame, PduOf, Delimited;
    FramesAt(format, requests);
    var frames := Frames(format, requests);
    forall i | 0 <= i < |requests|
      ensures Carries(ServerParser(format), bytes[i], frames[i])
    {
      var r := requests[i];
      FormattedRequestIs(format, r.unit, r.txId, r.details);
      RequestDelimited(r.details);
      FrameCrosses(format, Framing.Request, r.txId, r.unit, PduOf(r.details));
    }
    FramesInARow(ServerParser(format), bytes, frames);
  }

  lemma {:induction false} FramesAt(format: FormatType, requests: seq<Sent>)
    ensures |Frames(format, requests)| == |requests|
    ensures forall i | 0 <= i < |requests| :: Frames(format, requests)[i] == FrameOf(format, requests[i])
    decreases |requests|
  {
    if requests != [] {
      FramesAt(format, requests[1..]);
    }
  }

  /** The replies of an RTU server, exceptions included, delimit themselves in the same way. */
  lemma ReplyStream<S>(auth: Authorization, h: Handler<S>, devices: seq<Devices<S>>, requests: seq<Frame>,
                       bytes: seq<seq<u8>>) returns (frames: seq<Frame>)
    requires |devices| == |requests| == |bytes|
    requires forall i | 0 <= i < |requests| ::
               devices[i].Valid() && HandledFrame(RtuFormat, auth, h, devices[i], requests[i]).1 == Reply(bytes[i])
    ensures |frames| == |requests|
    ensures forall i | 0 <= i < |frames| ::
              && frames[i].destination == DestinationOf(requests[i].destination.Value())
              && bytes[i] == RtuFrame(requests[i].destination.Value(), frames[i].payload)
    ensures ParseAll(Rtu(Framing.Response, Start), Concat(bytes)) ==
            Stream(Gots(frames), Rtu(Framing.Response, Start), [])
    decreases |requests|
  {
    hide ParseAll, ParseOne, HandledFrame, RtuFrame, Delimited;
    var p := Rtu(Framing.Response, Start);
    frames := [];
    for i := 0 to |requests|
      invariant |frames| == i
      invariant forall k | 0 <= k < i ::
                  && frames[k].destination == DestinationOf(requests[k].destination.Value())
                  && bytes[k] == RtuFrame(requests[k].destination.Value(), frames[k].payload)
                  && Carries(p, bytes[k], frames[k])
    {
      ReplyMatchesRequest(RtuFormat, auth, h, devices[i], requests[i]);
      var pdu: seq<u8> :| bytes[i] == Enclosed(RtuFormat, requests[i], pdu) &&
                          2 <= |pdu| <= MAX_ADU_LENGTH && Delimited(Framing.Response, pdu);
      var d := requests[i].destination.Value();
      RtuRoundTripIff(Framing.Response, d, pdu);
      frames := frames + [Frame(DestinationOf(d), None, pdu)];
    }
    FramesInARow(p, bytes, frames);
  }

  // ----- a whole server session -----

  /** `run`: each frame is handled in turn; a frame error ends the session. */
  function Session<S>(format: FormatType, auth: Authorization, h: Handler<S>, devices: Devices<S>, outputs: seq<Outcome>)
    : (r: (Devices<S>, seq<seq<u8>>))
    requires devices.Valid()
    ensures r.0.Valid()
    decreases |outputs|
  {
    if outputs == [] || !outputs[0].Got? || !Formattable(format, HeaderOf(outputs[0].frame)) then (devices, [])
    else
      var (d, answer) := HandledFrame(format, auth, h, devices, outputs[0].frame);
      HandledKeepsValid(format, auth, h, devices, outputs[0].frame);
      var (d', replies) := Session(format, auth, h, d, outputs[1..]);
      (d', (if answer.Reply? then [answer.bytes] else []) + replies)
  }

  lemma HandledKeepsValid<S>(format: FormatType, auth: Authorization, h: Handler<S>, devices: Devices<S>, frame: Frame)
    requires devices.Valid() && Formattable(format, HeaderOf(frame))
    ensures var d := HandledFrame(format, auth, h, devices, frame).0; d.Valid() && d.units == devices.units
  {
    hide ParseRequest, GetReply, ErrorReply;
  }

  predicate AllMapped<S>(devices: Devices<S>, requests: seq<Sent>) {
    forall i | 0 <= i < |requests| :: requests[i].unit in devices.units
  }

  /** Requests carried out one after the other on the handlers, without any network. */
  function DirectCalls<S>(h: Handler<S>, devices: Devices<S>, requests: seq<Sent>): (Devices<S>, seq<RequestResult>)
    requires devices.Valid() && AllMapped(devices, requests)
    decreases |requests|
  {
    if requests == [] then (devices, [])
    else
      var (d, outcome) := CallOn(h, devices, requests[0]);
      var (d', outcomes) := DirectCalls(h, d, requests[1..]);
      (d', [outcome] + outcomes)
  }

  function CallOn<S>(h: Handler<S>, devices: Devices<S>, r: Sent): (x: (Devices<S>, RequestResult))
    requires devices.Valid() && r.unit in devices.units
    ensures x.0.Valid() && x.0.units == devices.units
  {
    var ref := devices.units[r.unit];
    var (state, outcome) := DirectCall(h, devices.store[ref], r.details);
    (devices.(store := devices.store[ref := state]), outcome)
  }

  /** A request that will be carried out and answered. */
  ghost predicate Served(format: FormatType, auth: Authorization, r: Sent) {
    && Sendable(format, r.unit, r.txId, r.details) && (format.RtuFormat? ==> r.unit != 0)
    && auth.Allows(r.unit, ServerView(r.details))
  }

  ghost predicate AllServed(format: FormatType, auth: Authorization, requests: seq<Sent>) {
    forall i | 0 <= i < |requests| :: Served(format, auth, requests[i])
  }

  function Frames(format: FormatType, requests: seq<Sent>): seq<Frame> {
    if requests == [] then [] else [FrameOf(format, requests[0])] + Frames(format, requests[1..])
  }

  function FrameOf(format: FormatType, r: Sent): Frame { DecodedFrame(format, r.txId, r.unit, PduOf(r.details)) }

  /** Reply by reply, what the client that sent the request decodes is the outcome. */
  ghost predicate AllDecode(format: FormatType, requests: seq<Sent>, replies: seq<seq<u8>>, outcomes: seq<RequestResult>)
    decreases |requests|
  {
    if requests == [] then replies == [] && outcomes == []
    else
      && replies != [] && outcomes != []
      && Decoded(format, requests[0].txId, requests[0].details, replies[0]) == Some(outcomes[0])
      && AllDecode(format, requests[1..], replies[1..], outcomes[1..])
  }

  lemma CallIsHandled<S>(format: FormatType, auth: Authorization, h: Handler<S>, devices: Devices<S>, r: Sent)
    requires devices.Valid() && r.unit in devices.units && Served(format, auth, r)
    ensures Formattable(format, HeaderOf(FrameOf(format, r)))
    ensures var (d, answer) := HandledFrame(format, auth, h, devices, FrameOf(format, r));
            && d == CallOn(h, devices, r).0 && answer.Reply?
            && Decoded(format, r.txId, r.details, answer.bytes) == Some(CallOn(h, devices, r).1)
  {
    hide HandledFrame, DirectCall, Decoded, ServerView, PduOf, Sendable;
    HandledIsDirectCall(format, r.unit, r.txId, auth, h, devices, r.details);
  }

  /** The replies of a session that receives a list of requests are those of the direct calls. */
  lemma {:induction false} SessionIsDirectCalls<S>(format: FormatType, auth: Authorization, h: Handler<S>,
                                                   devices: Devices<S>, requests: seq<Sent>)
    requires devices.Valid() && AllMapped(devices, requests) && AllServed(format, auth, requests)
    ensures var (d, replies) := Session(format, auth, h, devices, Gots(Frames(format, requests)));
            d == DirectCalls(h, devices, requests).0 &&
            AllDecode(format, requests, replies, DirectCalls(h, devices, requests).1)
    decreases |requests|
  {
    hide HandledFrame, CallOn, Decoded, FrameOf, Served, Session, AllDecode, Gots, Frames, DirectCalls;
    if requests == [] {
      NoRequests(format, auth, h, devices);
    } else {
      var r, rest := requests[0], requests[1..];
      var frame := FrameOf(format, r);
      CallIsHandled(format, auth, h, devices, r);
      var d := CallOn(h, devices, r).0;
      SessionIsDirectCalls(format, auth, h, d, rest);
      FirstRequest(format, h, devices, requests);
      SessionUnfold(format, auth, h, devices, frame, Gots(Frames(format, rest)));
      DecodeOneMore(format, requests, HandledFrame(format, auth, h, devices, frame).1.bytes,
                    Session(format, auth, h, d, Gots(Frames(format, rest))).1, CallOn(h, devices, r).1,
                    DirectCalls(h, d, rest).1);
    }
  }

  lemma NoRequests<S>(format: FormatType, auth: Authorization, h: Handler<S>, devices: Devices<S>)
    requires devices.Valid()
    ensures Session(format, auth, h, devices, Gots(Frames(format, []))) == (devices, [])
    ensures DirectCalls(h, devices, []) == (devices, []) && AllDecode(format, [], [], [])
  {
    hide HandledFrame;
  }

  lemma FirstRequest<S>(format: FormatType, h: Handler<S>, devices: Devices<S>, requests: seq<Sent>)
    requires devices.Valid() && requests != [] && AllMapped(devices, requests)
    ensures Gots(Frames(format, requests)) == [Got(FrameOf(format, requests[0]))] + Gots(Frames(format, requests[1..]))
    ensures var (d, outcome) := CallOn(h, devices, requests[0]);
            && AllMapped(d, requests[1..])
            && DirectCalls(h, devices, requests) ==
               (DirectCalls(h, d, requests[1..]).0, [outcome] + DirectCalls(h, d, requests[1..]).1)
  {
    hide CallOn, FrameOf;
  }

  lemma DecodeOneMore(format: FormatType, requests: seq<Sent>, reply: seq<u8>, replies: seq<seq<u8>>,
                      outcome: RequestResult, outcomes: seq<RequestResult>)
    requires requests != [] && AllDecode(format, requests[1..], replies, outcomes)
    requires Decoded(format, requests[0].txId, requests[0].details, reply) == Some(outcome)
    ensures AllDecode(format, requests, [reply] + replies, [outcome] + outcomes)
  {
    hide Decoded;
    assert ([reply] + replies)[1..] == replies && ([outcome] + outcomes)[1..] == outcomes;
  }

  lemma SessionUnfold<S>(format: FormatType, auth: Authorization, h: Handler<S>, devices: Devices<S>, frame: Frame,
                         outputs: seq<Outcome>)
    requires devices.Valid() && Formattable(format, HeaderOf(frame))
    ensures var (d, answer) := HandledFrame(format, auth, h, devices, frame);
            && d.Valid()
            && Session(format, auth, h, devices, [Got(frame)] + outputs) ==
               (Session(format, auth, h, d, outputs).0,
                (if answer.Reply? then [answer.bytes] else []) + Session(format, auth, h, d, outputs).1)
  {
    hide HandledFrame;
    HandledKeepsValid(format, auth, h, devices, frame);
    assert ([Got(frame)] + outputs)[1..] == outputs;
  }

  lemma {:induction false} FirstFrames(format: FormatType, requests: seq<Sent>, m: nat)
    requires m <= |requests|
    ensures |Gots(Frames(format, requests))| == |requests|
    ensures Gots(Frames(format, requests))[..m] == Gots(Frames(format, requests[..m]))
    decreases |requests|
  {
    hide FrameOf;
    if requests != [] {
      FirstFrames(format, requests[1..], if m == 0 then 0 else m - 1);
      if m > 0 {
        assert requests[..m][1..] == requests[1..][..m - 1];
      }
    }
  }

  /** A parser that has something and returns nothing is left waiting inside a frame. */
  lemma NothingMissing(p: Parser, buf: seq<u8>)
    requires p.Valid() && ParseAll(p, buf) == Stream([], p.Reset(), [])
    ensures buf == []
  {
    hide Crc.Checksum;
  }

  // ----- a reader that outlives its connection -----

  /** The beginning of a longest frame: 255 bytes that a fresh parser takes without a result. */
  function Filler(p: Parser): seq<u8> {
    match p
    case Tcp(_) => [0, 0, 0, 0, 0, 254, 0] + Zeros(248)
    case Rtu(Request, _) => [0, 15, 0, 0, 0, 0, 247] + Zeros(248)
    case Rtu(Response, _) => [0, 1, 251] + Zeros(252)
  }

  function Zeros(n: nat): seq<u8> { seq(n, _ => 0) }

  lemma FillerBytes(p: Parser)
    ensures var f := Filler(p);
            && |f| == 255 && f[0] == 0
            && match p
               case Tcp(_) => f[1] == 0 && f[2] == 0 && f[3] == 0 && f[4] == 0 && f[5] == 254
               case Rtu(Request, _) => f[1] == 15 && f[6] == 247
               case Rtu(Response, _) => f[1] == 1 && f[2] == 251
  {
    assert |Zeros(248)| == 248 && |Zeros(252)| == 252;
  }

  lemma FreshTakesFiller(p: Parser)
    ensures p.Reset().Valid() && ParseAll(p.Reset(), Filler(p)).outputs == []
  {
    FreshWaitsOnFiller(p);
    hide ParseOne, Filler;
    ResetIsValid(p);
    ParseAllSettled(p.Reset(), Filler(p), []);
  }

  lemma FreshWaitsOnFiller(p: Parser)
    ensures ParseOne(p.Reset(), Filler(p)).outcome.More?
  {
    hide Filler, Crc.Checksum;
    FillerBytes(p);
  }

  /** A parser that waits for the rest of something reaches a result on the way. */
  lemma FillerDecides(p: Parser, w: seq<u8>)
    requires p.Valid() && ParseOne(p, w) == Parsed(p, w, More) && !(p == p.Reset() && w == [])
    ensures !ParseOne(p, w + Filler(p)).outcome.More?
  {
    hide Filler, Crc.Checksum;
    FillerBytes(p);
    match p
    case Tcp(Header(_, _, _, _)) =>
    case Tcp(Begin) => HeadThenFiller(w, Filler(p));
    case Rtu(_, Start) => assert (w + Filler(p))[1] == Filler(p)[0];
    case Rtu(_, ReadFullBody(_, _)) =>
    case Rtu(_, ReadToOffsetForLength(_, _)) =>
  }

  lemma HeadThenFiller(w: seq<u8>, f: seq<u8>)
    requires 0 < |w| < MBAP_HEADER_LENGTH && |f| == 255
    requires f[0] == 0 && f[1] == 0 && f[2] == 0 && f[3] == 0 && f[4] == 0
    ensures !MbapParse(Begin, w + f).outcome.More?
  {
    var b := w + f;
    assert forall i | |w| <= i < 6 :: b[i] == f[i - |w|] == 0;
    var h := MbapHeaderOf(b);
    if h.Ok? {
      assert |w| == 6 ==> h.value.aduLength <= 253;
      assert |w| == 5 ==> b[5] == 0;
    }
  }

  /** What is left when a reader has returned all that it can. */
  lemma AfterAll(r: Reader, bytes: seq<u8>)
    requires r.Valid()
    ensures var s := ParseAll(r.parser, r.window);
            && s.state.Valid() && s.state.Reset() == r.parser.Reset()
            && ParseOne(s.state, s.rest) == Parsed(s.state, s.rest, More)
            && ParseAll(r.parser, r.window + bytes).outputs == s.outputs + ParseAll(s.state, s.rest + bytes).outputs
  {
    hide ParseAll, ParseOne;
    ParseAllResumes(r.parser, r.window, bytes);
    ParseAllKind(r.parser, r.window);
    ParseAllWaits(r.parser, r.window);
  }

  lemma {:induction false} ParseAllWaits(p: Parser, buf: seq<u8>)
    requires p.Valid()
    ensures var s := ParseAll(p, buf); ParseOne(s.state, s.rest) == Parsed(s.state, s.rest, More)
    decreases Work(p, buf)
  {
    hide ParseOne;
    ParseOneProgress(p, buf);
    var r := ParseOne(p, buf);
    if r.outcome.More? {
      ParseOneStable(p, buf, []);
      assert buf + [] == buf && r.rest + [] == r.rest;
    } else {
      ParseAllWaits(r.state, r.rest);
    }
  }

  /**
   A reader that outlives its connection: on every next connection a caller gets the frames and errors that
   a fresh reader would return, if and only if the last one left nothing behind, neither bytes nor the
   head of a frame.
   */
  lemma ReadsAsFreshIff(r: Reader)
    requires r.Valid()
    ensures r.parser.Reset().Valid()
    ensures (forall bytes :: ParseAll(r.parser, r.window + bytes).outputs == ParseAll(r.parser.Reset(), bytes).outputs) <==>
            (r.parser == r.parser.Reset() && r.window == [])
  {
    hide ParseAll, ParseOne, Filler;
    FreshTakesFiller(r.parser);
    FreshWaits(r.parser);
    if r.window == [] {
      forall bytes
        ensures r.window + bytes == bytes
      {}
    }
    if !(r.parser == r.parser.Reset() && r.window == []) {
      LeftoverShows(r);
    }
  }

  /** Something left behind shows at once, or by the end of 255 bytes. */
  lemma LeftoverShows(r: Reader)
    requires r.Valid() && !(r.parser == r.parser.Reset() && r.window == [])
    ensures r.parser.Reset().Valid()
    ensures exists bytes :: ParseAll(r.parser, r.window + bytes).outputs != ParseAll(r.parser.Reset(), bytes).outputs
  {
    hide ParseAll, ParseOne, Filler;
    FreshTakesFiller(r.parser);
    FreshWaits(r.parser);
    var s, f := ParseAll(r.parser, r.window), Filler(r.parser);
    AfterAll(r, []);
    AfterAll(r, f);
    if s.outputs != [] {
      assert s.outputs + ParseAll(s.state, s.rest + []).outputs != [];
      assert ParseAll(r.parser, r.window + []).outputs != ParseAll(r.parser.Reset(), []).outputs;
    } else {
      if s.state == r.parser.Reset() && s.rest == [] {
        NothingMissing(r.parser, r.window);
        WaitingState(r.parser);
      }
      SameFiller(s.state, r.parser);
      FillerDecides(s.state, s.rest);
      ParseAllDecided(s.state, s.rest + f, []);
      assert (s.rest + f) + [] == s.rest + f;
      assert ParseAll(r.parser, r.window + f).outputs != ParseAll(r.parser.Reset(), f).outputs;
    }
  }

  lemma SameFiller(p: Parser, q: Parser)
    requires p.Reset() == q.Reset()
    ensures Filler(p) == Filler(q)
  {}

  /**
   An input that shows it: a connection that brings one byte and fails. The reader keeps the byte, and the
   first reply on the next connection is taken for a frame of an unknown protocol.
   */
  lemma StaleByteSpoilsReply(kind: IoErrorKind, unit: u8, pdu: seq<u8>)
    requires |pdu| <= MAX_ADU_LENGTH
    ensures Fresh(Tcp(Begin)).Valid()
    ensures var r := RunReader(Fresh(Tcp(Begin)), [Data([0]), Fail(kind)]).reader;
            && r.Valid() && r == Reader(Tcp(Begin), [0], 0)
            && var outputs := ParseAll(r.parser, r.window + MbapFrame(1, unit, pdu)).outputs;
               outputs != [] && outputs[0] == Bad(UnknownProtocolId(256))
  {
    hide ParseOne, MbapFrame, RunReader, ParseAll;
    OneByteThenFailure(kind);
    var b := [0] + MbapFrame(1, unit, pdu);
    ShiftedHeader(unit, pdu);
    ParseAllDecided(Tcp(Begin), b, []);
    assert b + [] == b;
  }

  lemma OneByteThenFailure(kind: IoErrorKind)
    ensures Fresh(Tcp(Begin)).Valid()
    ensures RunReader(Fresh(Tcp(Begin)), [Data([0]), Fail(kind)]).reader == Reader(Tcp(Begin), [0], 0)
  {
    hide RunReader;
    var script := [Data([0]), Fail(kind)];
    var bytes: seq<u8> := [0];
    var r, r1 := Fresh(Tcp(Begin)), Reader(Tcp(Begin), bytes, 0);
    RunStep(r, script);
    assert script[0].bytes[..1] == bytes && r.Parse() == (r, More);
    assert Taken(script, 1) == [Fail(kind)] && r.Receive(bytes) == r1;
    RunStep(r1, [Fail(kind)]);
    assert r1.Parse() == (r1, More);
  }

  lemma ShiftedHeader(unit: u8, pdu: seq<u8>)
    ensures ParseOne(Tcp(Begin), [0] + MbapFrame(1, unit, pdu)).outcome == Bad(UnknownProtocolId(256))
  {
    var b := [0] + MbapFrame(1, unit, pdu);
    assert b[0] == 0 && b[1] == 0 && b[2] == 1 && b[3] == 0;
  }

  /** A parser that waits and is given nothing stays as it is. */
  lemma WaitingState(p: Parser)
    requires p.Valid()
    ensures ParseAll(p, []).outputs == [] ==> ParseAll(p, []).state == p
  {}

  /** What a prefix of a stream that ends with a frame yields: all of it only if it is all of the stream. */
  lemma PrefixOfStream(p: Parser, all: seq<u8>, n: nat)
    requires n <= |all| && p.Reset().Valid() && ParseAll(p.Reset(), all).state == p.Reset() && ParseAll(p.Reset(), all).rest == []
    ensures var part, whole := ParseAll(p.Reset(), all[..n]).outputs, ParseAll(p.Reset(), all).outputs;
            part <= whole && (part == whole <==> n == |all|)
  {
    hide ParseAll, ParseOne;
    assert all == all[..n] + all[n..];
    ParseAllResumes(p.Reset(), all[..n], all[n..]);
    ParseAllKind(p.Reset(), all[..n]);
    var s := ParseAll(p.Reset(), all[..n]);
    var t := ParseAll(s.state, s.rest + all[n..]);
    if n == |all| {
      assert all[..n] == all;
    } else if t.outputs == [] {
      NothingMissing(s.state, s.rest + all[n..]);
    }
  }

  lemma {:induction false} ParseAllKind(p: Parser, buf: seq<u8>)
    requires p.Valid()
    ensures ParseAll(p, buf).state.Valid() && ParseAll(p, buf).state.Reset() == p.Reset()
    decreases Work(p, buf)
  {
    ParseOneProgress(p, buf);
    ParseOneKind(p, buf);
    hide ParseOne;
    var r := ParseOne(p, buf);
    if !r.outcome.More? {
      ParseAllKind(r.state, r.rest);
    }
  }

  /**
   A whole session end to end, on any connection that does not fail, whatever the cut into reads and the
   cancellations. If the bytes that arrive are those of a list of requests, then the first `m` of them
   are carried out: the handlers end up as after the direct calls in that order, and the replies decode to
   their outcomes in that order. They are all carried out exactly when the buffer does not stall, and
   that depends on the stream and the reads alone.
   */
  lemma SessionEndToEnd<S>(format: FormatType, auth: Authorization, h: Handler<S>, devices: Devices<S>,
                           requests: seq<Sent>, bytes: seq<seq<u8>>, script: seq<IoEvent>) returns (m: nat)
    requires devices.Valid() && AllMapped(devices, requests) && AllServed(format, auth, requests)
    requires AllFormatted(format, requests, bytes)
    requires Healthy(script) && DataOf(script) == Concat(bytes)
    ensures Fresh(ServerParser(format)).Valid()
    ensures m <= |requests| && (m == |requests| <==> !Stalls(ServerParser(format), script))
    ensures var run := RunReader(Fresh(ServerParser(format)), script);
            var (d, replies) := Session(format, auth, h, devices, run.outputs);
            && run.stop == (if m == |requests| then Cancelled else Failed(UnexpectedEof))
            && d == DirectCalls(h, devices, requests[..m]).0
            && AllDecode(format, requests[..m], replies, DirectCalls(h, devices, requests[..m]).1)
  {
    hide ParseAll, RunReader, Reach, DirectCalls, Session, AllDecode, FrameOf, Frames, Gots, AllFormatted, Served;
    var p := ServerParser(format);
    StallsIff(p, script);
    RequestStream(format, requests, bytes);
    var run := RunReader(Fresh(p), script);
    assert p.Reset() == p;
    var all := Concat(bytes);
    assert run.delivered == all[..|run.delivered|];
    PrefixOfStream(p, all, |run.delivered|);
    assert run.outputs <= Gots(Frames(format, requests));
    m := |run.outputs|;
    FirstFrames(format, requests, 0);
    FirstFrames(format, requests, m);
    assert run.outputs == Gots(Frames(format, requests))[..m];
    SessionIsDirectCalls(format, auth, h, devices, requests[..m]);
  }

  // ----- pipelining -----

  datatype Message = Message(txId: u16, unit: u8, pdu: seq<u8>)

  function Bytes(m: Message): seq<u8> { MbapFrame(m.txId, m.unit, m.pdu) }

  function AllBytes(ms: seq<Message>): seq<u8> {
    if ms == [] then [] else Bytes(ms[0]) + AllBytes(ms[1..])
  }

  function AllFrames(ms: seq<Message>): seq<Outcome> {
    if ms == [] then [] else [Got(Frame(UnitId(ms[0].unit), Some(ms[0].txId), ms[0].pdu))] + AllFrames(ms[1..])
  }

  /** Five-byte PDUs: every read request and every single write. */
  predicate Short(ms: seq<Message>) { forall i | 0 <= i < |ms| :: |ms[i].pdu| == 5 }

  lemma {:induction false} ShortLength(ms: seq<Message>)
    requires Short(ms)
    ensures |AllBytes(ms)| == 12 * |ms|
  {
    if ms != [] {
      ShortLength(ms[1..]);
    }
  }

  /** `n` short messages and a cut inside the next one. */
  lemma {:induction false} CutShort(ms: seq<Message>, n: nat, cut: nat)
    requires Short(ms) && n < |ms| && 7 < cut < 12
    ensures 12 * n + cut <= |AllBytes(ms)|
    ensures Tcp(Begin).Valid()
    ensures var s := ParseAll(Tcp(Begin), AllBytes(ms)[..12 * n + cut]);
            s.outputs == AllFrames(ms[..n]) && s.rest != []
    decreases n
  {
    hide ParseOne, ParseAll, Bytes, MbapHeaderOf;
    ShortLength(ms);
    var m, rest := ms[0], ms[1..];
    ShortLength(rest);
    BytesLength(m);
    if n == 0 {
      CutInBody(m, cut);
      assert AllBytes(ms)[..cut] == Bytes(m)[..cut];
      assert ms[..0] == [];
    } else {
      CutShort(rest, n - 1, cut);
      var later := AllBytes(rest)[..12 * (n - 1) + cut];
      assert AllBytes(ms)[..12 * n + cut] == Bytes(m) + later;
      MessageThenRest(m, later);
      assert ms[..n][1..] == rest[..n - 1];
    }
  }

  lemma BytesLength(m: Message)
    requires |m.pdu| == 5
    ensures |Bytes(m)| == 12
  {}

  lemma MessageThenRest(m: Message, later: seq<u8>)
    requires |m.pdu| == 5
    ensures Tcp(Begin).Valid()
    ensures var s := ParseAll(Tcp(Begin), later);
            ParseAll(Tcp(Begin), Bytes(m) + later) ==
            s.(outputs := [Got(Frame(UnitId(m.unit), Some(m.txId), m.pdu))] + s.outputs)
  {
    hide ParseOne, ParseAll, MbapFrame;
    MbapRoundTrip(m.txId, m.unit, m.pdu);
    FrameThenRest(Tcp(Begin), Bytes(m), Frame(UnitId(m.unit), Some(m.txId), m.pdu), later);
  }

  lemma CutInBody(m: Message, cut: nat)
    requires |m.pdu| == 5 && 7 < cut < 12
    ensures |Bytes(m)| == 12
    ensures Tcp(Begin).Valid()
    ensures ParseAll(Tcp(Begin), Bytes(m)[..cut]).outputs == [] && ParseAll(Tcp(Begin), Bytes(m)[..cut]).rest != []
  {
    hide MbapFrame, MbapHeaderOf;
    BytesLength(m);
    MbapHeaderRoundTrip(m.txId, m.unit, m.pdu);
    HeaderOfPrefix(Bytes(m), cut);
    Waits(Bytes(m)[..cut]);
  }

  lemma HeaderOfPrefix(f: seq<u8>, cut: nat)
    requires MBAP_HEADER_LENGTH <= cut <= |f|
    ensures MbapHeaderOf(f[..cut]) == MbapHeaderOf(f)
  {}

  lemma Waits(b: seq<u8>)
    requires 7 < |b| < 12 && MbapHeaderOf(b).Ok? && MbapHeaderOf(b).value.aduLength == 5
    ensures Tcp(Begin).Valid()
    ensures ParseAll(Tcp(Begin), b).outputs == [] && ParseAll(Tcp(Begin), b).rest != []
  {
    hide MbapHeaderOf;
    assert ParseOne(Tcp(Begin), b) == Parsed(Tcp(MbapHeaderOf(b).value), b[7..], More);
  }

  /**
   A client that pipelines 22 or more short requests in one burst: the server takes the first 21, and
   then its reader reports the end of a stream that has not ended.
   */
  lemma PipelinedRequestsStall(ms: seq<Message>)
    requires Short(ms) && |ms| >= 22
    ensures Fresh(Tcp(Begin)).Valid()
    ensures var run := RunReader(Fresh(Tcp(Begin)), [Data(AllBytes(ms))]);
            run.stop == Failed(UnexpectedEof) && run.outputs == AllFrames(ms[..21])
  {
    hide ParseAll, RunReader, Reach, AllBytes, AllFrames, Short, Stalls, DataOf;
    ShortLength(ms);
    CutShort(ms, 21, 8);
    var burst := AllBytes(ms);
    assert BreaksAt(Tcp(Begin), burst, 1);
    hide BreaksAt;
    BurstStallsIff(Tcp(Begin), burst);
    StallsIff(Tcp(Begin), [Data(burst)]);
  }
}
