/**
 `FramedReader::next_frame` over an environment that delivers bytes, fails, or lets the caller
 drop the future at its await, and whole runs of it on one connection.
 */
module Reading {
  import opened Types
  import opened Framing

  /** What the peer and the scheduler do at one await of `next_frame`. */
  datatype IoEvent =
    | Data(bytes: seq<u8>)      // the socket holds these bytes; none at all means end of stream
    | Fail(kind: IoErrorKind)   // the read fails
    | Cancel                    // the future is dropped while it waits

  /** A framed reader: parser state, the unread window, and where it starts in the buffer. */
  datatype Reader = Reader(parser: Parser, window: seq<u8>, begin: nat)
  {
    predicate Valid() { parser.Valid() && End() <= MAX_FRAME_LENGTH }

    function End(): nat { begin + |window| }

    /**
     The index adjustment at the head of `read_some`. The second adjustment in the code compares
     `end` with the length of the window, not with the capacity; the two are equal only when
     `begin` is zero, and then the shift moves nothing.
     */
    function Reindexed(): Reader { if window == [] then this.(begin := 0) else this }

    /** The number of bytes that the next read can deliver. */
    function Room(): int { MAX_FRAME_LENGTH - Reindexed().End() }

    function Receive(bytes: seq<u8>): Reader { Reindexed().(window := window + bytes) }

    /** The reader after one call of the parser. */
    function Parse(): (Reader, Outcome)
      requires Valid()
    {
      ParseOneProgress(parser, window);
      var r := ParseOne(parser, window);
      (Reader(r.state, r.rest, End() - |r.rest|), r.outcome)
    }
  }

  function Fresh(p: Parser): Reader { Reader(p.Reset(), [], 0) }

  function Weight(script: seq<IoEvent>): nat {
    if script == [] then 0
    else (if script[0].Data? then |script[0].bytes| else 0) + 1 + Weight(script[1..])
  }

  /** The environment after `n` bytes of its first event have been read. */
  function Taken(script: seq<IoEvent>, n: nat): seq<IoEvent>
    requires script != [] && script[0].Data? && n <= |script[0].bytes|
  {
    if n == |script[0].bytes| then script[1..]
    else [Data(script[0].bytes[n..])] + script[1..]
  }

  lemma TakenWeight(script: seq<IoEvent>, n: nat)
    requires script != [] && script[0].Data? && 0 < n <= |script[0].bytes|
    ensures Weight(Taken(script, n)) < Weight(script)
  {
    var t := Taken(script, n);
    if n < |script[0].bytes| {
      assert t[1..] == script[1..];
    }
  }

  datatype Status = Output(outcome: Outcome) | Failed(kind: IoErrorKind) | Cancelled

  datatype Next = Next(reader: Reader, script: seq<IoEvent>, status: Status, delivered: seq<u8>)

  function Min(a: int, b: int): int { if a < b then a else b }

  /** One call of `next_frame`. */
  function NextFrame(r: Reader, script: seq<IoEvent>): Next
    requires r.Valid()
    decreases Weight(script)
  {
    ParseKeepsValid(r);
    var (r1, outcome) := r.Parse();
    if !outcome.More? then Next(r1, script, Output(outcome), [])
    else
      var r2 := r1.Reindexed();
      if script == [] then Next(r2, [], Cancelled, []) else
      match script[0]
      case Cancel => Next(r2, script[1..], Cancelled, [])
      case Fail(kind) => Next(r2, script[1..], Failed(kind), [])
      case Data(bytes) =>
        var n := Min(|bytes|, r1.Room());
        if n == 0 then Next(r2, script, Failed(UnexpectedEof), [])
        else
          TakenWeight(script, n);
          var next := NextFrame(r1.Receive(bytes[..n]), Taken(script, n));
          next.(delivered := bytes[..n] + next.delivered)
  }

  /** One round of the loop in `next_frame`. */
  lemma NextFrameStep(r: Reader, script: seq<IoEvent>)
    requires r.Valid()
    ensures r.Parse().0.Valid()
    ensures var (r1, outcome) := r.Parse();
            var next := NextFrame(r, script);
            if !outcome.More? then
              next == Next(r1, script, Output(outcome), [])
            else if script == [] then
              next == Next(r1.Reindexed(), [], Cancelled, [])
            else
              match script[0]
              case Cancel => next == Next(r1.Reindexed(), script[1..], Cancelled, [])
              case Fail(kind) => next == Next(r1.Reindexed(), script[1..], Failed(kind), [])
              case Data(bytes) =>
                var n := Min(|bytes|, r1.Room());
                if n == 0 then
                  next == Next(r1.Reindexed(), script, Failed(UnexpectedEof), [])
                else
                  && r1.Receive(bytes[..n]).Valid()
                  && var tail := NextFrame(r1.Receive(bytes[..n]), Taken(script, n));
                     next == tail.(delivered := bytes[..n] + tail.delivered)
  {
    hide ParseOne;
    ParseKeepsValid(r);
  }

  lemma ParseKeepsValid(r: Reader)
    requires r.Valid()
    ensures r.Parse().0.Valid()
    ensures !r.Parse().1.More? ==>
              Work(r.Parse().0.parser, r.Parse().0.window) < Work(r.parser, r.window)
    ensures r.Parse().0.End() == r.End()
  {
    hide ParseOne;
    ParseOneProgress(r.parser, r.window);
  }

  // ----- whole runs -----

  datatype Run = Run(
    outputs: seq<Outcome>, reader: Reader, stop: Status, delivered: seq<u8>, left: seq<IoEvent>)

  /**
   Calling `next_frame` again after every frame, every frame error and every cancellation, until the
   connection fails or the environment has nothing more to offer.
   */
  function RunReader(r: Reader, script: seq<IoEvent>): Run
    requires r.Valid()
    decreases Weight(script), Work(r.parser, r.window)
  {
    NextFrameProgress(r, script);
    var next := NextFrame(r, script);
    if next.status.Failed? || (next.status.Cancelled? && next.script == []) then
      Run([], next.reader, next.status, next.delivered, next.script)
    else
      var run := RunReader(next.reader, next.script);
      var out := if next.status.Output? then [next.status.outcome] else [];
      run.(outputs := out + run.outputs, delivered := next.delivered + run.delivered)
  }

  lemma {:induction false} NextFrameProgress(r: Reader, script: seq<IoEvent>)
    requires r.Valid()
    ensures var next := NextFrame(r, script);
            && next.reader.Valid()
            && Weight(next.script) <= Weight(script)
            && (next.status.Output? ==>
                  || Weight(next.script) < Weight(script)
                  || Work(next.reader.parser, next.reader.window) < Work(r.parser, r.window))
            && (next.status.Cancelled? && script != [] ==> Weight(next.script) < Weight(script))
            && (next.status.Cancelled? && script == [] ==> next.script == [])
    decreases Weight(script)
  {
    ParseKeepsValid(r);
    var (r1, outcome) := r.Parse();
    if outcome.More? && script != [] && script[0].Data? {
      var bytes := script[0].bytes;
      var n := Min(|bytes|, r1.Room());
      if n > 0 {
        TakenWeight(script, n);
        NextFrameProgress(r1.Receive(bytes[..n]), Taken(script, n));
      }
    }
  }

  // ----- chunking and cancellation do not matter -----

  function OutputsOf(status: Status): seq<Outcome> {
    if status.Output? then [status.outcome] else []
  }

  function Prepend(out: seq<Outcome>, s: Stream): Stream { s.(outputs := out + s.outputs) }

  lemma {:induction false} NextFrameIsParse(r: Reader, script: seq<IoEvent>, later: seq<u8>)
    requires r.Valid()
    ensures var next := NextFrame(r, script);
            && next.reader.Valid()
            && ParseAll(r.parser, r.window + next.delivered + later) ==
               Prepend(OutputsOf(next.status), ParseAll(next.reader.parser, next.reader.window + later))
    decreases Weight(script)
  {
    hide ParseOne, ParseAll;
    NextFrameProgress(r, script);
    ParseKeepsValid(r);
    var next := NextFrame(r, script);
    var (r1, outcome) := r.Parse();
    if !outcome.More? {
      assert r.window + next.delivered + later == r.window + later;
      ParseAllDecided(r.parser, r.window, later);
    } else if next.delivered == [] {
      assert r.window + next.delivered + later == r.window + later;
      ParseAllSettled(r.parser, r.window, later);
    } else {
      var n := Min(|script[0].bytes|, r1.Room());
      TakenWeight(script, n);
      NextFrameIsParse(r1.Receive(script[0].bytes[..n]), Taken(script, n), later);
      ReadThenParse(r, script[0].bytes[..n], NextFrame(r1.Receive(script[0].bytes[..n]), Taken(script, n)), later);
    }
  }

  lemma ReadThenParse(r: Reader, chunk: seq<u8>, tail: Next, later: seq<u8>)
    requires r.Valid() && r.Parse().1.More?
    ensures r.Parse().0.Valid()
    ensures ParseAll(r.parser, r.window + (chunk + tail.delivered) + later) ==
            ParseAll(r.Parse().0.parser, (r.Parse().0.window + chunk) + tail.delivered + later)
  {
    hide ParseOne, ParseAll;
    ParseKeepsValid(r);
    var bytes := chunk + tail.delivered + later;
    ParseAllSettled(r.parser, r.window, bytes);
    assert r.window + (chunk + tail.delivered) + later == r.window + bytes;
    assert (r.Parse().0.window + chunk) + tail.delivered + later == r.Parse().0.window + bytes;
  }

  lemma ParseAllDecided(p: Parser, a: seq<u8>, later: seq<u8>)
    requires p.Valid() && !ParseOne(p, a).outcome.More?
    ensures var r := ParseOne(p, a);
            && r.state.Valid()
            && ParseAll(p, a + later) == Prepend([r.outcome], ParseAll(r.state, r.rest + later))
  {
    hide ParseOne;
    ParseOneProgress(p, a);
    ParseOneStable(p, a, later);
  }

  /** The reader is waiting for bytes: its parser has nothing more to say about its window. */
  predicate Settled(r: Reader)
    requires r.Valid()
  {
    ParseOne(r.parser, r.window) == Parsed(r.parser, r.window, More)
  }

  lemma {:induction false} NextFrameSettles(r: Reader, script: seq<IoEvent>)
    requires r.Valid()
    ensures var next := NextFrame(r, script);
            && next.reader.Valid()
            && (!next.status.Output? ==> Settled(next.reader))
    decreases Weight(script)
  {
    hide ParseOne;
    NextFrameProgress(r, script);
    ParseKeepsValid(r);
    var (r1, outcome) := r.Parse();
    if outcome.More? {
      ParseOneStable(r.parser, r.window, []);
      assert r.window + [] == r.window && r1.window + [] == r1.window;
      if script != [] && script[0].Data? {
        var n := Min(|script[0].bytes|, r1.Room());
        if n > 0 {
          TakenWeight(script, n);
          NextFrameSettles(r1.Receive(script[0].bytes[..n]), Taken(script, n));
        }
      }
    }
  }

  /**
   On one connection, whatever the cut into reads and wherever `next_frame` is cancelled, the frames
   and errors are those of a one-shot parse of the bytes delivered, and so is the state left behind.
   */
  lemma {:induction false} RunIsOneShot(r: Reader, script: seq<IoEvent>)
    requires r.Valid()
    ensures var run := RunReader(r, script);
            ParseAll(r.parser, r.window + run.delivered) ==
            Stream(run.outputs, run.reader.parser, run.reader.window)
    decreases Weight(script), Work(r.parser, r.window)
  {
    hide ParseOne, NextFrame;
    NextFrameProgress(r, script);
    var next := NextFrame(r, script);
    var run := RunReader(r, script);
    if next.status.Failed? || (next.status.Cancelled? && next.script == []) {
      NextFrameIsParse(r, script, []);
      NextFrameSettles(r, script);
      assert r.window + next.delivered + [] == r.window + run.delivered;
      assert next.reader.window + [] == next.reader.window;
    } else {
      RunIsOneShot(next.reader, next.script);
      var tail := RunReader(next.reader, next.script);
      NextFrameIsParse(r, script, tail.delivered);
      assert r.window + next.delivered + tail.delivered == r.window + run.delivered;
    }
  }

  // ----- part of a run -----

  /**
   From reader `r`, `bytes` were delivered and `heard` was returned, and that has led to reader `r'`: a
   one-shot parse of everything finds what was returned and then what `r'` still holds.
   */
  ghost predicate Heard(r: Reader, bytes: seq<u8>, heard: seq<Outcome>, r': Reader) {
    && r.Valid() && r'.Valid()
    && ParseAll(r.parser, r.window + bytes) == Prepend(heard, ParseAll(r'.parser, r'.window))
  }

  lemma HeardNothing(r: Reader)
    requires r.Valid()
    ensures Heard(r, [], [], r)
  {
    hide ParseAll;
    assert r.window + [] == r.window;
    var s := ParseAll(r.parser, r.window);
    assert [] + s.outputs == s.outputs;
  }

  lemma HeardThen(r: Reader, a: seq<u8>, heard: seq<Outcome>, r1: Reader, b: seq<u8>, more: seq<Outcome>, r2: Reader)
    requires Heard(r, a, heard, r1) && Heard(r1, b, more, r2)
    ensures Heard(r, a + b, heard + more, r2)
  {
    hide ParseAll;
    ParseAllResumes(r.parser, r.window + a, b);
    ParseAllResumes(r1.parser, r1.window, b);
    assert (r.window + a) + b == r.window + (a + b);
    var s, u := ParseAll(r1.parser, r1.window), ParseAll(r2.parser, r2.window);
    var t := ParseAll(s.state, s.rest + b);
    assert (heard + s.outputs) + t.outputs == heard + (s.outputs + t.outputs);
    assert heard + (more + u.outputs) == (heard + more) + u.outputs;
  }

  lemma NextFrameHeard(r: Reader, script: seq<IoEvent>)
    requires r.Valid()
    ensures var next := NextFrame(r, script); Heard(r, next.delivered, OutputsOf(next.status), next.reader)
  {
    hide ParseAll, NextFrame;
    NextFrameIsParse(r, script, []);
    var next := NextFrame(r, script);
    assert r.window + next.delivered + [] == r.window + next.delivered;
    assert next.reader.window + [] == next.reader.window;
  }

  lemma ParseOneKind(p: Parser, buf: seq<u8>)
    ensures var r := ParseOne(p, buf);
            && r.state.Reset() == p.Reset()
            && (r.outcome.Got? ==> (r.outcome.frame.txId.Some? <==> p.Tcp?))
  {
    hide Crc.Checksum;
  }

  /** A reader keeps to its format: MBAP frames carry a transaction id, RTU frames do not. */
  lemma {:induction false} NextFrameKind(r: Reader, script: seq<IoEvent>)
    requires r.Valid()
    ensures var next := NextFrame(r, script);
            && next.reader.parser.Reset() == r.parser.Reset()
            && (next.status.Output? ==> !next.status.outcome.More?)
            && (next.status.Output? && next.status.outcome.Got? ==>
                  (next.status.outcome.frame.txId.Some? <==> r.parser.Tcp?))
    decreases Weight(script)
  {
    hide ParseOne, NextFrame, Weight, Taken;
    NextFrameStep(r, script);
    ParseOneKind(r.parser, r.window);
    var (r1, outcome) := r.Parse();
    if outcome.More? && script != [] && script[0].Data? {
      var n := Min(|script[0].bytes|, r1.Room());
      if n > 0 {
        TakenWeight(script, n);
        NextFrameKind(r1.Receive(script[0].bytes[..n]), Taken(script, n));
      }
    }
  }

  // ----- every byte is delivered, unless the buffer stalls -----

  function DataOf(script: seq<IoEvent>): seq<u8> {
    if script == [] then []
    else (if script[0].Data? then script[0].bytes else []) + DataOf(script[1..])
  }

  /** Only bytes and cancellations: the connection itself does not fail. */
  predicate Healthy(script: seq<IoEvent>) {
    forall i | 0 <= i < |script| :: script[i].Cancel? || (script[i].Data? && script[i].bytes != [])
  }

  /** The state in which `read_some` offers the socket an empty slice. */
  predicate Stalled(r: Reader) {
    r.End() == MAX_FRAME_LENGTH && 0 < r.begin && r.window != []
  }

  /** A parser never asks for more than 254 unread bytes. */
  lemma UnreadBound(p: Parser, buf: seq<u8>)
    requires p.Valid() && ParseOne(p, buf).outcome.More?
    ensures |ParseOne(p, buf).rest| <= 254
  {
    hide Crc.Checksum;
  }

  /** As written, `read_some` has no room exactly when the window touches the end but not the front. */
  lemma NoRoomIffStalled(r: Reader)
    requires r.Valid() && Settled(r)
    ensures r.Room() == 0 <==> Stalled(r)
  {
    UnreadBound(r.parser, r.window);
  }

  lemma TakenData(script: seq<IoEvent>, n: nat)
    requires script != [] && script[0].Data? && n <= |script[0].bytes|
    ensures DataOf(script) == script[0].bytes[..n] + DataOf(Taken(script, n))
  {
    var t, bytes := Taken(script, n), script[0].bytes;
    if n < |bytes| {
      assert t[0] == Data(bytes[n..]) && t[1..] == script[1..];
      assert bytes[..n] + (bytes[n..] + DataOf(script[1..])) == bytes + DataOf(script[1..]);
    }
  }

  lemma TakenHealthy(script: seq<IoEvent>, n: nat)
    requires script != [] && script[0].Data? && n <= |script[0].bytes| && Healthy(script)
    ensures Healthy(Taken(script, n))
  {
    var t := Taken(script, n);
    forall i | 0 <= i < |t|
      ensures t[i].Cancel? || (t[i].Data? && t[i].bytes != [])
    {
      if n < |script[0].bytes| && i > 0 {
        assert t[i] == script[i];
      }
    }
  }

  lemma {:induction false} NextFrameAccounts(r: Reader, script: seq<IoEvent>)
    requires r.Valid()
    ensures var next := NextFrame(r, script);
            && next.delivered + DataOf(next.script) == DataOf(script)
            && (Healthy(script) ==> Healthy(next.script))
    decreases Weight(script)
  {
    hide ParseOne, NextFrame, Weight, Taken;
    NextFrameStep(r, script);
    var (r1, outcome) := r.Parse();
    if outcome.More? && script != [] && script[0].Data? {
      var bytes := script[0].bytes;
      var n := Min(|bytes|, r1.Room());
      if n > 0 {
        TakenWeight(script, n);
        TakenData(script, n);
        if Healthy(script) {
          TakenHealthy(script, n);
        }
        NextFrameAccounts(r1.Receive(bytes[..n]), Taken(script, n));
        var next := NextFrame(r1.Receive(bytes[..n]), Taken(script, n));
        assert (bytes[..n] + next.delivered) + DataOf(next.script) == bytes[..n] + (next.delivered + DataOf(next.script));
      }
    }
  }

  lemma {:induction false} HealthyFailure(r: Reader, script: seq<IoEvent>)
    requires r.Valid() && Healthy(script) && NextFrame(r, script).status.Failed?
    ensures var next := NextFrame(r, script);
            && next.status.kind == UnexpectedEof
            && Stalled(next.reader)
            && DataOf(next.script) != []
    decreases Weight(script)
  {
    hide ParseOne, NextFrame, Weight, Taken;
    NextFrameStep(r, script);
    var (r1, outcome) := r.Parse();
    var bytes := script[0].bytes;
    var n := Min(|bytes|, r1.Room());
    if n > 0 {
      TakenWeight(script, n);
      TakenData(script, n);
      TakenHealthy(script, n);
      HealthyFailure(r1.Receive(bytes[..n]), Taken(script, n));
    } else {
      UnreadBound(r.parser, r.window);
    }
  }

  /**
   While the connection is healthy, a run ends in one of two ways: every byte was delivered and the
   result is the one-shot parse of the stream, or the buffer stalled before the rest of it.
   */
  lemma {:induction false} HealthyRun(r: Reader, script: seq<IoEvent>)
    requires r.Valid() && Healthy(script)
    ensures var run := RunReader(r, script);
            && run.delivered + DataOf(run.left) == DataOf(script)
            && (run.stop.Cancelled? ==>
                  && run.delivered == DataOf(script)
                  && ParseAll(r.parser, r.window + DataOf(script)) ==
                     Stream(run.outputs, run.reader.parser, run.reader.window))
            && (!run.stop.Cancelled? ==>
                  && run.stop == Failed(UnexpectedEof)
                  && Stalled(run.reader)
                  && DataOf(run.left) != [])
    decreases Weight(script), Work(r.parser, r.window)
  {
    hide ParseOne, NextFrame, ParseAll;
    NextFrameProgress(r, script);
    NextFrameAccounts(r, script);
    RunIsOneShot(r, script);
    var next := NextFrame(r, script);
    if next.status.Failed? {
      HealthyFailure(r, script);
    } else if !(next.status.Cancelled? && next.script == []) {
      HealthyRun(next.reader, next.script);
    }
  }

  // ----- when the buffer stalls -----

  /** A run, unfolded by one round of the loop in `next_frame`. */
  lemma RunStep(r: Reader, script: seq<IoEvent>)
    requires r.Valid()
    ensures r.Parse().0.Valid()
    ensures var (r1, outcome) := r.Parse();
            var run := RunReader(r, script);
            if !outcome.More? then
              run == Later([outcome], [], RunReader(r1, script))
            else if script == [] || script == [Cancel] then
              run == Run([], r1.Reindexed(), Cancelled, [], [])
            else
              match script[0]
              case Cancel => run == RunReader(r1.Reindexed(), script[1..])
              case Fail(kind) => run == Run([], r1.Reindexed(), Failed(kind), [], script[1..])
              case Data(bytes) =>
                var n := Min(|bytes|, r1.Room());
                if n == 0 then
                  run == Run([], r1.Reindexed(), Failed(UnexpectedEof), [], script)
                else
                  && r1.Receive(bytes[..n]).Valid()
                  && run == Later([], bytes[..n], RunReader(r1.Receive(bytes[..n]), Taken(script, n)))
  {
    hide ParseOne, NextFrame, Weight, Work, Taken;
    NextFrameStep(r, script);
    NextFrameProgress(r, script);
    var (r1, outcome) := r.Parse();
    if outcome.More? && script != [] && script[0].Data? {
      var bytes := script[0].bytes;
      var n := Min(|bytes|, r1.Room());
      if n > 0 {
        RunReads(r, script, n);
      }
    }
  }

  /** The run of which `run` is the rest. */
  function Later(outputs: seq<Outcome>, delivered: seq<u8>, run: Run): Run {
    run.(outputs := outputs + run.outputs, delivered := delivered + run.delivered)
  }

  /** A reader that waits and then reads is the reader that already holds the bytes. */
  lemma RunReads(r: Reader, script: seq<IoEvent>, n: nat)
    requires r.Valid() && r.Parse().1.More?
    requires script != [] && script[0].Data? && n == Min(|script[0].bytes|, r.Parse().0.Room()) && n > 0
    ensures r.Parse().0.Receive(script[0].bytes[..n]).Valid()
    ensures RunReader(r, script) ==
            Later([], script[0].bytes[..n], RunReader(r.Parse().0.Receive(script[0].bytes[..n]), Taken(script, n)))
  {
    hide ParseOne, NextFrame, Weight, Work, Taken;
    NextFrameStep(r, script);
    NextFrameProgress(r, script);
    var chunk := script[0].bytes[..n];
    var next, next1 := NextFrame(r, script), NextFrame(r.Parse().0.Receive(chunk), Taken(script, n));
    if !(next.status.Failed? || (next.status.Cancelled? && next.script == [])) {
      var run := RunReader(next.reader, next.script);
      assert (chunk + next1.delivered) + run.delivered == chunk + (next1.delivered + run.delivered);
    }
  }

  lemma ResetIsValid(p: Parser)
    ensures p.Reset().Valid() && Fresh(p).Valid()
  {}

  /** What a one-shot parse of `bytes` keeps for later. */
  function Unfinished(p: Parser, bytes: seq<u8>): seq<u8> {
    ResetIsValid(p);
    ParseAll(p.Reset(), bytes).rest
  }

  /**
   The bytes that reach the parser on a healthy connection, computed from the stream and the sizes of
   the reads alone. `seen` has arrived, and the first `base` bytes of it before the buffer last
   started over at its front; it starts over whenever nothing is left unfinished.
   */
  function Reach(p: Parser, seen: seq<u8>, base: nat, script: seq<IoEvent>): seq<u8>
    requires base <= |seen|
    decreases Weight(script)
  {
    if script == [] then seen
    else
      var start := if Unfinished(p, seen) == [] then |seen| else base;
      if !script[0].Data? then Reach(p, seen, start, script[1..])
      else
        var n := Min(|script[0].bytes|, MAX_FRAME_LENGTH - (|seen| - start));
        if n <= 0 then seen
        else
          TakenWeight(script, n);
          Reach(p, seen + script[0].bytes[..n], start, Taken(script, n))
  }

  lemma ReachStep(p: Parser, seen: seq<u8>, base: nat, script: seq<IoEvent>)
    requires base <= |seen|
    ensures var start := if Unfinished(p, seen) == [] then |seen| else base;
            Reach(p, seen, base, script) ==
            if script == [] then seen
            else if !script[0].Data? then Reach(p, seen, start, script[1..])
            else
              var n := Min(|script[0].bytes|, MAX_FRAME_LENGTH - (|seen| - start));
              if n <= 0 then seen else Reach(p, seen + script[0].bytes[..n], start, Taken(script, n))
  {
    hide Unfinished, Taken, Weight;
  }

  /** The stream does not get through: the buffer is full, begins inside an unfinished frame, and more is to come. */
  predicate Stalls(p: Parser, script: seq<IoEvent>) { |Reach(p, [], 0, script)| < |DataOf(script)| }

  /** The reader stands where the one-shot parse of `seen` does. */
  ghost predicate At(p: Parser, r: Reader, seen: seq<u8>, base: nat) {
    && r.Valid() && p.Reset().Valid() && base <= |seen|
    && r.End() == |seen| - base
    && var s, t := ParseAll(r.parser, r.window), ParseAll(p.Reset(), seen);
       s.state == t.state && s.rest == t.rest
  }

  lemma AtIsValid(p: Parser, r: Reader, seen: seq<u8>, base: nat)
    requires At(p, r, seen, base)
    ensures r.Valid() && base <= |seen| && r.End() == |seen| - base
  {
    hide ParseAll;
  }

  lemma AtParsed(p: Parser, r: Reader, seen: seq<u8>, base: nat)
    requires At(p, r, seen, base) && !r.Parse().1.More?
    ensures r.Parse().0.Valid() && At(p, r.Parse().0, seen, base)
  {
    hide ParseOne;
    ParseKeepsValid(r);
  }

  lemma AtSettled(p: Parser, r: Reader, seen: seq<u8>, base: nat)
    requires At(p, r, seen, base) && r.Parse().1.More?
    ensures r.Parse().0.Valid() && Settled(r.Parse().0)
    ensures r.Parse().0.window == Unfinished(p, seen)
    ensures At(p, r.Parse().0.Reindexed(), seen, if Unfinished(p, seen) == [] then |seen| else base)
  {
    hide ParseOne, ParseAll;
    ParseKeepsValid(r);
    ParseAllSettled(r.parser, r.window, []);
    ParseOneStable(r.parser, r.window, []);
    var r1 := r.Parse().0;
    assert r.window + [] == r.window && r1.window + [] == r1.window;
  }

  lemma AtReceives(p: Parser, r: Reader, seen: seq<u8>, base: nat, chunk: seq<u8>)
    requires At(p, r, seen, base) && Settled(r) && r.Reindexed() == r && r.Receive(chunk).Valid()
    ensures At(p, r.Receive(chunk), seen + chunk, base)
  {
    hide ParseOne, ParseAll;
    ParseAllResumes(p.Reset(), seen, chunk);
    ParseAllResumes(r.parser, r.window, chunk);
  }

  /** On a healthy connection exactly those bytes are delivered. */
  lemma {:induction false} RunReaches(p: Parser, r: Reader, seen: seq<u8>, base: nat, script: seq<IoEvent>)
    requires At(p, r, seen, base) && Healthy(script)
    ensures seen + RunReader(r, script).delivered == Reach(p, seen, base, script)
    decreases Weight(script), Work(r.parser, r.window)
  {
    hide ParseOne, ParseAll, RunReader, Taken, Healthy, Reach, Unfinished, Weight, Work, At;
    AtIsValid(p, r, seen, base);
    RunStep(r, script);
    ParseKeepsValid(r);
    ReachStep(p, seen, base, script);
    var (r1, outcome) := r.Parse();
    if !outcome.More? {
      AtParsed(p, r, seen, base);
      RunReaches(p, r1, seen, base, script);
      assert [] + RunReader(r1, script).delivered == RunReader(r1, script).delivered;
    } else if script != [] {
      AtSettled(p, r, seen, base);
      var start := if Unfinished(p, seen) == [] then |seen| else base;
      AtIsValid(p, r1.Reindexed(), seen, start);
      HealthyHead(script);
      if script[0].Cancel? {
        CancelWeight(script);
        ReachStep(p, seen, start, script[1..]);
        RunReaches(p, r1.Reindexed(), seen, start, script[1..]);
      } else {
        var n := Min(|script[0].bytes|, r1.Room());
        if n > 0 {
          var chunk := script[0].bytes[..n];
          AtReceives(p, r1.Reindexed(), seen, start, chunk);
          TakenWeight(script, n);
          TakenHealthy(script, n);
          RunReaches(p, r1.Receive(chunk), seen + chunk, start, Taken(script, n));
          assert seen + (chunk + RunReader(r1.Receive(chunk), Taken(script, n)).delivered) ==
                 (seen + chunk) + RunReader(r1.Receive(chunk), Taken(script, n)).delivered;
        }
      }
    }
  }

  lemma HealthyHead(script: seq<IoEvent>)
    requires Healthy(script) && script != []
    ensures script[0].Cancel? || (script[0].Data? && script[0].bytes != [])
    ensures Healthy(script[1..])
  {}

  lemma CancelWeight(script: seq<IoEvent>)
    requires script != []
    ensures Weight(script[1..]) < Weight(script)
  {}

  /**
   The exact condition under which a stream gets through. On a healthy connection and from a fresh
   reader, the bytes delivered are those of `Reach`, and either they are the whole stream, or the run ends
   with the report of an end of stream; the results are always those of a one-shot parse of them.
   */
  lemma StallsIff(p: Parser, script: seq<IoEvent>)
    requires Healthy(script)
    ensures p.Reset().Valid() && Fresh(p).Valid()
    ensures var run := RunReader(Fresh(p), script);
            && run.delivered == Reach(p, [], 0, script) <= DataOf(script)
            && ParseAll(p.Reset(), run.delivered) == Stream(run.outputs, run.reader.parser, run.reader.window)
            && run.stop == if Stalls(p, script) then Failed(UnexpectedEof) else Cancelled
  {
    hide ParseOne, ParseAll, RunReader, Reach;
    ResetIsValid(p);
    var r := Fresh(p);
    var run := RunReader(r, script);
    RunReaches(p, r, [], 0, script);
    HealthyRun(r, script);
    RunIsOneShot(r, script);
    assert [] + run.delivered == run.delivered;
    assert run.delivered <= DataOf(script);
  }

  // ----- one burst -----

  /** After `k` full buffers of the burst there is more to come, and a frame is unfinished. */
  predicate BreaksAt(p: Parser, burst: seq<u8>, k: nat) {
    && 0 < k && MAX_FRAME_LENGTH * k < |burst|
    && Unfinished(p, burst[..MAX_FRAME_LENGTH * k]) != []
  }

  /** `m` is the first break after `k` full buffers, or the burst ends before there is one. */
  ghost predicate FirstBreak(p: Parser, burst: seq<u8>, k: nat, m: nat) {
    && k < m && (BreaksAt(p, burst, m) || MAX_FRAME_LENGTH * m >= |burst|)
    && forall j: nat | k < j < m :: !BreaksAt(p, burst, j)
  }

  lemma {:induction false} FindBreak(p: Parser, burst: seq<u8>, k: nat) returns (m: nat)
    ensures FirstBreak(p, burst, k, m)
    decreases |burst| - MAX_FRAME_LENGTH * k
  {
    hide BreaksAt;
    if BreaksAt(p, burst, k + 1) || MAX_FRAME_LENGTH * (k + 1) >= |burst| {
      m := k + 1;
    } else {
      m := FindBreak(p, burst, k + 1);
    }
  }

  lemma {:induction false} BurstReach(p: Parser, burst: seq<u8>, k: nat, base: nat, m: nat)
    requires MAX_FRAME_LENGTH * k < |burst| && base <= MAX_FRAME_LENGTH * k
    requires Unfinished(p, burst[..MAX_FRAME_LENGTH * k]) == [] && FirstBreak(p, burst, k, m)
    ensures Reach(p, burst[..MAX_FRAME_LENGTH * k], base, [Data(burst[MAX_FRAME_LENGTH * k..])]) ==
            burst[..Min(MAX_FRAME_LENGTH * m, |burst|)]
    decreases m - k
  {
    hide Unfinished;
    var seen, rest := burst[..MAX_FRAME_LENGTH * k], burst[MAX_FRAME_LENGTH * k..];
    var n := Min(|rest|, MAX_FRAME_LENGTH);
    var seen1 := seen + rest[..n];
    assert seen1 == burst[..MAX_FRAME_LENGTH * k + n];
    var left := Taken([Data(rest)], n);
    assert Reach(p, seen, base, [Data(rest)]) == Reach(p, seen1, |seen|, left);
    if MAX_FRAME_LENGTH * (k + 1) < |burst| {
      assert left == [Data(burst[MAX_FRAME_LENGTH * (k + 1)..])];
      if m > k + 1 {
        assert !BreaksAt(p, burst, k + 1);
        BurstReach(p, burst, k + 1, |seen|, m);
      }
    } else {
      assert left == [];
    }
  }

  /**
   A peer that sends everything at once gets through exactly when every full buffer but the last ends
   where a frame does, or at least where the parser has nothing left to look at again; otherwise the run
   breaks off after the first one that does not.
   */
  lemma BurstStallsIff(p: Parser, burst: seq<u8>)
    requires burst != []
    ensures Fresh(p).Valid()
    ensures var run := RunReader(Fresh(p), [Data(burst)]);
            && (run.stop.Failed? <==> exists k: nat :: BreaksAt(p, burst, k))
            && forall k: nat | BreaksAt(p, burst, k) && (forall j: nat | 0 < j < k :: !BreaksAt(p, burst, j)) ::
                 run.delivered == burst[..MAX_FRAME_LENGTH * k]
  {
    hide ParseOne, ParseAll, RunReader, Reach, Unfinished;
    var script := [Data(burst)];
    StallsIff(p, script);
    FreshWaits(p);
    assert burst[..0] == [] && burst[0..] == burst;
    assert DataOf(script) == burst by {
      assert script[1..] == [] && burst + [] == burst;
    }
    var m := FindBreak(p, burst, 0);
    BurstReach(p, burst, 0, 0, m);
    forall k: nat | BreaksAt(p, burst, k)
      ensures k >= m
    {
      assert k >= m || !BreaksAt(p, burst, k);
    }
  }

  lemma FreshWaits(p: Parser)
    ensures Unfinished(p, []) == [] && ParseAll(p.Reset(), []) == Stream([], p.Reset(), [])
  {}

  // ----- a peer in lock-step never stalls the buffer -----

  /** The bytes of exactly one frame. */
  predicate Whole(p: Parser, f: seq<u8>) {
    var r := ParseOne(p.Reset(), f);
    r.outcome.Got? && r.rest == []
  }

  lemma WholeFits(p: Parser, f: seq<u8>)
    requires Whole(p, f)
    ensures 0 < |f| <= MAX_FRAME_LENGTH && ParseOne(p.Reset(), f).state == p.Reset()
  {
    hide Crc.Checksum;
  }

  /** Each frame arrives in its own reads, cut in any way and with cancellations anywhere. */
  function LockStep(frames: seq<seq<IoEvent>>): seq<IoEvent> {
    if frames == [] then [] else frames[0] + LockStep(frames[1..])
  }

  ghost predicate OneFrameEach(p: Parser, frames: seq<seq<IoEvent>>) {
    forall i | 0 <= i < |frames| :: Healthy(frames[i]) && Whole(p, DataOf(frames[i]))
  }

  /** Nothing is pending: the stream so far ends with a frame. */
  ghost predicate Clean(p: Parser, done: seq<u8>) {
    p.Reset().Valid() && ParseAll(p.Reset(), done).state == p.Reset() && ParseAll(p.Reset(), done).rest == []
  }

  lemma CleanAfterFrame(p: Parser, done: seq<u8>, f: seq<u8>)
    requires Clean(p, done) && Whole(p, f)
    ensures Clean(p, done + f)
  {
    hide ParseOne, ParseAll;
    ParseAllResumes(p.Reset(), done, f);
    FreshWaits(p);
    WholeFits(p, f);
    ParseAllDecided(p.Reset(), f, []);
    assert f + [] == f && [] + f == f;
    assert ParseOne(p.Reset(), f).rest + [] == [];
  }

  /** The first part of a frame has been read: there is room for the rest of it. */
  lemma {:induction false} LockStepReach(p: Parser, done: seq<u8>, pre: seq<u8>, base: nat, events: seq<IoEvent>,
                                         frames: seq<seq<IoEvent>>)
    requires Clean(p, done) && Healthy(events) && Whole(p, pre + DataOf(events)) && OneFrameEach(p, frames)
    requires base <= |done + pre| && (base >= |done| || Unfinished(p, done + pre) == [])
    ensures Reach(p, done + pre, base, events + LockStep(frames)) ==
            (done + pre) + (DataOf(events) + DataOf(LockStep(frames)))
    decreases |frames|, |events| + 1
  {
    hide ParseOne, ParseAll, Whole, Clean, Unfinished, Reach, OneFrameEach, Healthy;
    var f, seen, script := pre + DataOf(events), done + pre, events + LockStep(frames);
    WholeFits(p, f);
    if events == [] {
      assert script == LockStep(frames) && f == pre;
      CleanAfterFrame(p, done, f);
      NextInLine(p, seen, base, frames);
    } else {
      HealthyHead(events);
      var start := if Unfinished(p, seen) == [] then |seen| else base;
      assert script[0] == events[0] && script[1..] == events[1..] + LockStep(frames);
      ReachStep(p, seen, base, script);
      if events[0].Cancel? {
        assert DataOf(events) == DataOf(events[1..]);
        LockStepReach(p, done, pre, start, events[1..], frames);
      } else {
        var c := events[0].bytes;
        Regroup(done, pre, c, DataOf(events[1..]), DataOf(LockStep(frames)));
        LockStepReach(p, done, pre + c, start, events[1..], frames);
      }
    }
  }

  lemma Regroup(done: seq<u8>, pre: seq<u8>, c: seq<u8>, d: seq<u8>, e: seq<u8>)
    ensures pre + (c + d) == (pre + c) + d && (done + pre) + c[..|c|] == done + (pre + c)
    ensures (done + (pre + c)) + (d + e) == (done + pre) + ((c + d) + e)
  {}

  lemma {:induction false} NextInLine(p: Parser, done: seq<u8>, base: nat, frames: seq<seq<IoEvent>>)
    requires Clean(p, done) && OneFrameEach(p, frames) && base <= |done|
    ensures Reach(p, done, base, LockStep(frames)) == done + DataOf(LockStep(frames))
    decreases |frames|, 0
  {
    hide ParseOne, ParseAll, Whole;
    if frames != [] {
      assert done + [] == done && [] + DataOf(frames[0]) == DataOf(frames[0]);
      LockStepReach(p, done, [], base, frames[0], frames[1..]);
      DataOfConcat(frames[0], LockStep(frames[1..]));
    }
  }

  lemma {:induction false} DataOfConcat(a: seq<IoEvent>, b: seq<IoEvent>)
    ensures DataOf(a + b) == DataOf(a) + DataOf(b)
    decreases |a|
  {
    if a == [] {
      assert a + b == b;
    } else {
      assert (a + b)[1..] == a[1..] + b;
      DataOfConcat(a[1..], b);
    }
  }

  lemma {:induction false} LockStepHealthy(p: Parser, frames: seq<seq<IoEvent>>)
    requires OneFrameEach(p, frames)
    ensures Healthy(LockStep(frames))
  {
    hide Whole;
    if frames != [] {
      LockStepHealthy(p, frames[1..]);
    }
  }

  /**
   A peer that sends a frame only after the previous one has been taken from the buffer never runs
   into the missing shift: however each frame is cut and whatever is cancelled, everything gets through.
   */
  lemma LockStepNeverStalls(p: Parser, frames: seq<seq<IoEvent>>)
    requires OneFrameEach(p, frames)
    ensures Healthy(LockStep(frames)) && !Stalls(p, LockStep(frames))
  {
    hide ParseOne, Reach, Whole;
    LockStepHealthy(p, frames);
    FreshWaits(p);
    ResetIsValid(p);
    NextInLine(p, [], 0, frames);
  }
}
