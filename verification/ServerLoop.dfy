/**
 The session loop of the server: the reader, the dispatcher and the handlers together.
 */
module ServerLoops {
  import opened Types
  import opened Framing
  import opened Reading
  import opened Buffers
  import opened FramedReaders
  import opened FrameWriters
  import opened ServerRequests
  import opened ServerSessions
  import opened Streams

  /** The reader and the writer of a session speak the same format. */
  predicate SameFormat(format: FormatType, p: Parser) { format.TcpFormat? <==> p.Tcp? }

  lemma OutputsAreFormattable(format: FormatType, r: Reader, script: seq<IoEvent>)
    requires r.Valid() && SameFormat(format, r.parser)
    ensures SameFormat(format, NextFrame(r, script).reader.parser)
    ensures var status := NextFrame(r, script).status;
            status.Output? && status.outcome.Got? ==> Formattable(format, HeaderOf(status.outcome.frame))
  {
    hide NextFrame;
    NextFrameKind(r, script);
  }

  /** A run, unfolded by one call of `next_frame`. */
  lemma {:induction false} RunTurn(r: Reader, script: seq<IoEvent>)
    requires r.Valid()
    ensures var next := NextFrame(r, script);
            && next.reader.Valid()
            && (next.status.Output? ==> !next.status.outcome.More?)
            && RunReader(r, script).outputs ==
               OutputsOf(next.status) +
               (if next.status.Failed? || (next.status.Cancelled? && next.script == []) then []
                else RunReader(next.reader, next.script).outputs)
  {
    NextFrameProgress(r, script);
    NextFrameKind(r, script);
    hide NextFrame;
  }

  // ----- a session, frame by frame -----

  /** Frames, each of which can be answered: none of them ends a session. */
  ghost predicate Answerable(format: FormatType, outputs: seq<Outcome>) {
    forall i | 0 <= i < |outputs| :: outputs[i].Got? && Formattable(format, HeaderOf(outputs[i].frame))
  }

  function ReplyOf(answer: Answer): seq<seq<u8>> { if answer.Reply? then [answer.bytes] else [] }

  /** A session that has handled some frames and then handles one more. */
  lemma {:induction false} SessionAppend<S>(format: FormatType, auth: Authorization, h: Handler<S>, devices: Devices<S>,
                                            outputs: seq<Outcome>, frame: Frame)
    requires devices.Valid() && Answerable(format, outputs) && Formattable(format, HeaderOf(frame))
    ensures var (d, replies) := Session(format, auth, h, devices, outputs);
            var (d', answer) := HandledFrame(format, auth, h, d, frame);
            && !answer.Broken?
            && Session(format, auth, h, devices, outputs + [Got(frame)]) == (d', replies + ReplyOf(answer))
    decreases |outputs|
  {
    hide HandledFrame, Formattable;
    if outputs == [] {
      ReplyMatchesRequest(format, auth, h, devices, frame);
      SessionUnfold(format, auth, h, devices, frame, []);
      assert [] + [Got(frame)] == [Got(frame)] + [];
      var reply := ReplyOf(HandledFrame(format, auth, h, devices, frame).1);
      assert reply + [] == reply && [] + reply == reply;
    } else {
      var first, rest := outputs[0].frame, outputs[1..];
      assert outputs == [Got(first)] + rest && outputs + [Got(frame)] == [Got(first)] + (rest + [Got(frame)]);
      SessionUnfold(format, auth, h, devices, first, rest);
      SessionUnfold(format, auth, h, devices, first, rest + [Got(frame)]);
      var (d, answer) := HandledFrame(format, auth, h, devices, first);
      hide Session;
      SessionAppend(format, auth, h, d, rest, frame);
      var replies, last := Session(format, auth, h, d, rest).1, ReplyOf(HandledFrame(format, auth, h, Session(format, auth, h, d, rest).0, frame).1);
      assert ReplyOf(answer) + (replies + last) == (ReplyOf(answer) + replies) + last;
    }
  }

  /** What follows an error in the outputs is never looked at. */
  lemma {:induction false} SessionStops<S>(format: FormatType, auth: Authorization, h: Handler<S>, devices: Devices<S>,
                                           outputs: seq<Outcome>, rest: seq<Outcome>)
    requires devices.Valid() && Answerable(format, outputs) && (rest == [] || !rest[0].Got?)
    ensures Session(format, auth, h, devices, outputs + rest) == Session(format, auth, h, devices, outputs)
    decreases |outputs|
  {
    hide HandledFrame, Formattable;
    if outputs == [] {
      assert outputs + rest == rest;
    } else {
      assert (outputs + rest)[1..] == outputs[1..] + rest;
      var first := outputs[0].frame;
      HandledKeepsValid(format, auth, h, devices, first);
      SessionStops(format, auth, h, HandledFrame(format, auth, h, devices, first).0, outputs[1..], rest);
    }
  }

  // ----- the loop -----

  /**
   What else a turn of the loop meets: the channel of commands may be closed, and the write of a reply
   may fail. A setting that arrives cancels `next_frame`, which the reader's own environment decides.
   */
  datatype Turn = Turn(closed: bool, write: Option<IoErrorKind>)

  datatype SessionEnd =
    | OutOfInput                        // nothing more ever arrives: the session waits
    | ReaderFailed(error: RequestError)
    | WriteFailed(kind: IoErrorKind)
    | CommandsClosed

  /** The session ended because of the next output, a framing error, or, after the last one, an I/O error. */
  predicate EndedBy(error: RequestError, outputs: seq<Outcome>) {
    match error
    case BadFrame(e) => outputs != [] && outputs[0] == Bad(e)
    case Io(_) => outputs == []
    case _ => false
  }

  /** What the reader finds decides a turn: a frame is handled, and an error, of framing or of I/O, ends the session. */
  ghost predicate EndsAs(status: Status, handled: seq<Outcome>, end: Option<SessionEnd>) {
    match status
    case Failed(kind) => handled == [] && end == Some(ReaderFailed(Io(kind)))
    case Output(Bad(error)) => handled == [] && end == Some(ReaderFailed(BadFrame(error)))
    case Output(Got(frame)) => handled == [Got(frame)] && (end.None? || end.value.WriteFailed?)
    case _ => handled == [] && (end.None? || end.value.OutOfInput?)
  }

  /** `run_one`: a frame, if it handled one, and the reason if it ends the session */
  method RunOne<S>(task: SessionTask<S>, reader: FramedReader, io: PhysLayer, turn: Turn)
    returns (end: Option<SessionEnd>, ghost handled: seq<Outcome>)
    requires task.Valid() && reader.Valid() && SameFormat(task.writer.format, reader.Value().parser)
    requires task.writer.buffer != reader.buffer.buffer
    modifies task, task.writer.buffer, reader.ParserObject(), reader.buffer, reader.buffer.buffer, io
    ensures task.Valid() && reader.Valid() && SameFormat(task.writer.format, reader.Value().parser)
    ensures old(task.devices.Valid()) && Answerable(task.writer.format, handled) && |handled| <= 1
    ensures var outputs := RunReader(old(reader.Value()), old(io.script)).outputs;
            if end == Some(OutOfInput) then handled == [] && outputs == []
            else if end.Some? && end.value.ReaderFailed? then
              handled == [] && (outputs == [] || !outputs[0].Got?) && EndedBy(end.value.error, outputs)
            else if end == Some(CommandsClosed) then handled == []
            else outputs == handled + RunReader(reader.Value(), io.script).outputs
    ensures if handled == [] then
              task.devices == old(task.devices) && task.sent == old(task.sent)
            else
              var (d, answer) := HandledFrame(task.writer.format, task.auth, task.handler, old(task.devices), handled[0].frame);
              && task.devices == d
              && (if end.None? then task.sent == old(task.sent) + ReplyOf(answer)
                  else end.value.WriteFailed? && answer.Reply? && task.sent == old(task.sent))
              && (end.Some? <==> answer.Reply? && turn.write.Some?)
    ensures !turn.closed ==> EndsAs(NextFrame(old(reader.Value()), old(io.script)).status, handled, end)
    ensures end == Some(CommandsClosed) <==> turn.closed
    ensures end.Some? && end.value.WriteFailed? ==> turn.write == Some(end.value.kind) && handled != []
    ensures end.None? ==>
              || Weight(io.script) < Weight(old(io.script))
              || (Weight(io.script) == Weight(old(io.script)) &&
                  Work(reader.Value().parser, reader.Value().window) < old(Work(reader.Value().parser, reader.Value().window)))
  {
    hide Reading.NextFrame, RunReader, HandledFrame, Work, Weight, FramedReader.Valid, FramedReader.Value, Formattable;
    handled := [];
    if turn.closed {
      return Some(CommandsClosed), [];
    }
    ghost var v, script := reader.Value(), io.script;
    RunTurn(v, script);
    OutputsAreFormattable(task.writer.format, v, script);
    NextFrameProgress(v, script);
    var result := reader.NextFrame(io);
    match result
    case Dropped =>
      end := if io.script == [] then Some(OutOfInput) else None;
    case Returned(Err(error)) =>
      end := Some(ReaderFailed(error));
    case Returned(Ok(frame)) =>
      handled := [Got(frame)];
      ReplyMatchesRequest(task.writer.format, task.auth, task.handler, task.devices, frame);
      var answer, error := task.HandleFrame(frame, turn.write);
      if error.Some? {
        end := Some(WriteFailed(turn.write.value));
      } else {
        end := None;
      }
  }

  /** How far a session has come: `done` of the outputs are handled, and `rest` are to come. */
  ghost predicate Progress<S>(format: FormatType, auth: Authorization, h: Handler<S>, start: Devices<S>,
                              outputs: seq<Outcome>, done: seq<Outcome>, rest: seq<Outcome>,
                              devices: Devices<S>, replies: seq<seq<u8>>)
  {
    && start.Valid() && Answerable(format, done) && outputs == done + rest
    && Session(format, auth, h, start, done) == (devices, replies)
  }

  lemma NoProgress<S>(format: FormatType, auth: Authorization, h: Handler<S>, start: Devices<S>, outputs: seq<Outcome>)
    requires start.Valid()
    ensures Progress(format, auth, h, start, outputs, [], outputs, start, [])
  {
    hide Session;
    SessionOfNothing(format, auth, h, start);
    assert [] + outputs == outputs;
  }

  lemma ProgressMore<S>(format: FormatType, auth: Authorization, h: Handler<S>, start: Devices<S>, outputs: seq<Outcome>,
                        done: seq<Outcome>, handled: seq<Outcome>, rest: seq<Outcome>, devices: Devices<S>,
                        replies: seq<seq<u8>>)
    requires Progress(format, auth, h, start, outputs, done, handled + rest, devices, replies)
    requires Answerable(format, handled) && |handled| <= 1
    ensures handled == [] ==> Progress(format, auth, h, start, outputs, done, rest, devices, replies)
    ensures handled != [] ==>
              devices.Valid() &&
              var (d, answer) := HandledFrame(format, auth, h, devices, handled[0].frame);
              Progress(format, auth, h, start, outputs, done + handled, rest, d, replies + ReplyOf(answer))
  {
    hide Session, HandledFrame, Formattable;
    assert done + (handled + rest) == (done + handled) + rest;
    if handled == [] {
      assert handled + rest == rest;
    } else {
      assert handled == [Got(handled[0].frame)];
      SessionAppend(format, auth, h, start, done, handled[0].frame);
    }
  }

  lemma ProgressEnds<S>(format: FormatType, auth: Authorization, h: Handler<S>, start: Devices<S>, outputs: seq<Outcome>,
                        done: seq<Outcome>, rest: seq<Outcome>, devices: Devices<S>, replies: seq<seq<u8>>)
    requires Progress(format, auth, h, start, outputs, done, rest, devices, replies)
    ensures start.Valid() && |done| <= |outputs| && outputs[|done|..] == rest
    ensures Session(format, auth, h, start, outputs[..|done|]) == (devices, replies)
    ensures rest == [] || !rest[0].Got? ==> Session(format, auth, h, start, outputs) == (devices, replies)
  {
    hide Session;
    assert outputs[..|done|] == done;
    if rest == [] || !rest[0].Got? {
      SessionStops(format, auth, h, start, done, rest);
    }
  }

  /**
   `SessionTask::run`. What the peer is sent, and what becomes of the handlers, is determined by the
   frames that a one-shot parse finds in the bytes delivered, up to the end of the session: all of them
   up to the first error if the reader ends it; otherwise those that were handled before the channel of
   commands was closed, or up to the one whose reply could not be written, which is carried out but not
   answered.
   */
  method RunSession<S>(task: SessionTask<S>, reader: FramedReader, io: PhysLayer, turns: nat -> Turn)
    returns (end: SessionEnd, ghost count: nat, ghost n: nat)
    requires task.Valid() && reader.Valid() && SameFormat(task.writer.format, reader.Value().parser)
    requires task.writer.buffer != reader.buffer.buffer
    modifies task, task.writer.buffer, reader.ParserObject(), reader.buffer, reader.buffer.buffer, io
    ensures task.Valid() && reader.Valid() && old(task.devices.Valid())
    ensures var outputs := RunReader(old(reader.Value()), old(io.script)).outputs;
            && n <= |outputs|
            && var (d, replies) := Session(task.writer.format, task.auth, task.handler, old(task.devices), outputs[..n]);
               && task.devices == d
               && (end.WriteFailed? ==> replies != [] && task.sent == old(task.sent) + replies[..|replies| - 1])
               && (!end.WriteFailed? ==> task.sent == old(task.sent) + replies)
               && (end.OutOfInput? || end.ReaderFailed? ==>
                     (d, replies) == Session(task.writer.format, task.auth, task.handler, old(task.devices), outputs))
    ensures end.ReaderFailed? ==> EndedBy(end.error, RunReader(old(reader.Value()), old(io.script)).outputs[n..])
    ensures end.CommandsClosed? <==> turns(count).closed
    ensures forall i | 0 <= i < count :: !turns(i).closed
    ensures end.WriteFailed? ==> turns(count).write == Some(end.kind)
  {
    hide Session, RunReader, Work, Weight, FramedReader.Valid, FramedReader.Value, HandledFrame, Formattable;
    hide Progress, EndsAs, EndedBy, Reading.NextFrame;
    ghost var format, outputs := task.writer.format, RunReader(reader.Value(), io.script).outputs;
    ghost var start, sent := task.devices, task.sent;
    ghost var done: seq<Outcome> := [];
    ghost var replies: seq<seq<u8>> := [];
    var turn := 0;
    NoProgress(format, task.auth, task.handler, start, outputs);
    while true
      invariant task.Valid() && reader.Valid() && SameFormat(format, reader.Value().parser)
      invariant Progress(format, task.auth, task.handler, start, outputs, done, RunReader(reader.Value(), io.script).outputs,
                         task.devices, replies)
      invariant task.sent == sent + replies
      invariant forall i | 0 <= i < turn :: !turns(i).closed
      decreases Weight(io.script), Work(reader.Value().parser, reader.Value().window)
    {
      ghost var before := task.devices;
      ghost var rest := RunReader(reader.Value(), io.script).outputs;
      var reason, handled := RunOne(task, reader, io, turns(turn));
      if reason.None? || reason.value.WriteFailed? {
        ghost var left := RunReader(reader.Value(), io.script).outputs;
        ProgressMore(format, task.auth, task.handler, start, outputs, done, handled, left, before, replies);
        rest := left;
        if handled != [] {
          done := done + handled;
          replies := replies + ReplyOf(HandledFrame(format, task.auth, task.handler, before, handled[0].frame).1);
        }
      }
      ProgressEnds(format, task.auth, task.handler, start, outputs, done, rest, task.devices, replies);
      if reason.Some? {
        return reason.value, turn, |done|;
      }
      turn := turn + 1;
    }
  }

  lemma SessionOfNothing<S>(format: FormatType, auth: Authorization, h: Handler<S>, devices: Devices<S>)
    requires devices.Valid()
    ensures Session(format, auth, h, devices, []) == (devices, [])
  {
    hide HandledFrame;
  }
}
