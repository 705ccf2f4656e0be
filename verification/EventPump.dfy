/** `pump_events` of `manager.rs` as a machine over its steps: the deadline fires, a read is
    joined, an event is received, the receiver lagged, the channel closed. */
module EventPump {
  import opened Text
  import opened OpencodeEvents
  import opened DeltaCoalescer
  import opened DeliveredReads

  /** What the mirror and the task set answer when a delivered message is announced. */
  datatype Answers = Answers(withoutMessage: bool, revisionKnown: bool, nextTask: TaskId)

  datatype Step =
    | DeadlinePassed(now: nat)
    | Joined(id: TaskId, outcome: Outcome)
    | Received(raw: Raw, answers: Answers, now: nat)
    | Lagged
    | Closed

  /** What the pump does, in order: an event is handed on, clients are asked to resync, or the
      result of a read is published (its message committed, or a resync because it failed). */
  datatype Out = Handled(raw: Raw) | Resynced(asid: string, reason: string) | Published(entry: Entry, outcome: Outcome)

  /** `due` is when the waiting batch must go, whatever joins it until then. */
  datatype Pump = Pump(batch: seq<Raw>, due: nat, delivered: Reads, stream: seq<Out>, closed: bool)

  const STARTED_PUMP: Pump := Pump([], 0, IDLE, [], false)

  /** Receiving an event that is not a delta. */
  function ReceiveOther(rs: Reads, raw: Raw, answers: Answers): (Reads, seq<Out>) {
    var kept := if IsCut(raw) then Invalidate(rs, CutBy(raw)) else rs;
    var session, inbox := AsStr(Field(raw.data, "sessionID")), AsStr(Field(raw.data, "inboxID"));
    if raw.eventType != "session.inbox.delivered" || session.None? || inbox.None? || answers.withoutMessage
    then (kept, [Handled(raw)])
    else if Reading(kept, session.value, inbox.value) then (kept, [])
    else if |kept.tasks| == MAX_DELIVERED_READS
    then (kept, [Resynced(session.value, "delivered_message_read_capacity")])
    else if !answers.revisionKnown
    then (kept, [Resynced(session.value, "delivered_message_session_changed")])
    else (Start(kept, session.value, inbox.value, answers.nextTask), [])
  }

  predicate Enabled(rs: Reads, step: Step) {
    match step
    case Joined(id, _) => id in rs.tasks
    case Received(_, answers, _) => answers.nextTask !in rs.tasks
    case _ => true
  }

  /** Joining a task publishes the result of its read, unless the read was dropped. */
  function Join(rs: Reads, id: TaskId, outcome: Outcome): (Reads, seq<Out>) {
    (Complete(rs, id, outcome), if id in rs.pending then [Published(rs.pending[id], outcome)] else [])
  }

  ghost function Flushed(batch: seq<Raw>): seq<Out>
    requires Waiting(batch)
  {
    if batch == [] then [] else [Handled(Merged(batch))]
  }

  const LAG_RESYNC: Out := Resynced("", "event_backlog_overflow")

  /** A run that has just grown is handed on at once when that filled it. */
  ghost function Grown(pump: Pump, sent: seq<Out>, batch: seq<Raw>, due: nat): (next: Pump)
    requires IsRun(batch)
    ensures Waiting(next.batch)
  {
    if Full(batch) then pump.(batch := [], stream := sent + [Handled(Merged(batch))])
    else pump.(batch := batch, due := due, stream := sent)
  }

  ghost function ReceiveDelta(pump: Pump, raw: Raw, now: nat): (next: Pump)
    requires Waiting(pump.batch) && IsDelta(raw)
    ensures Waiting(next.batch)
  {
    if Joins(pump.batch, raw) then
      JoinKeepsRun(pump.batch, raw);
      Grown(pump, pump.stream, pump.batch + [raw], pump.due)
    else
      MergedOne(raw);
      Grown(pump, pump.stream + Flushed(pump.batch), [raw], now + DELTA_FLUSH_DELAY)
  }

  ghost function Advance(pump: Pump, step: Step): (next: Pump)
    requires Waiting(pump.batch)
    ensures Waiting(next.batch)
  {
    if pump.closed || !Enabled(pump.delivered, step) then pump
    else
      match step
      case DeadlinePassed(now) =>
        if pump.batch == [] || now < pump.due then pump
        else pump.(batch := [], stream := pump.stream + Flushed(pump.batch))
      case Joined(id, outcome) =>
        var (rs, out) := Join(pump.delivered, id, outcome);
        pump.(delivered := rs, stream := pump.stream + out)
      case Received(raw, answers, now) =>
        if IsDelta(raw) then ReceiveDelta(pump, raw, now)
        else
          var (rs, out) := ReceiveOther(pump.delivered, raw, answers);
          pump.(batch := [], delivered := rs, stream := pump.stream + Flushed(pump.batch) + out)
      case Lagged =>
        pump.(batch := [], delivered := Invalidate(pump.delivered, CutByLag),
              stream := pump.stream + Flushed(pump.batch) + [LAG_RESYNC])
      case Closed => pump.(batch := [], stream := pump.stream + Flushed(pump.batch), closed := true)
  }

  ghost function Run(steps: seq<Step>): (pump: Pump)
    ensures Waiting(pump.batch)
  {
    if steps == [] then STARTED_PUMP else Advance(Run(steps[..|steps| - 1]), steps[|steps| - 1])
  }

  // ---------------------------------------------------------------------------
  // The pump with no batching: what it is meant to mean.

  datatype Plain = Plain(delivered: Reads, stream: seq<Out>, closed: bool)

  function AdvancePlain(plain: Plain, step: Step): Plain {
    if plain.closed || !Enabled(plain.delivered, step) then plain
    else
      match step
      case DeadlinePassed(_) => plain
      case Joined(id, outcome) =>
        var (rs, out) := Join(plain.delivered, id, outcome);
        plain.(delivered := rs, stream := plain.stream + out)
      case Received(raw, answers, now) =>
        if IsDelta(raw) then plain.(stream := plain.stream + [Handled(raw)])
        else
          var (rs, out) := ReceiveOther(plain.delivered, raw, answers);
          Plain(rs, plain.stream + out, false)
      case Lagged => Plain(Invalidate(plain.delivered, CutByLag), plain.stream + [LAG_RESYNC], false)
      case Closed => plain.(closed := true)
  }

  function RunPlain(steps: seq<Step>): Plain {
    if steps == [] then Plain(IDLE, [], false) else AdvancePlain(RunPlain(steps[..|steps| - 1]), steps[|steps| - 1])
  }

  // ---------------------------------------------------------------------------
  // Batching merges adjacent deltas, and lets the reads joined meanwhile go ahead of them.

  function HandledAll(batch: seq<Raw>): (r: seq<Out>)
    ensures |r| == |batch|
  {
    seq(|batch|, i requires 0 <= i < |batch| => Handled(batch[i]))
  }

  /** The published read results among outputs, in order. */
  function Results(outs: seq<Out>): seq<Out> {
    if outs == [] then []
    else Results(outs[..|outs| - 1]) + (if outs[|outs| - 1].Published? then [outs[|outs| - 1]] else [])
  }

  /** Everything else among outputs, in order. */
  function Others(outs: seq<Out>): seq<Out> {
    if outs == [] then []
    else Others(outs[..|outs| - 1]) + (if outs[|outs| - 1].Published? then [] else [outs[|outs| - 1]])
  }

  /** `outs` stands for the consecutive unbatched outputs `group`: for one and the same output,
      or for the deltas of one run, joined into at most eight kibibytes, with whatever read
      results came among them put first. */
  ghost predicate StandsFor(outs: seq<Out>, group: seq<Out>) {
    || (outs == group && |group| == 1)
    || exists batch: seq<Raw> :: IsRun(batch) && Others(group) == HandledAll(batch)
         && outs == Results(group) + [Handled(Merged(batch))]
         && Utf8Len(JoinedText(batch)) <= MAX_PENDING_DELTA_BYTES
  }

  /** A piece of the batched stream and the piece of the unbatched one it stands for. */
  datatype Piece = Piece(outs: seq<Out>, group: seq<Out>)

  ghost predicate Pieces(pieces: seq<Piece>) {
    forall i :: 0 <= i < |pieces| ==> StandsFor(pieces[i].outs, pieces[i].group)
  }

  function Batched(pieces: seq<Piece>): seq<Out> {
    if pieces == [] then [] else Batched(pieces[..|pieces| - 1]) + pieces[|pieces| - 1].outs
  }

  function Unbatched(pieces: seq<Piece>): seq<Out> {
    if pieces == [] then [] else Unbatched(pieces[..|pieces| - 1]) + pieces[|pieces| - 1].group
  }

  /** The two streams, cut into consecutive pieces, stand for one another piece by piece. */
  ghost predicate Batches(stream: seq<Out>, plain: seq<Out>) {
    exists pieces :: Pieces(pieces) && Batched(pieces) == stream && Unbatched(pieces) == plain
  }

  lemma BatchesMore(stream: seq<Out>, plain: seq<Out>, outs: seq<Out>, group: seq<Out>)
    requires Batches(stream, plain) && StandsFor(outs, group)
    ensures Batches(stream + outs, plain + group)
  {
    var pieces :| Pieces(pieces) && Batched(pieces) == stream && Unbatched(pieces) == plain;
    var next := pieces + [Piece(outs, group)];
    assert next[..|next| - 1] == pieces;
    assert Pieces(next);
  }

  /** Handing on the same outputs on both sides. */
  lemma {:induction false} SameOutputs(stream: seq<Out>, plain: seq<Out>, out: seq<Out>)
    requires Batches(stream, plain)
    ensures Batches(stream + out, plain + out)
  {
    if out == [] {
      assert stream + out == stream && plain + out == plain;
    } else {
      var front, last := out[..|out| - 1], out[|out| - 1];
      SameOutputs(stream, plain, front);
      BatchesMore(stream + front, plain + front, [last], [last]);
      assert stream + front + [last] == stream + out && plain + front + [last] == plain + out;
    }
  }

  /** What the unbatched pump has put out since the waiting batch began: its deltas, and the
      read results among them, which the batched pump has put out already. */
  ghost predicate Behind(pump: Pump, plain: Plain, done: seq<Out>, sent: seq<Out>, tail: seq<Out>) {
    && Batches(done, sent)
    && pump.stream == done + Results(tail) && plain.stream == sent + tail
    && Others(tail) == HandledAll(pump.batch)
    && (pump.batch == [] ==> tail == [])
  }

  /** The batched pump is behind the unbatched one by exactly the batch that waits. */
  ghost predicate Refines(pump: Pump, plain: Plain) {
    && Waiting(pump.batch)
    && pump.delivered == plain.delivered && pump.closed == plain.closed
    && (pump.closed ==> pump.batch == [])
    && exists done, sent, tail :: Behind(pump, plain, done, sent, tail)
  }

  lemma BatchStandsFor(done: seq<Out>, sent: seq<Out>, tail: seq<Out>, batch: seq<Raw>)
    requires Batches(done, sent) && IsRun(batch) && Others(tail) == HandledAll(batch)
    requires Utf8Len(JoinedText(batch)) <= MAX_PENDING_DELTA_BYTES
    ensures Batches(done + Results(tail) + [Handled(Merged(batch))], sent + tail)
  {
    var outs := Results(tail) + [Handled(Merged(batch))];
    assert StandsFor(outs, tail);
    BatchesMore(done, sent, outs, tail);
    assert done + outs == done + Results(tail) + [Handled(Merged(batch))];
  }

  lemma FlushRefines(pump: Pump, plain: Plain)
    requires Refines(pump, plain)
    ensures Batches(pump.stream + Flushed(pump.batch), plain.stream)
  {
    var done, sent, tail :| Behind(pump, plain, done, sent, tail);
    if pump.batch == [] {
      assert Results([]) == [];
      assert pump.stream + Flushed(pump.batch) == done && plain.stream == sent;
    } else {
      BatchStandsFor(done, sent, tail, pump.batch);
    }
  }

  lemma Caught(pump: Pump, plain: Plain)
    requires pump.batch == [] && Batches(pump.stream, plain.stream)
    requires pump.delivered == plain.delivered && pump.closed == plain.closed
    ensures Refines(pump, plain)
  {
    assert Results([]) == [] && Others([]) == [] == HandledAll([]);
    assert Behind(pump, plain, pump.stream, plain.stream, []);
  }

  lemma FilterMore(outs: seq<Out>, out: Out)
    ensures Results(outs + [out]) == Results(outs) + (if out.Published? then [out] else [])
    ensures Others(outs + [out]) == Others(outs) + (if out.Published? then [] else [out])
  {
    assert (outs + [out])[..|outs|] == outs;
  }

  /** A run that grows by one delta, behind which nothing or `tail` lies. */
  lemma GrownRefines(pump: Pump, done: seq<Out>, sent: seq<Out>, tail: seq<Out>, batch: seq<Raw>, due: nat,
                     plain: Plain)
    requires Batches(done, sent) && IsRun(batch) && plain.stream == sent + tail
    requires Others(tail) == HandledAll(batch)
    requires |batch| == 1 ==> tail == [Handled(batch[0])]
    requires |batch| > 1 ==> Utf8Len(JoinedText(batch)) <= MAX_PENDING_DELTA_BYTES
    requires pump.delivered == plain.delivered && !pump.closed && !plain.closed
    ensures Refines(Grown(pump, done + Results(tail), batch, due), plain)
  {
    var next := Grown(pump, done + Results(tail), batch, due);
    if !Full(batch) {
      assert Behind(next, plain, done, sent, tail);
    } else if |batch| > 1 {
      BatchStandsFor(done, sent, tail, batch);
      Caught(next, plain);
    } else {
      LoneDelta(batch);
      assert done + Results(tail) + tail == done + tail;
      BatchesMore(done, sent, tail, tail);
      Caught(next, plain);
    }
  }

  lemma LoneDelta(batch: seq<Raw>)
    requires IsRun(batch) && |batch| == 1
    ensures Merged(batch) == batch[0] && Results([Handled(batch[0])]) == []
  {
    assert batch == [batch[0]];
    MergedOne(batch[0]);
    FilterMore([], Handled(batch[0]));
    assert [] + [Handled(batch[0])] == [Handled(batch[0])];
  }

  lemma JoinRefines(pump: Pump, plain: Plain, raw: Raw)
    requires Refines(pump, plain) && IsDelta(raw) && !pump.closed && Joins(pump.batch, raw)
    ensures IsRun(pump.batch + [raw])
    ensures Refines(Grown(pump, pump.stream, pump.batch + [raw], pump.due),
                    plain.(stream := plain.stream + [Handled(raw)]))
  {
    var done, sent, tail :| Behind(pump, plain, done, sent, tail);
    var batch, next := pump.batch + [raw], plain.(stream := plain.stream + [Handled(raw)]);
    JoinKeepsRun(pump.batch, raw);
    FilterMore(tail, Handled(raw));
    assert Results(tail + [Handled(raw)]) == Results(tail);
    assert HandledAll(batch) == HandledAll(pump.batch) + [Handled(raw)];
    assert next.stream == sent + (tail + [Handled(raw)]);
    GrownRefines(pump, done, sent, tail + [Handled(raw)], batch, pump.due, next);
  }

  lemma StartRefines(pump: Pump, plain: Plain, raw: Raw, due: nat)
    requires Refines(pump, plain) && IsDelta(raw) && !pump.closed
    ensures IsRun([raw])
    ensures Refines(Grown(pump, pump.stream + Flushed(pump.batch), [raw], due),
                    plain.(stream := plain.stream + [Handled(raw)]))
  {
    FlushRefines(pump, plain);
    MergedOne(raw);
    LoneDelta([raw]);
    var stream := pump.stream + Flushed(pump.batch);
    FilterMore([], Handled(raw));
    assert [] + [Handled(raw)] == [Handled(raw)] == HandledAll([raw]);
    assert stream + Results([Handled(raw)]) == stream;
    GrownRefines(pump, stream, plain.stream, [Handled(raw)], [raw], due,
                 plain.(stream := plain.stream + [Handled(raw)]));
  }

  lemma ReceiveDeltaRefines(pump: Pump, plain: Plain, raw: Raw, now: nat)
    requires Refines(pump, plain) && IsDelta(raw) && !pump.closed
    ensures Refines(ReceiveDelta(pump, raw, now), plain.(stream := plain.stream + [Handled(raw)]))
  {
    if Joins(pump.batch, raw) {
      JoinRefines(pump, plain, raw);
    } else {
      StartRefines(pump, plain, raw, now + DELTA_FLUSH_DELAY);
    }
  }

  lemma PublishBehind(pump: Pump, plain: Plain, rs: Reads, out: seq<Out>, done: seq<Out>, sent: seq<Out>,
                      tail: seq<Out>)
    requires Behind(pump, plain, done, sent, tail) && pump.batch != []
    requires |out| <= 1 && forall i :: 0 <= i < |out| ==> out[i].Published?
    ensures Behind(pump.(delivered := rs, stream := pump.stream + out),
                   plain.(delivered := rs, stream := plain.stream + out), done, sent, tail + out)
  {
    if out == [] {
      assert tail + out == tail && pump.stream + out == pump.stream && plain.stream + out == plain.stream;
    } else {
      FilterMore(tail, out[0]);
      assert out == [out[0]];
      assert done + Results(tail) + out == done + (Results(tail) + out);
      assert sent + tail + out == sent + (tail + out);
    }
  }

  /** With a batch waiting, a read that is joined is published ahead of it. */
  lemma PublishAhead(pump: Pump, plain: Plain, rs: Reads, out: seq<Out>)
    requires Refines(pump, plain) && pump.batch != []
    requires |out| <= 1 && forall i :: 0 <= i < |out| ==> out[i].Published?
    ensures Refines(pump.(delivered := rs, stream := pump.stream + out),
                    plain.(delivered := rs, stream := plain.stream + out))
  {
    var done, sent, tail :| Behind(pump, plain, done, sent, tail);
    PublishBehind(pump, plain, rs, out, done, sent, tail);
  }

  /** With nothing waiting, both publish it last. */
  lemma PublishLast(pump: Pump, plain: Plain, rs: Reads, out: seq<Out>)
    requires Refines(pump, plain) && pump.batch == []
    ensures Refines(pump.(delivered := rs, stream := pump.stream + out),
                    plain.(delivered := rs, stream := plain.stream + out))
  {
    FlushRefines(pump, plain);
    assert pump.stream + Flushed(pump.batch) == pump.stream;
    SameOutputs(pump.stream, plain.stream, out);
    Caught(pump.(delivered := rs, stream := pump.stream + out), plain.(delivered := rs, stream := plain.stream + out));
  }

  /** A read that is joined is published ahead of the batch that waits. */
  lemma PublishRefines(pump: Pump, plain: Plain, id: TaskId, outcome: Outcome)
    requires Refines(pump, plain)
    ensures var (rs, out) := Join(pump.delivered, id, outcome);
      Refines(pump.(delivered := rs, stream := pump.stream + out),
              plain.(delivered := rs, stream := plain.stream + out))
  {
    var (rs, out) := Join(pump.delivered, id, outcome);
    if pump.batch == [] {
      PublishLast(pump, plain, rs, out);
    } else {
      PublishAhead(pump, plain, rs, out);
    }
  }

  lemma AdvanceRefines(pump: Pump, plain: Plain, step: Step)
    requires Refines(pump, plain)
    ensures Refines(Advance(pump, step), AdvancePlain(plain, step))
  {
    if !pump.closed && Enabled(pump.delivered, step) {
      FlushRefines(pump, plain);
      var next, nextPlain := Advance(pump, step), AdvancePlain(plain, step);
      match step
      case DeadlinePassed(now) =>
        if pump.batch != [] && pump.due <= now {
          Caught(next, nextPlain);
        }
      case Joined(id, outcome) => PublishRefines(pump, plain, id, outcome);
      case Received(raw, answers, now) =>
        if IsDelta(raw) {
          ReceiveDeltaRefines(pump, plain, raw, now);
        } else {
          var out := ReceiveOther(pump.delivered, raw, answers).1;
          SameOutputs(pump.stream + Flushed(pump.batch), plain.stream, out);
          Caught(next, nextPlain);
        }
      case Lagged =>
        SameOutputs(pump.stream + Flushed(pump.batch), plain.stream, [LAG_RESYNC]);
        Caught(next, nextPlain);
      case Closed => Caught(next, nextPlain);
    }
  }

  /** For every sequence of steps, wherever the deadlines, joins and lags fall, the batched
      pump is the unbatched one behind by the batch that waits. */
  lemma {:induction false} RunRefines(steps: seq<Step>)
    ensures Refines(Run(steps), RunPlain(steps))
  {
    if steps == [] {
      assert Pieces([]) && Batched([]) == [] && Unbatched([]) == [];
      Caught(Run(steps), RunPlain(steps));
    } else {
      RunRefines(steps[..|steps| - 1]);
      AdvanceRefines(Run(steps[..|steps| - 1]), RunPlain(steps[..|steps| - 1]), steps[|steps| - 1]);
    }
  }
}
