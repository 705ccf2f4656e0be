/** What whole runs of the event pump guarantee, and the loop that runs it. */
module EventPumpMeaning {
  import opened Wrappers
  import opened OpencodeEvents
  import C = DeltaCoalescer
  import opened DeliveredReads
  import opened EventPump

  // ---------------------------------------------------------------------------
  // Row texts.

  /** The timeline: the texts that deltas append to, and everything else. */
  datatype World<R> = World(rows: map<RowKey, string>, rest: R)

  /** `other` is whatever the rest of the event handler does, text rows included. */
  function Apply<R>(other: (World<R>, Out) -> World<R>, w: World<R>, out: Out): World<R> {
    if out.Handled? && IsDelta(out.raw)
    then w.(rows := Append(w.rows, RowOf(out.raw), DeltaOf(out.raw)))
    else other(w, out)
  }

  function ApplyAll<R>(other: (World<R>, Out) -> World<R>, w: World<R>, outs: seq<Out>): World<R> {
    if outs == [] then w else Apply(other, ApplyAll(other, w, outs[..|outs| - 1]), outs[|outs| - 1])
  }

  lemma {:induction false} ApplyAllConcat<R>(other: (World<R>, Out) -> World<R>, w: World<R>, a: seq<Out>, b: seq<Out>)
    ensures ApplyAll(other, w, a + b) == ApplyAll(other, ApplyAll(other, w, a), b)
  {
    if b == [] {
      assert a + b == a;
    } else {
      assert (a + b)[..|a + b| - 1] == a + b[..|b| - 1];
      ApplyAllConcat(other, w, a, b[..|b| - 1]);
    }
  }

  lemma AppendTwice(rows: map<RowKey, string>, key: RowKey, a: string, b: string)
    ensures Append(Append(rows, key, a), key, b) == Append(rows, key, a + b)
  {
    var had := if key in rows then rows[key] else "";
    assert (had + a) + b == had + (a + b);
  }

  lemma MergedApplies<R>(other: (World<R>, Out) -> World<R>, w: World<R>, batch: seq<Raw>)
    requires IsRun(batch)
    ensures Apply(other, w, Handled(Merged(batch)))
         == w.(rows := Append(w.rows, RowOf(batch[0]), JoinedText(batch)))
  {
    WithDeltaIsDelta(batch[0], JoinedText(batch));
    SameRunSameRow(batch[0], Merged(batch));
  }

  /** Publishing the result of a read neither reads nor writes the texts deltas append to. */
  ghost predicate LeavesTexts<R(!new)>(other: (World<R>, Out) -> World<R>) {
    forall w: World<R>, rows: map<RowKey, string>, out: Out {:trigger other(World(rows, w.rest), out), other(w, out)} ::
      out.Published? ==> other(World(rows, w.rest), out) == World(rows, other(w, out).rest)
  }

  /** Deltas of one row among read results: the texts are those of the deltas, the rest that of
      the results. */
  lemma {:induction false} MixedApplies<R(!new)>(other: (World<R>, Out) -> World<R>, w: World<R>, group: seq<Out>,
                                                 batch: seq<Raw>, key: RowKey)
    requires LeavesTexts(other) && Others(group) == HandledAll(batch)
    requires forall i :: 0 <= i < |batch| ==> IsDelta(batch[i]) && RowOf(batch[i]) == key
    ensures ApplyAll(other, w, Results(group)).rows == w.rows
    ensures ApplyAll(other, w, group)
         == World(if batch == [] then w.rows else Append(w.rows, key, JoinedText(batch)),
                  ApplyAll(other, w, Results(group)).rest)
  {
    if group != [] {
      var front, last := group[..|group| - 1], group[|group| - 1];
      FilterMore(front, last);
      assert group == front + [last];
      if last.Published? {
        MixedApplies(other, w, front, batch, key);
        OneMore(other, w, Results(front), last);
        var mixed, bare := ApplyAll(other, w, front), ApplyAll(other, w, Results(front));
        assert other(World(mixed.rows, bare.rest), last) == World(mixed.rows, other(bare, last).rest);
        assert other(World(bare.rows, bare.rest), last) == World(bare.rows, other(bare, last).rest);
      } else {
        LastOfBatch(Others(front), last, batch);
        assert Results(front) + [] == Results(front);
        MixedApplies(other, w, front, batch[..|batch| - 1], key);
        TextGrows(w.rows, key, batch);
      }
    } else {
      assert |HandledAll(batch)| == |batch|;
    }
  }

  lemma OneMore<R>(other: (World<R>, Out) -> World<R>, w: World<R>, outs: seq<Out>, out: Out)
    ensures ApplyAll(other, w, outs + [out]) == Apply(other, ApplyAll(other, w, outs), out)
  {
    assert (outs + [out])[..|outs|] == outs;
  }

  lemma LastOfBatch(outs: seq<Out>, last: Out, batch: seq<Raw>)
    requires outs + [last] == HandledAll(batch)
    ensures batch != [] && outs == HandledAll(batch[..|batch| - 1]) && last == Handled(batch[|batch| - 1])
  {
    assert (outs + [last])[|outs|] == last;
    assert |batch| == |outs| + 1;
    assert (outs + [last])[..|outs|] == outs;
    assert HandledAll(batch)[..|batch| - 1] == HandledAll(batch[..|batch| - 1]);
  }

  lemma TextGrows(rows: map<RowKey, string>, key: RowKey, batch: seq<Raw>)
    requires batch != [] && forall i :: 0 <= i < |batch| ==> IsDelta(batch[i])
    ensures var front, last := batch[..|batch| - 1], batch[|batch| - 1];
      Append(if front == [] then rows else Append(rows, key, JoinedText(front)), key, DeltaOf(last))
      == Append(rows, key, JoinedText(batch))
  {
    var front, last := batch[..|batch| - 1], batch[|batch| - 1];
    if front == [] {
      assert JoinedText(batch) == "" + DeltaOf(last) == DeltaOf(last);
    } else {
      AppendTwice(rows, key, JoinedText(front), DeltaOf(last));
    }
  }

  /** A merged batch, behind the results that went ahead of it, leaves the timeline its deltas
      and those results leave in the order they came. */
  lemma MergedAppendsTheSame<R(!new)>(other: (World<R>, Out) -> World<R>, w: World<R>, outs: seq<Out>, group: seq<Out>)
    requires LeavesTexts(other) && StandsFor(outs, group)
    ensures ApplyAll(other, w, outs) == ApplyAll(other, w, group)
  {
    if outs != group {
      var batch: seq<Raw> :| IsRun(batch) && Others(group) == HandledAll(batch)
        && outs == Results(group) + [Handled(Merged(batch))];
      forall i | 0 <= i < |batch|
        ensures RowOf(batch[i]) == RowOf(batch[0])
      {
        SameRunSameRow(batch[0], batch[i]);
      }
      MixedApplies(other, w, group, batch, RowOf(batch[0]));
      OneMore(other, w, Results(group), Handled(Merged(batch)));
      MergedApplies(other, ApplyAll(other, w, Results(group)), batch);
    }
  }

  lemma {:induction false} PiecesApplyTheSame<R(!new)>(other: (World<R>, Out) -> World<R>, w: World<R>,
                                                       pieces: seq<Piece>)
    requires LeavesTexts(other) && Pieces(pieces)
    ensures ApplyAll(other, w, Batched(pieces)) == ApplyAll(other, w, Unbatched(pieces))
  {
    if pieces != [] {
      var front, last := pieces[..|pieces| - 1], pieces[|pieces| - 1];
      PiecesApplyTheSame(other, w, front);
      ApplyAllConcat(other, w, Batched(front), last.outs);
      ApplyAllConcat(other, w, Unbatched(front), last.group);
      MergedAppendsTheSame(other, ApplyAll(other, w, Batched(front)), last.outs, last.group);
    }
  }

  /** Batching preserves meaning: once the channel has closed, what the pump has done is what
      the unbatched one does with adjacent deltas merged and the reads joined while a batch
      waited put ahead of it: nothing lost, nothing else reordered. Whatever the handler does
      with other events, the timelines are equal as long as results leave texts alone. */
  lemma BatchingPreservesMeaning<R(!new)>(steps: seq<Step>, other: (World<R>, Out) -> World<R>, w: World<R>)
    requires Run(steps).closed
    ensures Batches(Run(steps).stream, RunPlain(steps).stream)
    ensures LeavesTexts(other) ==> ApplyAll(other, w, Run(steps).stream) == ApplyAll(other, w, RunPlain(steps).stream)
  {
    RunRefines(steps);
    WaitingBatchIsAllThatIsBehind(steps, other, w);
    var stream := Run(steps).stream;
    assert stream + [] == stream;
  }

  /** Before the close, flushing what waits brings the timeline to the unbatched one. */
  lemma WaitingBatchIsAllThatIsBehind<R(!new)>(steps: seq<Step>, other: (World<R>, Out) -> World<R>, w: World<R>)
    ensures var caught := Run(steps).stream + Flushed(Run(steps).batch);
      && Batches(caught, RunPlain(steps).stream)
      && (LeavesTexts(other) ==> ApplyAll(other, w, caught) == ApplyAll(other, w, RunPlain(steps).stream))
  {
    RunRefines(steps);
    FlushRefines(Run(steps), RunPlain(steps));
    var caught := Run(steps).stream + Flushed(Run(steps).batch);
    if LeavesTexts(other) {
      var pieces :| Pieces(pieces) && Batched(pieces) == caught && Unbatched(pieces) == RunPlain(steps).stream;
      PiecesApplyTheSame(other, w, pieces);
    }
  }

  // ---------------------------------------------------------------------------
  // Delivered reads.

  lemma ReceiveKeepsReads(rs: Reads, raw: Raw, answers: Answers)
    requires ReadsInv(rs) && answers.nextTask !in rs.tasks
    ensures ReadsInv(ReceiveOther(rs, raw, answers).0)
  {
    if IsCut(raw) {
      InvalidateKeeps(rs, CutBy(raw));
    }
    var kept := if IsCut(raw) then Invalidate(rs, CutBy(raw)) else rs;
    var next := ReceiveOther(rs, raw, answers).0;
    if next != kept {
      StartKeeps(kept, AsStr(Field(raw.data, "sessionID")).value, AsStr(Field(raw.data, "inboxID")).value,
                 answers.nextTask);
    }
  }

  /** Over any run: at most eight tasks, a task behind every live read, no two live reads of
      one message, and a log in which each read finishes at most once and only if nothing that
      affects it came between. */
  lemma {:induction false} RunKeepsReads(steps: seq<Step>)
    ensures ReadsInv(Run(steps).delivered)
  {
    if steps != [] {
      var before, step := Run(steps[..|steps| - 1]), steps[|steps| - 1];
      RunKeepsReads(steps[..|steps| - 1]);
      if !before.closed && Enabled(before.delivered, step) {
        match step
        case DeadlinePassed(_) =>
        case Joined(id, outcome) => CompleteKeeps(before.delivered, id, outcome);
        case Received(raw, answers, _) => ReceiveKeepsReads(before.delivered, raw, answers);
        case Lagged => InvalidateKeeps(before.delivered, CutByLag);
        case Closed =>
      }
    }
  }

  /** Invalidation wins over late completions: a read begun before a deletion, a committed
      revert, a matching cancel, a stream resync or a lag is never committed after it. */
  lemma InvalidationWins(steps: seq<Step>, start: nat, cut: nat, finish: nat)
    requires var log := Run(steps).delivered.log;
      start < cut < finish < |log| && log[start].Started? && log[cut].Invalidated?
      && Affects(log[cut].cut, log[start].asid, log[start].inbox)
    ensures Run(steps).delivered.log[finish] != Finished(start, Committed)
  {
    RunKeepsReads(steps);
  }

  /** Every cut the stream carries is in the log, so the last lemma speaks of all of them. */
  lemma CutsAreLogged(steps: seq<Step>, step: Step)
    requires var pump := Run(steps); !pump.closed && Enabled(pump.delivered, step)
    requires step.Lagged? || (step.Received? && IsCut(step.raw))
    ensures var cut := if step.Lagged? then CutByLag else CutBy(step.raw);
      Run(steps + [step]).delivered.log == Run(steps).delivered.log + [Invalidated(cut)]
  {
  }

  // ---------------------------------------------------------------------------
  // What is published is what the history of the reads says finished.

  function ResultsOf(log: seq<ReadEvent>): seq<Out> {
    if log == [] then []
    else
      var front, last := log[..|log| - 1], log[|log| - 1];
      ResultsOf(front) +
      (if last.Finished? && last.serial < |front| && front[last.serial].Started?
       then [Published(Entry(front[last.serial].asid, front[last.serial].inbox, last.serial), last.outcome)] else [])
  }

  lemma {:induction false} ResultsConcat(a: seq<Out>, b: seq<Out>)
    ensures Results(a + b) == Results(a) + Results(b)
  {
    if b == [] {
      assert a + b == a;
    } else {
      assert (a + b)[..|a + b| - 1] == a + b[..|b| - 1];
      ResultsConcat(a, b[..|b| - 1]);
    }
  }

  lemma LogOneMore(log: seq<ReadEvent>, event: ReadEvent)
    ensures !event.Finished? ==> ResultsOf(log + [event]) == ResultsOf(log)
    ensures event.Finished? && event.serial < |log| && log[event.serial].Started? ==>
      ResultsOf(log + [event])
      == ResultsOf(log) + [Published(Entry(log[event.serial].asid, log[event.serial].inbox, event.serial),
                                     event.outcome)]
  {
    assert (log + [event])[..|log|] == log;
  }

  lemma JoinIsLogged(rs: Reads, id: TaskId, outcome: Outcome)
    requires ReadsInv(rs)
    ensures ResultsOf(Join(rs, id, outcome).0.log) == ResultsOf(rs.log) + Results(Join(rs, id, outcome).1)
  {
    if id in rs.pending {
      assert EntryInv(rs, id);
      LogOneMore(rs.log, Finished(rs.pending[id].serial, outcome));
      FilterMore([], Published(rs.pending[id], outcome));
      assert [] + [Published(rs.pending[id], outcome)] == [Published(rs.pending[id], outcome)];
    }
  }

  lemma OtherIsLogged(rs: Reads, raw: Raw, answers: Answers)
    ensures var (next, out) := ReceiveOther(rs, raw, answers);
      ResultsOf(next.log) == ResultsOf(rs.log) && Results(out) == []
  {
    var kept := if IsCut(raw) then Invalidate(rs, CutBy(raw)) else rs;
    LogOneMore(rs.log, Invalidated(CutBy(raw)));
    OutputsOfOther(rs, raw, answers);
    var (next, out) := ReceiveOther(rs, raw, answers);
    if next != kept {
      LogOneMore(kept.log, next.log[|kept.log|]);
    }
    if out != [] {
      NoResult([], out[0]);
      assert out == [] + [out[0]];
    }
  }

  lemma OutputsOfOther(rs: Reads, raw: Raw, answers: Answers)
    ensures var kept := if IsCut(raw) then Invalidate(rs, CutBy(raw)) else rs;
      var (next, out) := ReceiveOther(rs, raw, answers);
      && |out| <= 1 && (forall i :: 0 <= i < |out| ==> !out[i].Published?)
      && (next == kept || exists event: ReadEvent :: event.Started? && next.log == kept.log + [event])
  {
    var kept := if IsCut(raw) then Invalidate(rs, CutBy(raw)) else rs;
    var next := ReceiveOther(rs, raw, answers).0;
    if next != kept {
      assert next.log == kept.log + [Started(AsStr(Field(raw.data, "sessionID")).value,
                                             AsStr(Field(raw.data, "inboxID")).value)];
    }
  }

  lemma NoResult(stream: seq<Out>, out: Out)
    requires !out.Published?
    ensures Results(stream + [out]) == Results(stream)
  {
    FilterMore(stream, out);
  }

  lemma FlushHasNoResult(pump: Pump)
    requires C.Waiting(pump.batch)
    ensures Results(pump.stream + Flushed(pump.batch)) == Results(pump.stream)
  {
    if pump.batch == [] {
      assert pump.stream + [] == pump.stream;
    } else {
      NoResult(pump.stream, Handled(Merged(pump.batch)));
    }
  }

  lemma GrownHasNoResult(pump: Pump, sent: seq<Out>, batch: seq<Raw>, due: nat)
    requires IsRun(batch)
    ensures Results(Grown(pump, sent, batch, due).stream) == Results(sent)
  {
    NoResult(sent, Handled(Merged(batch)));
  }

  lemma DeltaHasNoResult(pump: Pump, raw: Raw, now: nat)
    requires C.Waiting(pump.batch) && IsDelta(raw)
    ensures Results(ReceiveDelta(pump, raw, now).stream) == Results(pump.stream)
  {
    if C.Joins(pump.batch, raw) {
      C.JoinKeepsRun(pump.batch, raw);
      GrownHasNoResult(pump, pump.stream, pump.batch + [raw], pump.due);
    } else {
      FlushHasNoResult(pump);
      MergedOne(raw);
      GrownHasNoResult(pump, pump.stream + Flushed(pump.batch), [raw], now + DELTA_FLUSH_DELAY);
    }
  }

  ghost predicate Logged(pump: Pump) {
    Results(pump.stream) == ResultsOf(pump.delivered.log)
  }

  lemma ReceiveIsLogged(pump: Pump, raw: Raw, answers: Answers, now: nat)
    requires C.Waiting(pump.batch) && Logged(pump)
    ensures Logged(Advance(pump, Received(raw, answers, now)))
  {
    if IsDelta(raw) {
      DeltaHasNoResult(pump, raw, now);
    } else {
      FlushHasNoResult(pump);
      OtherIsLogged(pump.delivered, raw, answers);
      ResultsConcat(pump.stream + Flushed(pump.batch), ReceiveOther(pump.delivered, raw, answers).1);
    }
  }

  lemma StepIsLogged(pump: Pump, step: Step)
    requires C.Waiting(pump.batch) && ReadsInv(pump.delivered) && Logged(pump)
    ensures Logged(Advance(pump, step))
  {
    match step
    case DeadlinePassed(_) => FlushHasNoResult(pump);
    case Joined(id, outcome) =>
      JoinIsLogged(pump.delivered, id, outcome);
      ResultsConcat(pump.stream, Join(pump.delivered, id, outcome).1);
    case Received(raw, answers, now) => ReceiveIsLogged(pump, raw, answers, now);
    case Lagged =>
      FlushHasNoResult(pump);
      LogOneMore(pump.delivered.log, Invalidated(CutByLag));
      NoResult(pump.stream + Flushed(pump.batch), LAG_RESYNC);
    case Closed => FlushHasNoResult(pump);
  }

  /** The results the stream publishes are the finishes in the log, in order, each for the
      session and message its read was begun for. */
  lemma {:induction false} PublishedAreLogged(steps: seq<Step>)
    ensures Results(Run(steps).stream) == ResultsOf(Run(steps).delivered.log)
  {
    if steps != [] {
      PublishedAreLogged(steps[..|steps| - 1]);
      RunKeepsReads(steps[..|steps| - 1]);
      StepIsLogged(Run(steps[..|steps| - 1]), steps[|steps| - 1]);
    }
  }

  // ---------------------------------------------------------------------------
  // The loop.

  method HandOn(stream: seq<Out>, taken: Option<Raw>) returns (next: seq<Out>)
    ensures next == if taken.Some? then stream + [Handled(taken.value)] else stream
  {
    return if taken.Some? then stream + [Handled(taken.value)] else stream;
  }

  /** The variables of the loop hold what the run says, the waiting batch's deadline included. */
  ghost predicate Left(pump: Pump, deltas: C.DeltaCoalescer, delivered: Reads, stream: seq<Out>, closed: bool)
    reads deltas
    requires deltas.Valid()
  {
    && pump.batch == deltas.batch && pump.delivered == delivered && pump.stream == stream && pump.closed == closed
    && (deltas.batch != [] ==> deltas.pending.value.deadline == pump.due)
  }

  /** The pump over any schedule of its five events: it leaves exactly the run's stream, reads
      and waiting batch. */
  method PumpEvents(steps: seq<Step>)
    returns (deltas: C.DeltaCoalescer, delivered: Reads, stream: seq<Out>, closed: bool)
    ensures fresh(deltas) && deltas.Valid()
    ensures Left(Run(steps), deltas, delivered, stream, closed)
    ensures ReadsInv(delivered)
  {
    deltas := new C.DeltaCoalescer();
    delivered, stream, closed := IDLE, [], false;
    var i := 0;
    while i < |steps| && !closed
      invariant 0 <= i <= |steps|
      invariant fresh(deltas) && deltas.Valid()
      invariant Left(Run(steps[..i]), deltas, delivered, stream, closed)
    {
      assert steps[..i + 1][..i] == steps[..i];
      var step := steps[i];
      i := i + 1;
      if !Enabled(delivered, step) {
        continue;
      }
      match step
      case DeadlinePassed(now) =>
        var deadline := deltas.Deadline();
        if deadline.Some? && deadline.value <= now {
          var taken := deltas.Take();
          stream := HandOn(stream, taken);
        }
      case Joined(id, outcome) =>
        delivered, stream := Publish(delivered, stream, id, outcome);
      case Received(raw, answers, now) =>
        delivered, stream := Receive(deltas, delivered, stream, raw, answers, now, Run(steps[..i - 1]));
      case Lagged =>
        var taken := deltas.Take();
        stream := HandOn(stream, taken);
        delivered := Invalidate(delivered, CutByLag);
        stream := stream + [LAG_RESYNC];
      case Closed =>
        var taken := deltas.Take();
        stream := HandOn(stream, taken);
        closed := true;
    }
    ClosedStays(steps, i);
    RunKeepsReads(steps);
  }

  /** A joined task is forgotten; its result is published if its read is still pending. */
  method Publish(delivered: Reads, stream: seq<Out>, id: TaskId, outcome: Outcome) returns (rs: Reads, next: seq<Out>)
    ensures rs == Join(delivered, id, outcome).0 && next == stream + Join(delivered, id, outcome).1
  {
    rs := Complete(delivered, id, outcome);
    next := stream;
    if id in delivered.pending {
      next := next + [Published(delivered.pending[id], outcome)];
    }
  }

  lemma {:induction false} ClosedStays(steps: seq<Step>, i: nat)
    requires i <= |steps| && (i < |steps| ==> Run(steps[..i]).closed)
    ensures Run(steps) == Run(steps[..i])
    decreases |steps| - i
  {
    if i == |steps| {
      assert steps[..i] == steps;
    } else {
      assert steps[..i + 1][..i] == steps[..i];
      ClosedStays(steps, i + 1);
    }
  }

  method Receive(deltas: C.DeltaCoalescer, delivered: Reads, stream: seq<Out>, raw: Raw, answers: Answers, now: nat,
                 ghost pump: Pump)
    returns (rs: Reads, next: seq<Out>)
    requires deltas.Valid() && Left(pump, deltas, delivered, stream, false)
    requires Enabled(delivered, Received(raw, answers, now))
    modifies deltas
    ensures deltas.Valid()
    ensures Left(Advance(pump, Received(raw, answers, now)), deltas, rs, next, false)
  {
    rs, next := delivered, stream;
    var joins := deltas.CanMerge(raw);
    if !joins {
      var taken := deltas.Take();
      next := HandOn(next, taken);
    }
    if IsDelta(raw) {
      next := PushOn(deltas, next, raw, now, if joins then pump.due else now + DELTA_FLUSH_DELAY, pump);
      assert [] + [raw] == [raw];
    } else {
      var out;
      rs, out := OtherReceived(delivered, raw, answers);
      next := next + out;
    }
  }

  method PushOn(deltas: C.DeltaCoalescer, stream: seq<Out>, raw: Raw, now: nat, ghost due: nat, ghost pump: Pump)
    returns (next: seq<Out>)
    requires deltas.Valid() && IsDelta(raw) && (deltas.batch != [] ==> C.Joins(deltas.batch, raw))
    requires if deltas.batch == [] then due == now + DELTA_FLUSH_DELAY else due == deltas.pending.value.deadline
    requires !pump.closed
    modifies deltas
    ensures deltas.Valid() && IsRun(old(deltas.batch) + [raw])
    ensures Left(Grown(pump, stream, old(deltas.batch) + [raw], due), deltas, pump.delivered, next, false)
  {
    var full := deltas.Push(raw, now);
    next := HandOn(stream, full);
  }

  /** Invalidates, then begins a read of a delivered message, asks for a resync, or hands the
      event on. */
  method OtherReceived(delivered: Reads, raw: Raw, answers: Answers) returns (rs: Reads, out: seq<Out>)
    ensures (rs, out) == ReceiveOther(delivered, raw, answers)
  {
    rs := delivered;
    var session, inbox := AsStr(Field(raw.data, "sessionID")), AsStr(Field(raw.data, "inboxID"));
    if IsCut(raw) {
      rs := Invalidate(rs, CutBy(raw));
    }
    if raw.eventType == "session.inbox.delivered" && session.Some? && inbox.Some? && !answers.withoutMessage {
      if Reading(rs, session.value, inbox.value) {
        return rs, [];
      }
      if |rs.tasks| == MAX_DELIVERED_READS {
        return rs, [Resynced(session.value, "delivered_message_read_capacity")];
      }
      if !answers.revisionKnown {
        return rs, [Resynced(session.value, "delivered_message_session_changed")];
      }
      return Start(rs, session.value, inbox.value, answers.nextTask), [];
    }
    return rs, [Handled(raw)];
  }
}
