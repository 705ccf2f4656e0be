/** What runs of the event pump do, told by their steps alone: when a batch goes, which deltas
    share one, and which reads are published. */
module EventPumpRuns {
  import opened Wrappers
  import opened Text
  import opened OpencodeEvents
  import C = DeltaCoalescer
  import opened DeliveredReads
  import opened EventPump

  lemma RunMore(steps: seq<Step>, step: Step)
    ensures Run(steps + [step]) == Advance(Run(steps), step)
    ensures RunPlain(steps + [step]) == AdvancePlain(RunPlain(steps), step)
  {
    assert (steps + [step])[..|steps|] == steps;
  }

  // ---------------------------------------------------------------------------
  // Deadlines.

  predicate ReceivesDelta(step: Step) {
    step.Received? && IsDelta(step.raw)
  }

  ghost predicate WaitsBehind(pump: Pump, raw: Raw) {
    pump.batch != [] && pump.batch[0] == raw
  }

  /** The delta that step `i` received began the batch, and has waited at its head since. */
  ghost predicate BeganAt(steps: seq<Step>, i: nat) {
    && i < |steps| && ReceivesDelta(steps[i]) && WaitsBehind(Run(steps), steps[i].raw)
    && (i < |steps| - 1 ==> BeganAt(steps[..|steps| - 1], i))
  }

  /** The batch of `next` is that of `pump` or one more delta behind it, under the same deadline. */
  ghost predicate GoesOn(pump: Pump, next: Pump) {
    pump.batch != [] && next.batch != [] && next.batch[0] == pump.batch[0] && next.due == pump.due
  }

  lemma DeltaKeepsBatch(pump: Pump, raw: Raw, now: nat)
    requires C.Waiting(pump.batch) && IsDelta(raw)
    ensures var next := ReceiveDelta(pump, raw, now);
      next.batch == [] || GoesOn(pump, next) || (next.batch == [raw] && next.due == now + DELTA_FLUSH_DELAY)
  {
    if C.Joins(pump.batch, raw) {
      C.JoinKeepsRun(pump.batch, raw);
      GrownBatch(pump, pump.stream, pump.batch + [raw], pump.due);
    } else {
      MergedOne(raw);
      GrownBatch(pump, pump.stream + Flushed(pump.batch), [raw], now + DELTA_FLUSH_DELAY);
    }
  }

  lemma GrownBatch(pump: Pump, sent: seq<Out>, batch: seq<Raw>, due: nat)
    requires IsRun(batch)
    ensures var next := Grown(pump, sent, batch, due); next.batch == [] || (next.batch == batch && next.due == due)
  {
  }

  lemma StepKeepsBatch(pump: Pump, step: Step)
    requires C.Waiting(pump.batch)
    ensures var next := Advance(pump, step);
      || next.batch == [] || GoesOn(pump, next)
      || (ReceivesDelta(step) && next.batch == [step.raw] && next.due == step.now + DELTA_FLUSH_DELAY)
  {
    if ReceivesDelta(step) {
      DeltaKeepsBatch(pump, step.raw, step.now);
    }
  }

  /** A batch that waits was begun by one of the deltas received, and goes forty milliseconds
      after that one came, whatever has joined it since. */
  lemma {:induction false} BatchBegan(steps: seq<Step>) returns (i: nat)
    requires Run(steps).batch != []
    ensures BeganAt(steps, i) && Run(steps).due == steps[i].now + DELTA_FLUSH_DELAY
  {
    var n := |steps| - 1;
    var before, now := Run(steps[..n]), Run(steps);
    StepKeepsBatch(before, steps[n]);
    if GoesOn(before, now) {
      i := BatchBegan(steps[..n]);
    } else {
      i := n;
    }
  }

  /** A deadline hands the batch on exactly when the delta that began it is old enough. */
  lemma DeadlineExactly(steps: seq<Step>, now: nat) returns (i: nat)
    requires Run(steps).batch != [] && !Run(steps).closed
    ensures BeganAt(steps, i)
    ensures Run(steps + [DeadlinePassed(now)])
         == if steps[i].now + DELTA_FLUSH_DELAY <= now
            then Run(steps).(batch := [], stream := Run(steps).stream + [Handled(Merged(Run(steps).batch))])
            else Run(steps)
  {
    i := BatchBegan(steps);
    RunMore(steps, DeadlinePassed(now));
  }

  /** Nothing waits past its deadline: when every delta was received at least forty milliseconds
      ago, the stream alone stands for all that the unbatched pump has put out. */
  lemma DeadlineLeavesNothing(steps: seq<Step>, now: nat)
    requires forall i :: 0 <= i < |steps| && ReceivesDelta(steps[i]) ==> steps[i].now + DELTA_FLUSH_DELAY <= now
    ensures Run(steps + [DeadlinePassed(now)]).batch == []
    ensures Batches(Run(steps + [DeadlinePassed(now)]).stream, RunPlain(steps).stream)
  {
    var longer := steps + [DeadlinePassed(now)];
    RunRefines(steps);
    RunRefines(longer);
    RunMore(steps, DeadlinePassed(now));
    if Run(steps).batch != [] {
      var i := BatchBegan(steps);
      assert ReceivesDelta(steps[i]);
    }
    FlushRefines(Run(longer), RunPlain(longer));
    assert Run(longer).stream + [] == Run(longer).stream;
  }

  // ---------------------------------------------------------------------------
  // Merging.

  lemma NextOfRun(batch: seq<Raw>, raw: Raw)
    requires IsRun(batch + [raw])
    requires Utf8Len(JoinedText(batch + [raw])) <= MAX_PENDING_DELTA_BYTES
    ensures IsDelta(raw) && forall i :: 0 <= i < |batch| ==> IsDelta(batch[i])
    ensures batch != [] ==> C.Joins(batch, raw)
  {
    var more := batch + [raw];
    assert more[|batch|] == raw && more[..|batch|] == batch;
    assert forall i :: 0 <= i < |batch| ==> batch[i] == more[i];
    Utf8LenConcat(JoinedText(batch), DeltaOf(raw));
  }

  /** One more delta of the run that waits. */
  lemma DeltaJoins(pump: Pump, raw: Raw, answers: Answers, now: nat)
    requires C.Waiting(pump.batch) && !pump.closed && answers.nextTask !in pump.delivered.tasks
    requires IsRun(pump.batch + [raw])
    requires Utf8Len(JoinedText(pump.batch + [raw])) <= MAX_PENDING_DELTA_BYTES
    ensures var next := Advance(pump, Received(raw, answers, now));
      if Utf8Len(JoinedText(pump.batch + [raw])) < MAX_PENDING_DELTA_BYTES
      then next == pump.(batch := pump.batch + [raw], due := next.due)
      else next == pump.(batch := [], stream := pump.stream + [Handled(Merged(pump.batch + [raw]))])
  {
    NextOfRun(pump.batch, raw);
    if pump.batch == [] {
      assert pump.batch + [raw] == [raw] && pump.stream + [] == pump.stream;
      assert Advance(pump, Received(raw, answers, now))
          == Grown(pump, pump.stream, [raw], now + DELTA_FLUSH_DELAY);
    } else {
      assert Advance(pump, Received(raw, answers, now)) == Grown(pump, pump.stream, pump.batch + [raw], pump.due);
    }
  }

  lemma PrefixIsShorter(batch: seq<Raw>, raw: Raw)
    requires batch != [] && IsRun(batch + [raw])
    ensures IsRun(batch) && Utf8Len(JoinedText(batch)) <= Utf8Len(JoinedText(batch + [raw]))
  {
    var more := batch + [raw];
    assert more[|batch|] == raw && more[..|batch|] == batch;
    assert forall i :: 0 <= i < |batch| ==> batch[i] == more[i];
    Utf8LenConcat(JoinedText(batch), DeltaOf(raw));
  }

  /** Since `before`, `batch` has come to wait and nothing else has changed. */
  ghost predicate OnlyWaits(before: Pump, after: Pump, batch: seq<Raw>) {
    after == before.(batch := batch, due := after.due)
  }

  lemma OneMoreWaits(before: Pump, pump: Pump, batch: seq<Raw>, step: Step)
    requires C.Waiting(pump.batch) && OnlyWaits(before, pump, batch) && !before.closed && step.Received?
    requires step.answers.nextTask !in before.delivered.tasks
    requires IsRun(batch + [step.raw]) && Utf8Len(JoinedText(batch + [step.raw])) < MAX_PENDING_DELTA_BYTES
    ensures OnlyWaits(before, Advance(pump, step), batch + [step.raw])
  {
    DeltaJoins(pump, step.raw, step.answers, step.now);
  }

  /** The events that the steps from `k` on receive. */
  function RawsFrom(steps: seq<Step>, k: nat): seq<Raw>
    requires k <= |steps| && forall j :: k <= j < |steps| ==> steps[j].Received?
  {
    if k == |steps| then [] else RawsFrom(steps[..|steps| - 1], k) + [steps[|steps| - 1].raw]
  }

  /** The deltas of one run, received one after the other, wait as one batch and put nothing out
      as long as all of them together are shorter than eight kibibytes. */
  lemma {:induction false} RunWaitsAsOne(steps: seq<Step>, k: nat)
    requires k < |steps| && forall j :: k <= j < |steps| ==> steps[j].Received?
    requires !Run(steps[..k]).closed && Run(steps[..k]).batch == []
    requires forall j :: k <= j < |steps| ==> steps[j].answers.nextTask !in Run(steps[..k]).delivered.tasks
    requires IsRun(RawsFrom(steps, k)) && Utf8Len(JoinedText(RawsFrom(steps, k))) < MAX_PENDING_DELTA_BYTES
    ensures OnlyWaits(Run(steps[..k]), Run(steps), RawsFrom(steps, k))
    decreases |steps|
  {
    var front, last := steps[..|steps| - 1], steps[|steps| - 1];
    var before, waiting := Run(steps[..k]), RawsFrom(front, k);
    assert RawsFrom(steps, k) == waiting + [last.raw];
    if k < |front| {
      assert front[..k] == steps[..k];
      PrefixIsShorter(waiting, last.raw);
      RunWaitsAsOne(front, k);
      assert OnlyWaits(before, Run(front), waiting);
    } else {
      assert front == steps[..k];
      assert OnlyWaits(before, Run(front), waiting);
    }
    OneMoreWaits(before, Run(front), waiting, last);
    assert Run(steps) == Advance(Run(front), last);
  }

  // ---------------------------------------------------------------------------
  // What the unbatched pump does with what it receives.

  /** Announces that message `inbox` of session `asid` was delivered. */
  predicate Delivers(raw: Raw, asid: string, inbox: string) {
    && raw.eventType == "session.inbox.delivered"
    && Field(raw.data, "sessionID") == Some(Str(asid)) && Field(raw.data, "inboxID") == Some(Str(inbox))
  }

  /** Every event but one that announces a delivered message is handed on, and a lag asks for a
      resync. */
  lemma HandsOnWhatItReceives(steps: seq<Step>, raw: Raw, answers: Answers, now: nat)
    requires !RunPlain(steps).closed
    ensures (&& answers.nextTask !in RunPlain(steps).delivered.tasks
             && (answers.withoutMessage || forall asid, inbox :: !Delivers(raw, asid, inbox))) ==>
      RunPlain(steps + [Received(raw, answers, now)]).stream == RunPlain(steps).stream + [Handled(raw)]
    ensures RunPlain(steps + [Lagged]).stream
         == RunPlain(steps).stream + [Resynced("", "event_backlog_overflow")]
  {
    RunMore(steps, Received(raw, answers, now));
    RunMore(steps, Lagged);
    var session, inbox := AsStr(Field(raw.data, "sessionID")), AsStr(Field(raw.data, "inboxID"));
    if raw.eventType == "session.inbox.delivered" && session.Some? && inbox.Some? {
      assert Delivers(raw, session.value, inbox.value);
    }
  }

  /** The read that step `k` asks for can begin: the pump is open, knows the session, is not
      reading this message already and has a task to spare. */
  ghost predicate CanRead(steps: seq<Step>, k: nat, asid: string, inbox: string) {
    && k < |steps| && steps[k].Received? && Delivers(steps[k].raw, asid, inbox)
    && !steps[k].answers.withoutMessage && steps[k].answers.revisionKnown
    && var before := Run(steps[..k]);
      && !before.closed && steps[k].answers.nextTask !in before.delivered.tasks
      && |before.delivered.tasks| < MAX_DELIVERED_READS
      && !IsReading(before.delivered, asid, inbox)
  }

  ghost predicate IsReading(rs: Reads, asid: string, inbox: string) {
    exists id :: id in rs.pending && rs.pending[id].asid == asid && rs.pending[id].inbox == inbox
  }

  lemma CannotStart(rs: Reads, raw: Raw, answers: Answers, asid: string, inbox: string)
    requires Delivers(raw, asid, inbox) && !answers.withoutMessage
    requires IsReading(rs, asid, inbox) || |rs.tasks| == MAX_DELIVERED_READS || !answers.revisionKnown
    ensures !IsDelta(raw)
    ensures ReceiveOther(rs, raw, answers)
         == (rs, if IsReading(rs, asid, inbox) then []
                 else [Resynced(asid, if |rs.tasks| == MAX_DELIVERED_READS then "delivered_message_read_capacity"
                                      else "delivered_message_session_changed")])
  {
    assert IsReading(rs, asid, inbox) <==> Reading(rs, asid, inbox);
  }

  /** One that cannot: nothing happens for a message that is being read, and clients are asked
      to resync when no task is left or the session is not known. */
  lemma CannotRead(steps: seq<Step>, raw: Raw, answers: Answers, now: nat, asid: string, inbox: string)
    requires !RunPlain(steps).closed && answers.nextTask !in RunPlain(steps).delivered.tasks
    requires Delivers(raw, asid, inbox) && !answers.withoutMessage
    requires var rs := RunPlain(steps).delivered;
      IsReading(rs, asid, inbox) || |rs.tasks| == MAX_DELIVERED_READS || !answers.revisionKnown
    ensures var rs, after := RunPlain(steps).delivered, RunPlain(steps + [Received(raw, answers, now)]);
      && after.delivered == rs && !after.closed
      && after.stream == RunPlain(steps).stream +
           (if IsReading(rs, asid, inbox) then []
            else [Resynced(asid, if |rs.tasks| == MAX_DELIVERED_READS then "delivered_message_read_capacity"
                                 else "delivered_message_session_changed")])
  {
    RunMore(steps, Received(raw, answers, now));
    CannotStart(RunPlain(steps).delivered, raw, answers, asid, inbox);
  }

  // ---------------------------------------------------------------------------
  // A read from its beginning to its end.

  /** What makes a read stale: a lag, a stream resync, the session deleted or reverted, or the
      message cancelled. */
  predicate Drops(step: Step, asid: string, inbox: string) {
    || step.Lagged?
    || (step.Received? &&
          var kind, data := step.raw.eventType, step.raw.data;
          || kind == "gateway.stream.resync"
          || (kind == "session.deleted" && Field(data, "sessionID") == Some(Str(asid)))
          || (kind == "session.revert.committed" && Field(data, "sessionID") == Some(Str(asid)))
          || (kind == "session.inbox.cancelled" && Field(data, "sessionID") == Some(Str(asid))
              && Field(data, "inboxID") == Some(Str(inbox))))
  }

  /** The pump is open and the task still runs; its read is wanted, for `entry`, or not. */
  ghost predicate ReadIs(pump: Pump, id: TaskId, entry: Entry, wanted: bool) {
    && !pump.closed && id in pump.delivered.tasks
    && (id in pump.delivered.pending <==> wanted)
    && (id in pump.delivered.pending ==> pump.delivered.pending[id] == entry)
  }

  lemma ReadBegins(pump: Pump, step: Step, asid: string, inbox: string)
    requires C.Waiting(pump.batch) && !pump.closed && step.Received? && Delivers(step.raw, asid, inbox)
    requires !step.answers.withoutMessage && step.answers.revisionKnown
    requires step.answers.nextTask !in pump.delivered.tasks && |pump.delivered.tasks| < MAX_DELIVERED_READS
    requires !IsReading(pump.delivered, asid, inbox)
    ensures ReadIs(Advance(pump, step), step.answers.nextTask, Entry(asid, inbox, |pump.delivered.log|), true)
  {
    assert !Reading(pump.delivered, asid, inbox);
  }

  /** A step that neither joins the task nor closes the pump leaves its read wanted exactly when
      it does not drop it. */
  lemma ReadGoesOn(pump: Pump, step: Step, id: TaskId, entry: Entry, wanted: bool)
    requires C.Waiting(pump.batch) && ReadIs(pump, id, entry, wanted)
    requires !step.Closed? && (step.Joined? ==> step.id != id)
    requires step.Received? ==> step.answers.nextTask !in pump.delivered.tasks
    ensures ReadIs(Advance(pump, step), id, entry, wanted && !Drops(step, entry.asid, entry.inbox))
  {
    if step.Received? && !IsDelta(step.raw) {
      OtherKeepsRead(pump.delivered, step, id, entry);
    }
  }

  lemma OtherKeepsRead(rs: Reads, step: Step, id: TaskId, entry: Entry)
    requires step.Received? && id in rs.tasks && step.answers.nextTask !in rs.tasks
    requires id in rs.pending ==> rs.pending[id] == entry
    ensures var next := ReceiveOther(rs, step.raw, step.answers).0;
      && id in next.tasks
      && (id in next.pending <==> id in rs.pending && !Drops(step, entry.asid, entry.inbox))
      && (id in next.pending ==> next.pending[id] == entry)
  {
    assert IsCut(step.raw) ==>
      (Affects(CutBy(step.raw), entry.asid, entry.inbox) <==> Drops(step, entry.asid, entry.inbox));
  }

  /** From step `k` on nobody joins the task, the channel stays open and task ids are new. */
  ghost predicate LeftRunning(steps: seq<Step>, k: nat, id: TaskId) {
    forall j :: k < j < |steps| ==>
      && !steps[j].Closed? && (steps[j].Joined? ==> steps[j].id != id)
      && (steps[j].Received? ==> steps[j].answers.nextTask !in Run(steps[..j]).delivered.tasks)
  }

  /** None of the steps after `k` makes the read stale. */
  ghost predicate NoneDrops(steps: seq<Step>, k: nat, asid: string, inbox: string) {
    forall j :: k < j < |steps| ==> !Drops(steps[j], asid, inbox)
  }

  lemma LeftRunningBefore(steps: seq<Step>, k: nat, id: TaskId)
    requires LeftRunning(steps, k, id) && k < |steps| - 1
    ensures LeftRunning(steps[..|steps| - 1], k, id)
  {
    var front := steps[..|steps| - 1];
    assert forall j :: k < j < |front| ==> front[..j] == steps[..j];
  }

  lemma LastStep(steps: seq<Step>, k: nat, id: TaskId, asid: string, inbox: string)
    requires k < |steps| - 1 && LeftRunning(steps, k, id)
    ensures var last := steps[|steps| - 1];
      && !last.Closed? && (last.Joined? ==> last.id != id)
      && (last.Received? ==> last.answers.nextTask !in Run(steps[..|steps| - 1]).delivered.tasks)
    ensures NoneDrops(steps, k, asid, inbox)
       <==> NoneDrops(steps[..|steps| - 1], k, asid, inbox) && !Drops(steps[|steps| - 1], asid, inbox)
  {
  }

  lemma {:induction false} ReadLives(steps: seq<Step>, k: nat, id: TaskId, entry: Entry)
    requires k < |steps| && LeftRunning(steps, k, id)
    requires ReadIs(Run(steps[..k + 1]), id, entry, true)
    ensures ReadIs(Run(steps), id, entry, NoneDrops(steps, k, entry.asid, entry.inbox))
    decreases |steps|
  {
    var front := steps[..|steps| - 1];
    if k == |steps| - 1 {
      assert steps[..k + 1] == steps;
    } else {
      assert front[..k + 1] == steps[..k + 1];
      LeftRunningBefore(steps, k, id);
      ReadLives(front, k, id, entry);
      LastStep(steps, k, id, entry.asid, entry.inbox);
      ReadGoesOn(Run(front), steps[|steps| - 1], id, entry, NoneDrops(front, k, entry.asid, entry.inbox));
      assert Run(steps) == Advance(Run(front), steps[|steps| - 1]);
    }
  }

  /** The life of a read: begun at step `k` and joined last, it is published, for its own session
      and message, exactly when none of the steps between drops it. */
  lemma PublishedExactly(steps: seq<Step>, k: nat, asid: string, inbox: string, outcome: Outcome)
    requires CanRead(steps, k, asid, inbox) && LeftRunning(steps, k, steps[k].answers.nextTask)
    ensures var entry := Entry(asid, inbox, |Run(steps[..k]).delivered.log|);
      Run(steps + [Joined(steps[k].answers.nextTask, outcome)]).stream
      == Run(steps).stream + (if NoneDrops(steps, k, asid, inbox) then [Published(entry, outcome)] else [])
  {
    var id, entry := steps[k].answers.nextTask, Entry(asid, inbox, |Run(steps[..k]).delivered.log|);
    assert steps[..k + 1][..k] == steps[..k];
    ReadBegins(Run(steps[..k]), steps[k], asid, inbox);
    ReadLives(steps, k, id, entry);
    RunMore(steps, Joined(steps[k].answers.nextTask, outcome));
  }
}
