/** The reads of delivered messages that `pump_events` of `manager.rs` keeps beside the stream:
    at most eight tasks, each possibly invalidated before its result comes back. */
module DeliveredReads {
  import opened Wrappers
  import opened OpencodeEvents

  const MAX_DELIVERED_READS: nat := 8

  type TaskId = nat

  /** What the join of a finished task brings: an unreadable message, one the mirror accepts
      or refuses, or a failed task. */
  datatype Outcome = Unreadable | Committed | SessionChanged | TaskFailed

  /** Why reads are dropped. */
  datatype Cut = CutBy(raw: Raw) | CutByLag

  datatype Entry = Entry(asid: string, inbox: string, serial: nat)

  /** The history of the reads. A read is known by the position of its `Started`. */
  datatype ReadEvent =
    | Started(asid: string, inbox: string)
    | Invalidated(cut: Cut)
    | Finished(serial: nat, outcome: Outcome)

  datatype Reads = Reads(tasks: set<TaskId>, pending: map<TaskId, Entry>, log: seq<ReadEvent>)

  const IDLE: Reads := Reads({}, map[], [])

  predicate IsCut(raw: Raw) {
    raw.eventType in {"session.deleted", "session.revert.committed", "session.inbox.cancelled", "gateway.stream.resync"}
  }

  /** Does this event or lag make a read of `inbox` in session `asid` stale? */
  predicate Affects(cut: Cut, asid: string, inbox: string) {
    match cut
    case CutByLag => true
    case CutBy(raw) =>
      IsCut(raw)
      && (raw.eventType == "gateway.stream.resync"
          || (AsStr(Field(raw.data, "sessionID")) == Some(asid)
              && (raw.eventType != "session.inbox.cancelled" || AsStr(Field(raw.data, "inboxID")) == Some(inbox))))
  }

  function Invalidate(rs: Reads, cut: Cut): Reads {
    rs.(
      pending := map id | id in rs.pending && !Affects(cut, rs.pending[id].asid, rs.pending[id].inbox)
                   :: rs.pending[id],
      log := rs.log + [Invalidated(cut)])
  }

  predicate Reading(rs: Reads, asid: string, inbox: string) {
    exists id :: id in rs.pending && rs.pending[id].asid == asid && rs.pending[id].inbox == inbox
  }

  function Start(rs: Reads, asid: string, inbox: string, id: TaskId): Reads {
    Reads(rs.tasks + {id}, rs.pending[id := Entry(asid, inbox, |rs.log|)],
          rs.log + [Started(asid, inbox)])
  }

  /** A joined task's result counts only while its entry is still pending. */
  function Complete(rs: Reads, id: TaskId, outcome: Outcome): Reads {
    var left := rs.(tasks := rs.tasks - {id});
    if id in rs.pending
    then left.(pending := rs.pending - {id}, log := rs.log + [Finished(rs.pending[id].serial, outcome)])
    else left
  }

  // ---------------------------------------------------------------------------
  // What every run keeps.

  /** Nothing between positions `from` and `to` of the log affects the read started at `from`. */
  ghost predicate Undisturbed(log: seq<ReadEvent>, start: nat, to: nat) {
    && start < to <= |log| && log[start].Started?
    && forall k :: start < k < to && log[k].Invalidated? ==> !Affects(log[k].cut, log[start].asid, log[start].inbox)
  }

  ghost predicate Unfinished(log: seq<ReadEvent>, serial: nat) {
    forall k :: 0 <= k < |log| && log[k].Finished? ==> log[k].serial != serial
  }

  ghost predicate EntryInv(rs: Reads, id: TaskId)
    requires id in rs.pending
  {
    var e := rs.pending[id];
    && id in rs.tasks
    && Undisturbed(rs.log, e.serial, |rs.log|)
    && rs.log[e.serial] == Started(e.asid, e.inbox)
    && Unfinished(rs.log, e.serial)
  }

  /** Every finish in the log is of a read nothing had made stale, and the only one of it. */
  ghost predicate SafeLog(log: seq<ReadEvent>) {
    && (forall k :: 0 <= k < |log| && log[k].Finished? ==> Undisturbed(log, log[k].serial, k))
    && (forall i, k :: 0 <= i < k < |log| && log[i].Finished? && log[k].Finished? ==> log[i].serial != log[k].serial)
  }

  ghost predicate ReadsInv(rs: Reads) {
    && |rs.tasks| <= MAX_DELIVERED_READS
    && (forall id :: id in rs.pending ==> EntryInv(rs, id))
    && (forall i, k :: i in rs.pending && k in rs.pending && i != k ==>
          && rs.pending[i].serial != rs.pending[k].serial
          && (rs.pending[i].asid, rs.pending[i].inbox) != (rs.pending[k].asid, rs.pending[k].inbox))
    && SafeLog(rs.log)
  }

  lemma InvalidateKeeps(rs: Reads, cut: Cut)
    requires ReadsInv(rs)
    ensures ReadsInv(Invalidate(rs, cut))
  {
  }

  lemma LogGrows(log: seq<ReadEvent>, event: ReadEvent)
    requires SafeLog(log)
    requires event.Finished? ==> Undisturbed(log, event.serial, |log|) && Unfinished(log, event.serial)
    ensures SafeLog(log + [event])
  {
  }

  lemma StartKeeps(rs: Reads, asid: string, inbox: string, id: TaskId)
    requires ReadsInv(rs) && id !in rs.tasks && |rs.tasks| < MAX_DELIVERED_READS
    requires !Reading(rs, asid, inbox)
    ensures ReadsInv(Start(rs, asid, inbox, id))
  {
    var next := Start(rs, asid, inbox, id);
    LogGrows(rs.log, Started(asid, inbox));
    forall other | other in rs.pending
      ensures EntryInv(next, other)
    {
      assert EntryInv(rs, other);
    }
  }

  lemma CompleteKeeps(rs: Reads, id: TaskId, outcome: Outcome)
    requires ReadsInv(rs) && id in rs.tasks
    ensures ReadsInv(Complete(rs, id, outcome))
  {
  }
}
