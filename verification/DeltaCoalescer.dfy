/** `DeltaCoalescer` of `manager.rs`: batching adjacent text deltas by size and deadline. */
module DeltaCoalescer {
  import opened Wrappers
  import opened Text
  import opened OpencodeEvents

  /** May `raw` join the batch? */
  predicate Joins(batch: seq<Raw>, raw: Raw)
    requires forall i :: 0 <= i < |batch| ==> IsDelta(batch[i])
  {
    && batch != [] && IsDelta(raw) && SameRun(batch[0], raw)
    && Utf8Len(JoinedText(batch)) + Utf8Len(DeltaOf(raw)) <= MAX_PENDING_DELTA_BYTES
  }

  predicate Full(batch: seq<Raw>)
    requires forall i :: 0 <= i < |batch| ==> IsDelta(batch[i])
  {
    Utf8Len(JoinedText(batch)) >= MAX_PENDING_DELTA_BYTES
  }

  /** What may be waiting between steps: nothing, or a run of less than eight kibibytes. */
  ghost predicate Waiting(batch: seq<Raw>) {
    batch != [] ==> IsRun(batch) && !Full(batch)
  }

  lemma JoinKeepsRun(batch: seq<Raw>, raw: Raw)
    requires Waiting(batch) && IsDelta(raw) && (batch != [] ==> Joins(batch, raw))
    ensures IsRun(batch + [raw])
    ensures JoinedText(batch + [raw]) == JoinedText(batch) + DeltaOf(raw)
    ensures Utf8Len(JoinedText(batch + [raw])) == Utf8Len(JoinedText(batch)) + Utf8Len(DeltaOf(raw))
    ensures batch != [] ==> Utf8Len(JoinedText(batch + [raw])) <= MAX_PENDING_DELTA_BYTES
  {
    assert (batch + [raw])[..|batch|] == batch;
    Utf8LenConcat(JoinedText(batch), DeltaOf(raw));
  }

  /** The comparison the code makes on the two payload objects, one key longer and agreeing on
      every key of the stripped one, says exactly that they agree besides the text. */
  lemma PayloadComparison(before: map<string, Value>, incoming: map<string, Value>)
    requires "delta" !in before && "delta" in incoming
    ensures (&& |incoming| == |before| + 1
             && forall key :: key in before ==> key in incoming && incoming[key] == before[key])
       <==> incoming - {"delta"} == before
  {
    var rest := incoming - {"delta"};
    assert rest.Keys == incoming.Keys - {"delta"};
    assert |incoming| == |incoming.Keys| && |before| == |before.Keys| && |rest| == |rest.Keys|;
    assert |rest| == |incoming| - 1;
    if |incoming| == |before| + 1 && forall key :: key in before ==> key in incoming && incoming[key] == before[key] {
      assert before.Keys <= rest.Keys;
      SubsetOfEqualSize(before.Keys, rest.Keys);
      assert rest == before;
    }
  }

  lemma SubsetOfEqualSize<T>(a: set<T>, b: set<T>)
    requires a <= b && |a| == |b|
    ensures a == b
  {
    assert |b - a| == |b| - |a|;
  }

  datatype PendingDelta = PendingDelta(raw: Raw, text: string, deadline: nat)

  class DeltaCoalescer {
    var pending: Option<PendingDelta>
    /** The events the pending text was joined from. */
    ghost var batch: seq<Raw>

    ghost predicate Valid()
      reads this
    {
      && Waiting(batch)
      && (pending.Some? <==> batch != [])
      && (pending.Some? ==>
            && pending.value.raw == batch[0].(data := Object(Metadata(batch[0])))
            && pending.value.text == JoinedText(batch))
    }

    constructor ()
      ensures Valid() && batch == [] && pending == None
    {
      pending, batch := None, [];
    }

    method CanMerge(raw: Raw) returns (ok: bool)
      requires Valid()
      ensures ok <==> Joins(batch, raw)
    {
      if pending.None? {
        return false;
      }
      var waiting := pending.value;
      if !IsDelta(raw)
        || waiting.raw.eventType != raw.eventType
        || waiting.raw.location != raw.location
        || Utf8Len(waiting.text) + Utf8Len(DeltaOf(raw)) > MAX_PENDING_DELTA_BYTES {
        return false;
      }
      var before, incoming := waiting.raw.data.fields, raw.data.fields;
      PayloadComparison(before, incoming);
      return
        && |incoming| == |before| + 1
        && forall key :: key in before ==> key in incoming && incoming[key] == before[key];
    }

    /** Starts or joins the pending batch; hands it on when that fills it. Joining leaves the
        deadline where the first delta of the batch put it. */
    method Push(raw: Raw, now: nat) returns (full: Option<Raw>)
      requires Valid() && IsDelta(raw) && (batch != [] ==> Joins(batch, raw))
      modifies this
      ensures Valid()
      ensures IsRun(old(batch) + [raw])
      ensures var joined := old(batch) + [raw];
           (if Full(joined)
            then batch == [] && full == Some(Merged(joined))
            else batch == joined && full == None
                 && pending.value.deadline
                    == if old(pending).Some? then old(pending).value.deadline else now + DELTA_FLUSH_DELAY)
    {
      JoinKeepsRun(batch, raw);
      var text := DeltaOf(raw);
      var stripped := raw.(data := Object(Metadata(raw)));
      if pending.Some? {
        pending := Some(pending.value.(text := pending.value.text + text));
      } else {
        assert JoinedText([]) + text == text;
        pending := Some(PendingDelta(stripped, text, now + DELTA_FLUSH_DELAY));
      }
      batch := batch + [raw];
      if Utf8Len(pending.value.text) >= MAX_PENDING_DELTA_BYTES {
        full := TakeJoined();
      } else {
        full := None;
      }
    }

    /** `take`, of a batch that may just have been filled. */
    method TakeJoined() returns (taken: Option<Raw>)
      requires pending.Some? && IsRun(batch)
      requires pending.value.raw == batch[0].(data := Object(Metadata(batch[0])))
      requires pending.value.text == JoinedText(batch)
      modifies this
      ensures Valid() && batch == [] && taken == Some(Merged(old(batch)))
    {
      var waiting := pending.value;
      pending := None;
      var raw := waiting.raw.(data := Object(waiting.raw.data.fields["delta" := Str(waiting.text)]));
      assert Metadata(batch[0])["delta" := Str(waiting.text)] == batch[0].data.fields["delta" := Str(waiting.text)];
      taken := Some(raw);
      batch := [];
    }

    method Take() returns (taken: Option<Raw>)
      requires Valid()
      modifies this
      ensures Valid() && batch == []
      ensures taken == if old(batch) == [] then None else Some(Merged(old(batch)))
    {
      if pending.None? {
        return None;
      }
      taken := TakeJoined();
    }

    method Deadline() returns (deadline: Option<nat>)
      requires Valid()
      ensures deadline.Some? <==> batch != []
      ensures deadline.Some? ==> deadline.value == pending.value.deadline
    {
      return if pending.Some? then Some(pending.value.deadline) else None;
    }
  }
}
