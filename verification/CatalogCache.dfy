/** `with_cached_models` of `session_defaults.rs`: the stored model list of each agent and the
    memo that suppresses writing an unchanged one again. */
module CatalogCache {
  import opened Wrappers

  datatype ModelInfo = ModelInfo(provider: string, id: string, variants: Option<seq<string>>, rest: string)

  type Models = seq<ModelInfo>

  /** The stored row of an agent, its time aside. */
  datatype Row = Row(version: string, models: Models)

  /** What the memo holds per agent. The fingerprint is taken to be free of collisions, so it
      is the version and the list themselves. */
  type Memo = map<string, Row>

  datatype Cache = Cache(rows: map<string, Row>, written: Memo)

  predicate SameKey(a: ModelInfo, b: ModelInfo) {
    a.provider == b.provider && a.id == b.id
  }

  /** Has this model effort tiers? */
  predicate Tiered(m: ModelInfo) {
    m.variants.Some? && m.variants.value != []
  }

  ghost predicate Distinct(models: Models) {
    forall i, j :: 0 <= i < j < |models| ==> !SameKey(models[i], models[j])
  }

  function Find(models: Models, m: ModelInfo): (r: Option<ModelInfo>)
    ensures r.Some? ==> r.value in models && SameKey(r.value, m)
    ensures r.None? ==> forall i :: 0 <= i < |models| ==> !SameKey(models[i], m)
  {
    if models == [] then None
    else if SameKey(models[0], m) then Some(models[0])
    else Find(models[1..], m)
  }

  function MergeOne(m: ModelInfo, earlier: Models): (r: ModelInfo)
    ensures SameKey(r, m)
  {
    if Tiered(m) then m
    else
      var known := Find(earlier, m);
      m.(variants := if known.Some? then known.value.variants else None)
  }

  function Merge(listed: Models, earlier: Models): (r: Models)
    ensures |r| == |listed|
    ensures forall i :: 0 <= i < |r| ==> r[i] == MergeOne(listed[i], earlier)
  {
    seq(|listed|, i requires 0 <= i < |listed| => MergeOne(listed[i], earlier))
  }

  method MergeVariants(listed: Models, earlier: Models) returns (merged: Models)
    ensures merged == Merge(listed, earlier)
  {
    merged := listed;
    for i := 0 to |listed|
      invariant |merged| == |listed|
      invariant forall k :: 0 <= k < i ==> merged[k] == MergeOne(listed[k], earlier)
      invariant forall k :: i <= k < |listed| ==> merged[k] == listed[k]
    {
      if !Tiered(merged[i]) {
        var known := Find(earlier, merged[i]);
        merged := merged[i := merged[i].(variants := if known.Some? then known.value.variants else None)];
      }
    }
  }

  function Earlier(rows: map<string, Row>, agent: string, version: string): Models {
    if agent in rows && rows[agent].version == version then rows[agent].models else []
  }

  /** What the write stores. */
  function Stored(rows: map<string, Row>, agent: string, listed: Row): Row {
    Row(listed.version, Merge(listed.models, Earlier(rows, agent, listed.version)))
  }

  predicate Recognised(written: Memo, agent: string, listed: Row) {
    agent in written && written[agent] == listed
  }

  /** One catalog read, alone: `stores` says whether the database took the write. */
  function Keep(cache: Cache, agent: string, version: Option<string>, models: Models, stores: bool): Cache {
    if version.None? || models == [] then cache
    else
      var listed := Row(version.value, models);
      if Recognised(cache.written, agent, listed) || !stores then cache
      else Cache(cache.rows[agent := Stored(cache.rows, agent, listed)], cache.written[agent := listed])
  }

  /** What the catalog shows: its own list, else the one stored for this version. */
  function Shown(cache: Cache, agent: string, version: Option<string>, models: Models): Models {
    if version.None? || models != [] then models else Earlier(cache.rows, agent, version.value)
  }

  datatype Note = Note(agent: string, listed: Row)

  function MemoOf(notes: seq<Note>): Memo {
    if notes == [] then map[]
    else MemoOf(notes[..|notes| - 1])[notes[|notes| - 1].agent := notes[|notes| - 1].listed]
  }

  ghost predicate OnePerAgent(notes: seq<Note>) {
    forall i, j :: 0 <= i < j < |notes| ==> notes[i].agent != notes[j].agent
  }

  function Without(notes: seq<Note>, agent: string): (r: seq<Note>)
    ensures forall k :: 0 <= k < |r| ==> r[k].agent != agent && r[k] in notes
  {
    if notes == [] then []
    else
      var last := notes[|notes| - 1];
      Without(notes[..|notes| - 1], agent) + (if last.agent != agent then [last] else [])
  }

  lemma {:induction false} WithoutForgets(notes: seq<Note>, agent: string)
    ensures MemoOf(Without(notes, agent)) == MemoOf(notes) - {agent}
  {
    if notes != [] {
      var front, last := notes[..|notes| - 1], notes[|notes| - 1];
      WithoutForgets(front, agent);
      SkippedOver(MemoOf(front), agent, last.agent, last.listed);
      if last.agent != agent {
        var r := Without(front, agent) + [last];
        assert r[..|r| - 1] == Without(front, agent);
      } else {
        assert Without(front, agent) + [] == Without(front, agent);
      }
    }
  }

  lemma {:induction false} WithoutStaysUnique(notes: seq<Note>, agent: string)
    requires OnePerAgent(notes)
    ensures OnePerAgent(Without(notes, agent))
  {
    if notes != [] {
      var n := |notes| - 1;
      WithoutStaysUnique(notes[..n], agent);
      forall k | 0 <= k < |Without(notes[..n], agent)|
        ensures Without(notes[..n], agent)[k].agent != notes[n].agent
      {
        var i :| 0 <= i < n && notes[i] == Without(notes[..n], agent)[k];
      }
    }
  }

  lemma Reinserted(memo: Memo, agent: string, listed: Row)
    ensures (memo - {agent})[agent := listed] == memo[agent := listed]
  {
  }

  lemma SkippedOver(memo: Memo, agent: string, other: string, listed: Row)
    ensures memo[other := listed] - {agent}
         == if other == agent then memo - {agent} else (memo - {agent})[other := listed]
  {
  }

  lemma NotedAgain(notes: seq<Note>, note: Note)
    requires OnePerAgent(notes)
    ensures var next := Without(notes, note.agent) + [note];
      OnePerAgent(next) && MemoOf(next) == MemoOf(notes)[note.agent := note.listed]
  {
    WithoutStaysUnique(notes, note.agent);
    WithoutForgets(notes, note.agent);
    var left := Without(notes, note.agent);
    assert (left + [note])[..|left|] == left;
    Reinserted(MemoOf(notes), note.agent, note.listed);
  }

  lemma {:induction false} NotesAreTheMemo(notes: seq<Note>, note: Note)
    requires OnePerAgent(notes)
    ensures note in notes <==> Recognised(MemoOf(notes), note.agent, note.listed)
  {
    if notes != [] {
      var front, last := notes[..|notes| - 1], notes[|notes| - 1];
      NotesAreTheMemo(front, note);
      assert notes == front + [last];
    }
  }

  /** The memo as the code keeps it: a list with at most one note per agent. */
  class CatalogStore {
    var rows: map<string, Row>
    var written: seq<Note>

    ghost predicate Valid()
      reads this
    {
      OnePerAgent(written)
    }

    ghost function Memo(): Memo
      reads this
    {
      MemoOf(written)
    }

    constructor ()
      ensures Valid() && rows == map[] && Memo() == map[]
    {
      rows, written := map[], [];
    }

    method WithCachedModels(agent: string, version: Option<string>, models: Models, stores: bool)
      returns (shown: Models)
      requires Valid()
      modifies this
      ensures Valid()
      ensures Cache(rows, Memo()) == Keep(Cache(old(rows), old(Memo())), agent, version, models, stores)
      ensures shown == Shown(Cache(old(rows), old(Memo())), agent, version, models)
    {
      shown := models;
      if version.None? {
        return;
      }
      if models == [] {
        shown := Earlier(rows, agent, version.value);
        return;
      }
      var listed := Row(version.value, models);
      var known := IsWritten(agent, listed);
      if known || !stores {
        return;
      }
      var merged := MergeVariants(models, Earlier(rows, agent, version.value));
      rows := rows[agent := Row(version.value, merged)];
      Remember(agent, listed);
    }

    method IsWritten(agent: string, listed: Row) returns (known: bool)
      requires Valid()
      ensures known <==> Recognised(Memo(), agent, listed)
    {
      NotesAreTheMemo(written, Note(agent, listed));
      for i := 0 to |written|
        invariant forall k :: 0 <= k < i ==> written[k] != Note(agent, listed)
      {
        if written[i] == Note(agent, listed) {
          return true;
        }
      }
      return false;
    }

    /** Drops the agent's note and adds the new one. */
    method Remember(agent: string, listed: Row)
      requires Valid()
      modifies this`written
      ensures Valid()
      ensures Memo() == old(Memo())[agent := listed]
    {
      var left := DropAgent(written, agent);
      NotedAgain(written, Note(agent, listed));
      written := left + [Note(agent, listed)];
    }
  }

  method DropAgent(notes: seq<Note>, agent: string) returns (left: seq<Note>)
    ensures left == Without(notes, agent)
  {
    left := [];
    for i := 0 to |notes|
      invariant left == Without(notes[..i], agent)
    {
      assert notes[..i + 1][..i] == notes[..i];
      if notes[i].agent != agent {
        left := left + [notes[i]];
      }
    }
    assert notes[..|notes|] == notes;
  }

  // ---------------------------------------------------------------------------
  // Skipping a write the memo recognises.

  /** Merging a list over its own merge changes nothing. */
  lemma MergeTwice(listed: Models, earlier: Models)
    requires Distinct(listed)
    ensures Merge(listed, Merge(listed, earlier)) == Merge(listed, earlier)
  {
  }

  datatype Step = Read(agent: string, version: Option<string>, models: Models, stores: bool) | Restart

  function Advance(cache: Cache, step: Step): Cache {
    match step
    case Read(agent, version, models, stores) => Keep(cache, agent, version, models, stores)
    case Restart => cache.(written := map[])
  }

  function Run(steps: seq<Step>): Cache {
    if steps == [] then Cache(map[], map[]) else Advance(Run(steps[..|steps| - 1]), steps[|steps| - 1])
  }

  function RunFrom(cache: Cache, steps: seq<Step>): Cache {
    if steps == [] then cache else Advance(RunFrom(cache, steps[..|steps| - 1]), steps[|steps| - 1])
  }

  /** Every list shown has distinct models. */
  ghost predicate DistinctLists(steps: seq<Step>) {
    forall i :: 0 <= i < |steps| && steps[i].Read? ==> Distinct(steps[i].models)
  }

  /** Skipping the write leaves the row exactly as the write would. */
  ghost predicate SkipIsHarmless(cache: Cache, agent: string) {
    agent in cache.written ==>
      && agent in cache.rows
      && cache.rows[agent] == Stored(cache.rows, agent, cache.written[agent])
  }

  lemma {:induction false} SkippedWriteWouldChangeNothing(steps: seq<Step>, agent: string)
    requires DistinctLists(steps)
    ensures SkipIsHarmless(Run(steps), agent)
  {
    if steps != [] {
      var front, last := steps[..|steps| - 1], steps[|steps| - 1];
      SkippedWriteWouldChangeNothing(front, agent);
      if last.Read? && last.version.Some? && last.agent == agent {
        MergeTwice(last.models, Earlier(Run(front).rows, agent, last.version.value));
      }
    }
  }

  // ---------------------------------------------------------------------------
  // What an agent's row holds.

  /** A list of `agent` that the database takes. */
  predicate Lists(step: Step, agent: string) {
    step.Read? && step.agent == agent && step.version.Some? && step.models != [] && step.stores
  }

  /** The `k`-th step is the last that lists models of `agent` for the database to take. */
  ghost predicate LastList(steps: seq<Step>, agent: string, k: nat) {
    && k < |steps| && Lists(steps[k], agent)
    && forall j :: k < j < |steps| ==> !Lists(steps[j], agent)
  }

  /** The same models in order, with their own tiers wherever they have any. */
  ghost predicate Covers(kept: Models, listed: Models) {
    && |kept| == |listed|
    && forall i :: 0 <= i < |kept| ==>
         && kept[i] == listed[i].(variants := kept[i].variants)
         && (Tiered(listed[i]) ==> kept[i] == listed[i])
  }

  lemma KeptCovers(cache: Cache, step: Step, agent: string)
    requires SkipIsHarmless(cache, agent) && Lists(step, agent)
    ensures var rows := Advance(cache, step).rows;
      agent in rows && rows[agent].version == step.version.value && Covers(rows[agent].models, step.models)
  {
  }

  lemma OthersLeaveTheRow(cache: Cache, step: Step, agent: string)
    requires !Lists(step, agent)
    ensures var rows := Advance(cache, step).rows;
      (agent in rows <==> agent in cache.rows) && (agent in rows ==> rows[agent] == cache.rows[agent])
  {
  }

  /** The row is of the last list that the database took, whether that list was written or the
      memo recognised it: its version, and its models with at least their own tiers. */
  lemma {:induction false} RowIsTheLastList(steps: seq<Step>, agent: string, k: nat)
    requires DistinctLists(steps) && LastList(steps, agent, k)
    ensures var rows := Run(steps).rows;
      && agent in rows && rows[agent].version == steps[k].version.value
      && Covers(rows[agent].models, steps[k].models)
  {
    var front, last := steps[..|steps| - 1], steps[|steps| - 1];
    if k == |front| {
      SkippedWriteWouldChangeNothing(front, agent);
      KeptCovers(Run(front), last, agent);
    } else {
      RowIsTheLastList(front, agent, k);
      OthersLeaveTheRow(Run(front), last, agent);
    }
  }

  /** So an agent that lists nothing is shown the last list that its version had stored, and
      nothing that another version had; and one that lists something is shown that. */
  lemma EmptyListShowsTheStored(steps: seq<Step>, agent: string, k: nat, version: string, models: Models)
    requires DistinctLists(steps) && LastList(steps, agent, k)
    ensures version == steps[k].version.value ==>
      Covers(Shown(Run(steps), agent, Some(version), []), steps[k].models)
    ensures version != steps[k].version.value ==> Shown(Run(steps), agent, Some(version), []) == []
    ensures models != [] ==> Shown(Run(steps), agent, Some(version), models) == models
  {
    RowIsTheLastList(steps, agent, k);
  }

  /** A list that has just been stored is not written again, whatever other agents do between. */
  lemma {:induction false} UnchangedListIsSkipped(steps: seq<Step>, show: Step, later: seq<Step>, again: Step)
    requires show.Read? && Lists(show, show.agent) && again.Read? && again == show.(stores := again.stores)
    requires forall j :: 0 <= j < |later| ==> later[j].Read? && later[j].agent != show.agent
    ensures var cache := RunFrom(Advance(Run(steps), show), later);
      && Recognised(cache.written, show.agent, Row(show.version.value, show.models))
      && Advance(cache, again) == cache
  {
    if later != [] {
      UnchangedListIsSkipped(steps, show, later[..|later| - 1], again);
    }
  }

  // ---------------------------------------------------------------------------
  // Tiers.

  /** The row of `agent` is of this version and lists `m` with tiers. */
  ghost predicate Holds(cache: Cache, agent: string, version: string, m: ModelInfo) {
    && agent in cache.rows && cache.rows[agent].version == version && Distinct(cache.rows[agent].models)
    && exists i :: 0 <= i < |cache.rows[agent].models|
         && SameKey(cache.rows[agent].models[i], m) && Tiered(cache.rows[agent].models[i])
  }

  /** A step that keeps to one version of `agent` and, when it lists anything, lists `m`. */
  ghost predicate Names(step: Step, agent: string, version: string, m: ModelInfo) {
    step.Read? && step.agent == agent ==>
      && (step.version.Some? ==> step.version.value == version)
      && Distinct(step.models)
      && (step.models != [] ==> exists i :: 0 <= i < |step.models| && SameKey(step.models[i], m))
  }

  lemma NamedTiersStay(cache: Cache, step: Step, agent: string, version: string, m: ModelInfo)
    requires Holds(cache, agent, version, m) && Names(step, agent, version, m)
    ensures Holds(Advance(cache, step), agent, version, m)
  {
  }

  /** A list that shows tiers for `m` and is stored, or recognised, leaves them stored. */
  lemma ShownTiersAreStored(steps: seq<Step>, step: Step, m: ModelInfo, i: nat)
    requires DistinctLists(steps) && step.Read? && step.version.Some? && step.stores && Distinct(step.models)
    requires i < |step.models| && SameKey(step.models[i], m) && Tiered(step.models[i])
    ensures Holds(Advance(Run(steps), step), step.agent, step.version.value, m)
  {
  }

  /** Once a model has shown tiers they stay stored, through other agents' reads, failed
      writes and restarts, while every later list of that agent names it and keeps its version. */
  lemma {:induction false} TiersPersist(before: seq<Step>, show: Step, m: ModelInfo, i: nat, later: seq<Step>)
    requires DistinctLists(before) && show.Read? && show.version.Some? && show.stores && Distinct(show.models)
    requires i < |show.models| && SameKey(show.models[i], m) && Tiered(show.models[i])
    requires forall k :: 0 <= k < |later| ==> Names(later[k], show.agent, show.version.value, m)
    ensures Holds(RunFrom(Advance(Run(before), show), later), show.agent, show.version.value, m)
  {
    if later == [] {
      ShownTiersAreStored(before, show, m, i);
    } else {
      var n := |later| - 1;
      TiersPersist(before, show, m, i, later[..n]);
      NamedTiersStay(RunFrom(Advance(Run(before), show), later[..n]), later[n], show.agent, show.version.value, m);
    }
  }

  /** Some list of this agent and this version showed `m` with exactly these tiers. */
  ghost predicate WasShown(steps: seq<Step>, agent: string, version: string, m: ModelInfo) {
    exists k, i :: 0 <= k < |steps| && steps[k].Read? && steps[k].agent == agent && steps[k].version == Some(version)
      && 0 <= i < |steps[k].models| && SameKey(steps[k].models[i], m) && steps[k].models[i].variants == m.variants
  }

  lemma WasShownLater(steps: seq<Step>, step: Step, agent: string, version: string, m: ModelInfo)
    requires WasShown(steps, agent, version, m)
    ensures WasShown(steps + [step], agent, version, m)
  {
    var k, i :| 0 <= k < |steps| && steps[k].Read? && steps[k].agent == agent && steps[k].version == Some(version)
      && 0 <= i < |steps[k].models| && SameKey(steps[k].models[i], m) && steps[k].models[i].variants == m.variants;
    assert (steps + [step])[k] == steps[k];
  }

  /** Tiers never cross versions: what is stored for a version was shown by that version. */
  lemma {:induction false} TiersNeverCrossVersions(steps: seq<Step>, agent: string, i: nat)
    requires agent in Run(steps).rows && i < |Run(steps).rows[agent].models| && Tiered(Run(steps).rows[agent].models[i])
    ensures WasShown(steps, agent, Run(steps).rows[agent].version, Run(steps).rows[agent].models[i])
  {
    var front, last := steps[..|steps| - 1], steps[|steps| - 1];
    var before, after := Run(front), Run(steps);
    assert steps == front + [last];
    if agent in before.rows && before.rows[agent] == after.rows[agent] {
      TiersNeverCrossVersions(front, agent, i);
      WasShownLater(front, last, agent, after.rows[agent].version, after.rows[agent].models[i]);
    } else {
      var m := last.models[i];
      if Tiered(m) {
        assert steps[|steps| - 1].models[i] == m;
      } else {
        var earlier := Earlier(before.rows, agent, last.version.value);
        var known := Find(earlier, m).value;
        var k :| 0 <= k < |earlier| && earlier[k] == known;
        TiersNeverCrossVersions(front, agent, k);
        WasShownLater(front, last, agent, last.version.value, known);
        ShownIsByKey(steps, agent, last.version.value, known, after.rows[agent].models[i]);
      }
    }
  }

  lemma ShownIsByKey(steps: seq<Step>, agent: string, version: string, a: ModelInfo, b: ModelInfo)
    requires WasShown(steps, agent, version, a) && SameKey(a, b) && a.variants == b.variants
    ensures WasShown(steps, agent, version, b)
  {
  }
}
