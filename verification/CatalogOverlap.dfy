/** Reads of `session_defaults.rs` that overlap: the look at the memo, the write and the note of
    a catalog read are three steps, and the steps of any reads of any agents may interleave. */
module CatalogOverlap {
  import opened Wrappers
  import opened CatalogCache

  /** A read on its way: it did not find its list in the memo, or has written it. `serial` is
      the place of its write among all writes. */
  datatype Flight = Looked(note: Note) | Wrote(note: Note, serial: nat)

  datatype Half =
    | Look(id: nat, note: Note)
    | Write(id: nat, stores: bool)
    | Record(id: nat)
    | Restart

  /** `writes` are all writes so far, `noted` the one each agent's note is of, and `epoch` how
      many there were when the process last started. */
  datatype World = World(
    cache: Cache, flights: map<nat, Flight>, writes: seq<Note>, noted: map<string, nat>, epoch: nat)

  function WriteHalf(cache: Cache, note: Note): Cache {
    cache.(rows := cache.rows[note.agent := Stored(cache.rows, note.agent, note.listed)])
  }

  function NoteHalf(cache: Cache, note: Note): Cache {
    cache.(written := cache.written[note.agent := note.listed])
  }

  function Advance(w: World, half: Half): World {
    match half
    case Look(id, note) =>
      if id in w.flights || note.listed.models == [] || Recognised(w.cache.written, note.agent, note.listed) then w
      else w.(flights := w.flights[id := Looked(note)])
    case Write(id, stores) =>
      if id !in w.flights || w.flights[id].Wrote? then w
      else if !stores then w.(flights := w.flights - {id})
      else
        var note := w.flights[id].note;
        w.(cache := WriteHalf(w.cache, note), flights := w.flights[id := Wrote(note, |w.writes|)],
           writes := w.writes + [note])
    case Record(id) =>
      if id !in w.flights || w.flights[id].Looked? then w
      else
        var Wrote(note, serial) := w.flights[id];
        w.(cache := NoteHalf(w.cache, note), flights := w.flights - {id}, noted := w.noted[note.agent := serial])
    case Restart =>
      World(w.cache.(written := map[]), map[], w.writes, map[], |w.writes|)
  }

  const EMPTY: World := World(Cache(map[], map[]), map[], [], map[], 0)

  function Run(halves: seq<Half>): World {
    if halves == [] then EMPTY else Advance(Run(halves[..|halves| - 1]), halves[|halves| - 1])
  }

  /** Every list a read brings has distinct models. */
  ghost predicate DistinctLists(halves: seq<Half>) {
    forall i :: 0 <= i < |halves| && halves[i].Look? ==> Distinct(halves[i].note.listed.models)
  }

  // ---------------------------------------------------------------------------
  // What every interleaving keeps.

  function RowsAfter(writes: seq<Note>): map<string, Row> {
    if writes == [] then map[]
    else
      var rows, last := RowsAfter(writes[..|writes| - 1]), writes[|writes| - 1];
      rows[last.agent := Stored(rows, last.agent, last.listed)]
  }

  ghost predicate DistinctWrites(writes: seq<Note>) {
    forall s :: 0 <= s < |writes| ==> Distinct(writes[s].listed.models)
  }

  /** The table is what the writes made it. */
  ghost predicate TableInv(w: World) {
    w.cache.rows == RowsAfter(w.writes) && DistinctWrites(w.writes)
  }

  /** Each note is of a write. */
  ghost predicate NotesInv(w: World) {
    && w.cache.written.Keys == w.noted.Keys
    && (forall a :: a in w.noted ==> w.noted[a] < |w.writes| && w.writes[w.noted[a]] == Note(a, w.cache.written[a]))
  }

  /** So is each flight that has written, of one of its own. */
  ghost predicate FlightsInv(w: World) {
    && (forall id :: id in w.flights && w.flights[id].Looked? ==> Distinct(w.flights[id].note.listed.models))
    && (forall id :: id in w.flights && w.flights[id].Wrote? ==>
          w.flights[id].serial < |w.writes| && w.writes[w.flights[id].serial] == w.flights[id].note)
  }

  ghost predicate Inv(w: World) {
    TableInv(w) && NotesInv(w) && FlightsInv(w)
  }

  lemma RowsMore(writes: seq<Note>, note: Note)
    ensures var rows := RowsAfter(writes);
      RowsAfter(writes + [note]) == rows[note.agent := Stored(rows, note.agent, note.listed)]
  {
    assert (writes + [note])[..|writes|] == writes;
  }

  lemma WriteKeepsTable(w: World, id: nat)
    requires TableInv(w) && FlightsInv(w) && id in w.flights && w.flights[id].Looked?
    ensures TableInv(Advance(w, Write(id, true)))
  {
    RowsMore(w.writes, w.flights[id].note);
    DistinctMore(w.writes, w.flights[id].note);
  }

  lemma DistinctMore(writes: seq<Note>, note: Note)
    requires DistinctWrites(writes) && Distinct(note.listed.models)
    ensures DistinctWrites(writes + [note])
  {
  }

  lemma WriteKeepsNotes(w: World, id: nat)
    requires NotesInv(w) && id in w.flights && w.flights[id].Looked?
    ensures NotesInv(Advance(w, Write(id, true)))
  {
  }

  lemma WriteKeepsFlights(w: World, id: nat)
    requires FlightsInv(w) && id in w.flights && w.flights[id].Looked?
    ensures FlightsInv(Advance(w, Write(id, true)))
  {
  }

  lemma RecordKeeps(w: World, id: nat)
    requires Inv(w) && id in w.flights && w.flights[id].Wrote?
    ensures Inv(Advance(w, Record(id)))
  {
  }

  /** Steps that neither write nor note leave the table and the notes, or drop the notes. */
  lemma RestKeeps(w: World, next: World)
    requires Inv(w) && next.writes == w.writes && next.cache.rows == w.cache.rows && FlightsInv(next)
    requires (next.cache.written == w.cache.written && next.noted == w.noted)
             || (next.cache.written == map[] && next.noted == map[])
    ensures Inv(next)
  {
  }

  lemma StepKeeps(w: World, half: Half)
    requires Inv(w) && (half.Look? ==> Distinct(half.note.listed.models))
    ensures Inv(Advance(w, half))
  {
    var next := Advance(w, half);
    match half
    case Look(id, note) => RestKeeps(w, next);
    case Write(id, stores) =>
      if id in w.flights && w.flights[id].Looked? && stores {
        WriteKeepsTable(w, id);
        WriteKeepsNotes(w, id);
        WriteKeepsFlights(w, id);
      } else {
        RestKeeps(w, next);
      }
    case Record(id) =>
      if id in w.flights && w.flights[id].Wrote? {
        RecordKeeps(w, id);
      }
    case Restart => RestKeeps(w, next);
  }

  lemma {:induction false} RunKeeps(halves: seq<Half>)
    requires DistinctLists(halves)
    ensures Inv(Run(halves))
  {
    if halves != [] {
      RunKeeps(halves[..|halves| - 1]);
      StepKeeps(Run(halves[..|halves| - 1]), halves[|halves| - 1]);
    }
  }

  // ---------------------------------------------------------------------------
  // Notes in the order of the writes.

  /** No write of the agent came after write `n`. */
  ghost predicate IsLast(writes: seq<Note>, agent: string, n: nat) {
    && n < |writes| && writes[n].agent == agent
    && forall s :: n < s < |writes| ==> writes[s].agent != agent
  }

  lemma {:induction false} LastWriteStands(writes: seq<Note>, agent: string, n: nat)
    requires IsLast(writes, agent, n)
    ensures agent in RowsAfter(writes)
    ensures RowsAfter(writes)[agent] == Stored(RowsAfter(writes[..n]), agent, writes[n].listed)
  {
    var front := writes[..|writes| - 1];
    if n < |writes| - 1 {
      LastWriteStands(front, agent, n);
      assert front[..n] == writes[..n];
    }
  }

  /** While the write a note is of is the agent's last, skipping is harmless. */
  lemma NoteOfLastWrite(w: World, agent: string)
    requires Inv(w) && agent in w.noted && IsLast(w.writes, agent, w.noted[agent])
    ensures SkipIsHarmless(w.cache, agent)
  {
    var n := w.noted[agent];
    LastWriteStands(w.writes, agent, n);
    MergeTwice(w.writes[n].listed.models, Earlier(RowsAfter(w.writes[..n]), agent, w.writes[n].listed.version));
  }

  /** A read has written `s` and not noted it. */
  ghost predicate Outstanding(w: World, s: nat) {
    exists id :: id in w.flights && w.flights[id].Wrote? && w.flights[id].serial == s
  }

  ghost predicate AgentOutstanding(w: World, agent: string) {
    exists id :: id in w.flights && w.flights[id].Wrote? && w.flights[id].note.agent == agent
  }

  /** The note does not take the place of one of a later write. */
  ghost predicate NotesInOrder(w: World, half: Half) {
    half.Record? && half.id in w.flights && w.flights[half.id].Wrote? ==>
      var Wrote(note, serial) := w.flights[half.id];
      note.agent in w.noted ==> w.noted[note.agent] < serial
  }

  ghost predicate InOrder(halves: seq<Half>) {
    halves == [] || (InOrder(halves[..|halves| - 1]) && NotesInOrder(Run(halves[..|halves| - 1]), halves[|halves| - 1]))
  }

  /** Every write since the start is outstanding or noted, or a later one of its agent is. */
  ghost predicate Ordered(w: World) {
    && w.epoch <= |w.writes|
    && (forall a :: a in w.noted ==> w.epoch <= w.noted[a])
    && (forall id :: id in w.flights && w.flights[id].Wrote? ==> w.epoch <= w.flights[id].serial)
    && forall s :: w.epoch <= s < |w.writes| ==>
         Outstanding(w, s) || (w.writes[s].agent in w.noted && s <= w.noted[w.writes[s].agent])
  }

  lemma WriteKeepsOrder(w: World, id: nat)
    requires Inv(w) && Ordered(w) && id in w.flights && w.flights[id].Looked?
    ensures Ordered(Advance(w, Write(id, true)))
  {
    var next := Advance(w, Write(id, true));
    forall s | next.epoch <= s < |next.writes|
      ensures Outstanding(next, s) || (next.writes[s].agent in next.noted && s <= next.noted[next.writes[s].agent])
    {
      if s == |w.writes| {
        assert next.flights[id].serial == s;
      } else if Outstanding(w, s) {
        var other :| other in w.flights && w.flights[other].Wrote? && w.flights[other].serial == s;
        assert next.flights[other] == w.flights[other];
      }
    }
  }

  lemma RecordKeepsOrder(w: World, id: nat)
    requires Inv(w) && Ordered(w) && NotesInOrder(w, Record(id)) && id in w.flights && w.flights[id].Wrote?
    ensures Ordered(Advance(w, Record(id)))
  {
    var next := Advance(w, Record(id));
    forall s | next.epoch <= s < |next.writes|
      ensures Outstanding(next, s) || (next.writes[s].agent in next.noted && s <= next.noted[next.writes[s].agent])
    {
      if Outstanding(w, s) {
        var other :| other in w.flights && w.flights[other].Wrote? && w.flights[other].serial == s;
        assert other == id || next.flights[other] == w.flights[other];
      }
    }
  }

  /** Steps that leave writes, notes and the flights that have written alone. */
  lemma RestKeepsOrder(w: World, next: World)
    requires Ordered(w) && next.writes == w.writes && next.noted == w.noted && next.epoch == w.epoch
    requires forall id :: id in w.flights && w.flights[id].Wrote? ==>
      id in next.flights && next.flights[id] == w.flights[id]
    requires forall id :: id in next.flights && next.flights[id].Wrote? ==>
      id in w.flights && next.flights[id] == w.flights[id]
    ensures Ordered(next)
  {
    forall s | Outstanding(w, s)
      ensures Outstanding(next, s)
    {
      var other :| other in w.flights && w.flights[other].Wrote? && w.flights[other].serial == s;
      assert next.flights[other] == w.flights[other];
    }
  }

  lemma StepKeepsOrder(w: World, half: Half)
    requires Inv(w) && Ordered(w) && NotesInOrder(w, half)
    ensures Ordered(Advance(w, half))
  {
    match half
    case Look(id, note) => RestKeepsOrder(w, Advance(w, half));
    case Write(id, stores) =>
      if id in w.flights && w.flights[id].Looked? && stores {
        WriteKeepsOrder(w, id);
      } else {
        FailedWriteKeepsOrder(w, id, stores);
      }
    case Record(id) =>
      if id in w.flights && w.flights[id].Wrote? {
        RecordKeepsOrder(w, id);
      }
    case Restart =>
  }

  lemma FailedWriteKeepsOrder(w: World, id: nat, stores: bool)
    requires Ordered(w) && !(id in w.flights && w.flights[id].Looked? && stores)
    ensures Ordered(Advance(w, Write(id, stores)))
  {
    RestKeepsOrder(w, Advance(w, Write(id, stores)));
  }

  lemma {:induction false} RunKeepsOrder(halves: seq<Half>)
    requires DistinctLists(halves) && InOrder(halves)
    ensures Ordered(Run(halves))
  {
    if halves != [] {
      var front := halves[..|halves| - 1];
      RunKeeps(front);
      RunKeepsOrder(front);
      StepKeepsOrder(Run(front), halves[|halves| - 1]);
    }
  }

  /** For every interleaving in which an agent's notes follow its writes in order, a write the
      memo recognises would change nothing, at every moment at which no read of the agent is
      between its write and its note. */
  lemma OrderedNotesSkipHarmlessly(halves: seq<Half>, agent: string)
    requires DistinctLists(halves) && InOrder(halves) && !AgentOutstanding(Run(halves), agent)
    ensures SkipIsHarmless(Run(halves).cache, agent)
  {
    var w := Run(halves);
    RunKeeps(halves);
    RunKeepsOrder(halves);
    if agent in w.noted {
      assert IsLast(w.writes, agent, w.noted[agent]);
      NoteOfLastWrite(w, agent);
    }
  }

  // ---------------------------------------------------------------------------
  // Exactly when.

  /** The tiers the history of writes shows for `m` under this version: the last shown, since the
      last write of the agent that was of another version or did not list it. */
  function LastTiers(writes: seq<Note>, agent: string, version: string, m: ModelInfo): Option<seq<string>> {
    if writes == [] then None
    else
      var front, last := writes[..|writes| - 1], writes[|writes| - 1];
      if last.agent != agent then LastTiers(front, agent, version, m)
      else if last.listed.version != version then None
      else
        var listed := Find(last.listed.models, m);
        if listed.None? then None
        else if Tiered(listed.value) then listed.value.variants
        else LastTiers(front, agent, version, m)
  }

  lemma FindByKey(models: Models, a: ModelInfo, b: ModelInfo)
    requires SameKey(a, b)
    ensures Find(models, a) == Find(models, b)
  {
  }

  lemma {:induction false} TiersByKey(writes: seq<Note>, agent: string, version: string, a: ModelInfo, b: ModelInfo)
    requires SameKey(a, b)
    ensures LastTiers(writes, agent, version, a) == LastTiers(writes, agent, version, b)
  {
    if writes != [] {
      TiersByKey(writes[..|writes| - 1], agent, version, a, b);
      FindByKey(writes[|writes| - 1].listed.models, a, b);
    }
  }

  /** What the row of an agent is after its last write, write `n`: its list, with the tiers the
      history shows. */
  ghost predicate RowShows(writes: seq<Note>, agent: string, n: nat, row: Row)
    requires n < |writes|
  {
    var listed := writes[n].listed;
    && row.version == listed.version && |row.models| == |listed.models|
    && forall i :: 0 <= i < |row.models| ==>
         row.models[i] == listed.models[i].(variants := LastTiers(writes, agent, listed.version, listed.models[i]))
  }

  /** What a write that does not show tiers for `m` finds stored is what the history shows. */
  lemma EarlierTiers(writes: seq<Note>, agent: string, n: nat, version: string, m: ModelInfo)
    requires DistinctWrites(writes) && IsLast(writes, agent, n)
    requires agent in RowsAfter(writes) && RowShows(writes, agent, n, RowsAfter(writes)[agent])
    ensures var known := Find(Earlier(RowsAfter(writes), agent, version), m);
      LastTiers(writes, agent, version, m) == if known.Some? then known.value.variants else None
  {
    var row, listed := RowsAfter(writes)[agent], writes[n].listed;
    SkipOthers(writes, agent, version, m, n);
    if row.version == version {
      var known := Find(row.models, m);
      if known.Some? {
        var i :| 0 <= i < |row.models| && row.models[i] == known.value;
        assert SameKey(listed.models[i], m);
        TiersByKey(writes, agent, version, listed.models[i], m);
      }
    }
  }

  lemma {:induction false} SkipOthers(writes: seq<Note>, agent: string, version: string, m: ModelInfo, n: nat)
    requires IsLast(writes, agent, n)
    ensures LastTiers(writes, agent, version, m) == LastTiers(writes[..n + 1], agent, version, m)
  {
    if n + 1 == |writes| {
      assert writes[..n + 1] == writes;
    } else {
      SkipOthers(writes[..|writes| - 1], agent, version, m, n);
      assert writes[..|writes| - 1][..n + 1] == writes[..n + 1];
    }
  }

  lemma {:induction false} NoWriteNoTiers(writes: seq<Note>, agent: string, version: string, m: ModelInfo)
    requires forall s :: 0 <= s < |writes| ==> writes[s].agent != agent
    ensures LastTiers(writes, agent, version, m) == None && agent !in RowsAfter(writes)
  {
    if writes != [] {
      NoWriteNoTiers(writes[..|writes| - 1], agent, version, m);
    }
  }

  lemma {:induction false} LastOf(writes: seq<Note>, agent: string) returns (n: Option<nat>)
    ensures n.Some? ==> IsLast(writes, agent, n.value)
    ensures n.None? ==> forall s :: 0 <= s < |writes| ==> writes[s].agent != agent
  {
    if writes == [] {
      n := None;
    } else if writes[|writes| - 1].agent == agent {
      n := Some(|writes| - 1);
    } else {
      n := LastOf(writes[..|writes| - 1], agent);
    }
  }

  /** The row holds the last list written and, for each of its models, the last tiers shown. */
  lemma {:induction false} RowIsItsWrites(writes: seq<Note>, agent: string, n: nat)
    requires DistinctWrites(writes) && IsLast(writes, agent, n)
    ensures agent in RowsAfter(writes) && RowShows(writes, agent, n, RowsAfter(writes)[agent])
    decreases |writes|
  {
    LastWriteStands(writes, agent, n);
    var front, listed := writes[..n], writes[n].listed;
    var before := LastOf(front, agent);
    if before.Some? {
      RowIsItsWrites(front, agent, before.value);
    }
    forall i | 0 <= i < |listed.models|
      ensures LastTiers(writes, agent, listed.version, listed.models[i])
           == MergeOne(listed.models[i], Earlier(RowsAfter(front), agent, listed.version)).variants
    {
      ModelShows(writes, agent, n, before, i);
    }
  }

  lemma LastTiersStep(front: seq<Note>, last: Note, m: ModelInfo)
    requires Find(last.listed.models, m) == Some(m)
    ensures LastTiers(front + [last], last.agent, last.listed.version, m)
         == if Tiered(m) then m.variants else LastTiers(front, last.agent, last.listed.version, m)
  {
    assert (front + [last])[..|front|] == front;
  }

  /** What the writes before show for a model is what the next one finds stored. */
  lemma TiersBefore(front: seq<Note>, agent: string, before: Option<nat>, version: string, m: ModelInfo)
    requires DistinctWrites(front)
    requires before.None? ==> forall s :: 0 <= s < |front| ==> front[s].agent != agent
    requires before.Some? ==>
      && IsLast(front, agent, before.value) && agent in RowsAfter(front)
      && RowShows(front, agent, before.value, RowsAfter(front)[agent])
    ensures var known := Find(Earlier(RowsAfter(front), agent, version), m);
      LastTiers(front, agent, version, m) == if known.Some? then known.value.variants else None
  {
    if before.Some? {
      EarlierTiers(front, agent, before.value, version, m);
    } else {
      NoWriteNoTiers(front, agent, version, m);
    }
  }

  lemma ModelShows(writes: seq<Note>, agent: string, n: nat, before: Option<nat>, i: nat)
    requires DistinctWrites(writes) && IsLast(writes, agent, n) && i < |writes[n].listed.models|
    requires before.None? ==> forall s :: 0 <= s < n ==> writes[s].agent != agent
    requires before.Some? ==>
      && IsLast(writes[..n], agent, before.value) && agent in RowsAfter(writes[..n])
      && RowShows(writes[..n], agent, before.value, RowsAfter(writes[..n])[agent])
    ensures var listed := writes[n].listed;
      LastTiers(writes, agent, listed.version, listed.models[i])
      == MergeOne(listed.models[i], Earlier(RowsAfter(writes[..n]), agent, listed.version)).variants
  {
    var front, listed := writes[..n], writes[n].listed;
    var m := listed.models[i];
    SkipOthers(writes, agent, listed.version, m, n);
    assert writes[..n + 1] == front + [writes[n]];
    LastTiersStep(front, writes[n], m);
    TiersBefore(front, agent, before, listed.version, m);
  }

  /** The list of write `n` is still what the later writes of the agent leave: the last one
      lists the same models, tiers aside, and the tiers write `n` showed are the last shown. */
  ghost predicate Unspoilt(writes: seq<Note>, agent: string, n: nat, last: nat)
    requires n < |writes| && last < |writes|
  {
    var noted, latest := writes[n].listed, writes[last].listed;
    && latest.version == noted.version && |latest.models| == |noted.models|
    && forall i :: 0 <= i < |noted.models| ==>
         && latest.models[i].(variants := None) == noted.models[i].(variants := None)
         && (Tiered(noted.models[i]) ==> LastTiers(writes, agent, noted.version,
                                                   noted.models[i]) == noted.models[i].variants)
  }

  /** The row lists what the list does, model by model, tiers the list does not show aside. */
  ghost predicate Covers(row: Row, listed: Row) {
    && row.version == listed.version && |row.models| == |listed.models|
    && forall i :: 0 <= i < |row.models| ==>
         && row.models[i] == listed.models[i].(variants := row.models[i].variants)
         && (Tiered(listed.models[i]) ==> row.models[i].variants == listed.models[i].variants)
  }

  lemma CoveringIsHarmless(cache: Cache, agent: string)
    requires agent in cache.written && Distinct(cache.written[agent].models)
    ensures SkipIsHarmless(cache, agent) <==> agent in cache.rows && Covers(cache.rows[agent], cache.written[agent])
  {
  }

  lemma CoversExactly(w: World, agent: string, last: nat)
    requires Inv(w) && agent in w.noted && IsLast(w.writes, agent, last)
    requires agent in w.cache.rows && RowShows(w.writes, agent, last, w.cache.rows[agent])
    ensures Covers(w.cache.rows[agent], w.cache.written[agent]) <==> Unspoilt(w.writes, agent, w.noted[agent], last)
  {
    var row, noted, latest := w.cache.rows[agent], w.cache.written[agent], w.writes[last].listed;
    if latest.version == noted.version && |latest.models| == |noted.models| {
      forall i | 0 <= i < |noted.models| && SameKey(latest.models[i], noted.models[i])
        ensures row.models[i].variants == LastTiers(w.writes, agent, noted.version, noted.models[i])
      {
        TiersByKey(w.writes, agent, noted.version, latest.models[i], noted.models[i]);
      }
    }
  }

  /** For every interleaving of any reads of any agents: skipping an agent's noted list is
      harmless if and only if the writes since have not spoilt it. */
  lemma SkipIsHarmlessExactly(halves: seq<Half>, agent: string) returns (last: nat)
    requires DistinctLists(halves) && agent in Run(halves).noted
    ensures var w := Run(halves); var n := w.noted[agent];
      && agent in w.cache.written && n < |w.writes| && w.writes[n] == Note(agent, w.cache.written[agent])
      && IsLast(w.writes, agent, last)
      && (SkipIsHarmless(w.cache, agent) <==> Unspoilt(w.writes, agent, n, last))
  {
    var w := Run(halves);
    RunKeeps(halves);
    var found := LastOf(w.writes, agent);
    last := found.value;
    RowIsItsWrites(w.writes, agent, last);
    CoveringIsHarmless(w.cache, agent);
    CoversExactly(w, agent, last);
  }

  // ---------------------------------------------------------------------------
  // It does happen.

  lemma RunMore(halves: seq<Half>, half: Half)
    ensures Run(halves + [half]) == Advance(Run(halves), half)
  {
    assert (halves + [half])[..|halves|] == halves;
  }

  const FIRST: Note := Note("claude", Row("2", [ModelInfo("p", "m", Some(["high"]), "")]))
  const SECOND: Note := Note("claude", Row("2", [ModelInfo("p", "n", None, "")]))

  /** The table once the second read has written over the first. */
  const SECOND_ROWS: map<string, Row> := map["claude" := SECOND.listed]

  lemma FirstWrite()
    ensures Stored(map[], "claude", FIRST.listed) == FIRST.listed
  {
    assert Merge(FIRST.listed.models, []) == FIRST.listed.models;
  }

  lemma SecondWrite()
    ensures Stored(map["claude" := FIRST.listed], "claude", SECOND.listed) == SECOND.listed
  {
    assert !SameKey(FIRST.listed.models[0], SECOND.listed.models[0]);
    assert Merge(SECOND.listed.models, FIRST.listed.models) == SECOND.listed.models;
  }

  /** A memo that recognises the first list over the row of the second. */
  lemma FirstOverSecond(cache: Cache)
    requires cache.rows == SECOND_ROWS && "claude" in cache.written && cache.written["claude"] == FIRST.listed
    ensures Recognised(cache.written, "claude", FIRST.listed) && !SkipIsHarmless(cache, "claude")
  {
    assert cache.rows["claude"].models[0].id == "n";
    assert Stored(cache.rows, "claude", FIRST.listed).models[0].id == "m";
  }

  lemma TwoLooks() returns (halves: seq<Half>)
    ensures halves == [Look(1, FIRST), Look(2, SECOND)]
    ensures Run(halves) == EMPTY.(flights := map[1 := Looked(FIRST), 2 := Looked(SECOND)])
  {
    assert Run([]) == EMPTY;
    RunMore([], Look(1, FIRST));
    RunMore([] + [Look(1, FIRST)], Look(2, SECOND));
    halves := [] + [Look(1, FIRST)] + [Look(2, SECOND)];
  }

  lemma OneWrite() returns (halves: seq<Half>)
    ensures halves == [Look(1, FIRST), Look(2, SECOND), Write(1, true)]
    ensures Run(halves) == World(Cache(map["claude" := FIRST.listed], map[]),
                                 map[1 := Wrote(FIRST, 0), 2 := Looked(SECOND)], [FIRST], map[], 0)
  {
    var looks := TwoLooks();
    RunMore(looks, Write(1, true));
    halves := looks + [Write(1, true)];
    FirstWrite();
    assert [] + [FIRST] == [FIRST];
  }

  /** Two reads of one agent that both found nothing noted have written, one after the other. */
  lemma TwoWrites() returns (halves: seq<Half>)
    ensures halves == [Look(1, FIRST), Look(2, SECOND), Write(1, true), Write(2, true)]
    ensures Run(halves) == World(Cache(SECOND_ROWS, map[]),
                                 map[1 := Wrote(FIRST, 0), 2 := Wrote(SECOND, 1)], [FIRST, SECOND], map[], 0)
  {
    var one := OneWrite();
    RunMore(one, Write(2, true));
    halves := one + [Write(2, true)];
    SecondWrite();
    assert [FIRST] + [SECOND] == [FIRST, SECOND];
  }

  /** Noted in the other order they leave a memo that recognises the first list, with nothing
      under way, although the row is the second's: the write it skips would change the row. */
  lemma OverlappingReadsCanSkipAWrite() returns (halves: seq<Half>)
    ensures DistinctLists(halves)
    ensures var w := Run(halves);
      && w.flights == map[] && Recognised(w.cache.written, "claude", FIRST.listed)
      && !SkipIsHarmless(w.cache, "claude")
  {
    var writes := TwoWrites();
    RunMore(writes, Record(2));
    RunMore(writes + [Record(2)], Record(1));
    halves := writes + [Record(2)] + [Record(1)];
    FirstOverSecond(Run(halves).cache);
  }

  /** Noted in order, the same holds while the second is between its write and its note. */
  lemma SkipBetweenWriteAndNote() returns (halves: seq<Half>)
    ensures DistinctLists(halves) && InOrder(halves)
    ensures !SkipIsHarmless(Run(halves).cache, "claude")
  {
    var writes := TwoWrites();
    RunMore(writes, Record(1));
    halves := writes + [Record(1)];
    LooksAndWritesAreInOrder(writes);
    assert halves[..|halves| - 1] == writes;
    FirstOverSecond(Run(halves).cache);
  }

  lemma {:induction false} LooksAndWritesAreInOrder(halves: seq<Half>)
    requires forall i :: 0 <= i < |halves| ==> !halves[i].Record?
    ensures InOrder(halves)
  {
    if halves != [] {
      LooksAndWritesAreInOrder(halves[..|halves| - 1]);
    }
  }
}
