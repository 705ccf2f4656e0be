/** The remembered choices of `session_defaults.rs`: what `record` keeps, what it prunes, and
    how a new session's defaults follow from the history of calls. */
module SessionDefaults {
  import opened Wrappers

  const COMPUTER: string := ""
  const MAX_FOLDERS: nat := 64
  const ELEVATING_MODES: set<string> := {"bypassPermissions", "auto", "yolo"}

  datatype ModelRef = ModelRef(provider: string, model: string, variant: Option<string>)

  datatype Key = Key(agent: string, cwd: string)

  datatype Row = Row(model: Option<ModelRef>, mode: Option<string>, updated: int)

  type Table = map<Key, Row>

  /** One call of `record`, with the clock it reads; `folder` is already the folder key. */
  datatype Call = Call(agent: string, folder: Option<string>, model: Option<ModelRef>, mode: Option<string>, at: int)

  // ---------------------------------------------------------------------------
  // One call.

  /** Insert the row or bump it, then set what was chosen and leave the rest as it was. */
  function Touch(t: Table, cwd: string, call: Call): Table {
    var key := Key(call.agent, cwd);
    var had := if key in t then t[key] else Row(None, None, call.at);
    t[key := Row(if call.model.Some? then call.model else had.model,
                 if call.mode.Some? then call.mode else had.mode,
                 call.at)]
  }

  function Written(t: Table, call: Call): Table {
    Touch(if call.folder.Some? then Touch(t, call.folder.value, call) else t, COMPUTER, call)
  }

  function Folders(t: Table, agent: string): set<string> {
    set key | key in t && key.agent == agent && key.cwd != COMPUTER :: key.cwd
  }

  function Age(t: Table, agent: string, cwd: string): int
    requires cwd in Folders(t, agent)
  {
    t[Key(agent, cwd)].updated
  }

  /** `ORDER BY updated_ms DESC LIMIT 64` keeps some 64 folders none of which is older than one
      it drops; among equal times the database may keep any. */
  ghost predicate Newest(t: Table, agent: string, kept: set<string>) {
    var all := Folders(t, agent);
    && kept <= all
    && |kept| == (if |all| <= MAX_FOLDERS then |all| else MAX_FOLDERS)
    && forall k, d :: k in kept && d in all - kept ==> Age(t, agent, k) >= Age(t, agent, d)
  }

  function Pruned(t: Table, agent: string, kept: set<string>): Table {
    map key | key in t && (key.agent != agent || key.cwd == COMPUTER || key.cwd in kept) :: t[key]
  }

  lemma {:induction false} MorePicked<T>(a: set<T>, b: set<T>)
    requires a <= b
    ensures |a| <= |b| && (|a| == |b| ==> a == b)
  {
    assert |b - a| == |b| - |a|;
  }

  /** Picks the newest of `left` that is not picked yet. */
  method PickNewest(t: Table, agent: string, left: set<string>) returns (newest: string)
    requires left != {} && left <= Folders(t, agent)
    ensures newest in left && forall d :: d in left ==> Age(t, agent, newest) >= Age(t, agent, d)
  {
    newest :| newest in left;
    var rest := left - {newest};
    while rest != {}
      invariant newest in left && rest <= left
      invariant forall d :: d in left - rest ==> Age(t, agent, newest) >= Age(t, agent, d)
      decreases rest
    {
      var d :| d in rest;
      rest := rest - {d};
      if Age(t, agent, d) > Age(t, agent, newest) {
        newest := d;
      }
    }
  }

  method KeepNewest(t: Table, agent: string) returns (kept: set<string>)
    ensures Newest(t, agent, kept)
  {
    kept := {};
    var left := Folders(t, agent);
    while left != {} && |kept| < MAX_FOLDERS
      invariant left !! kept && left + kept == Folders(t, agent)
      invariant |kept| <= MAX_FOLDERS
      invariant forall k, d :: k in kept && d in left ==> Age(t, agent, k) >= Age(t, agent, d)
      decreases left
    {
      var k := PickNewest(t, agent, left);
      kept, left := kept + {k}, left - {k};
    }
    MorePicked(kept, Folders(t, agent));
    assert Folders(t, agent) - kept == left;
  }

  class ChoiceStore {
    var rows: Table

    constructor ()
      ensures rows == map[]
    {
      rows := map[];
    }

    /** One transaction, which may fail and then changes nothing. */
    method Record(call: Call, commits: bool)
      modifies this
      ensures (call.model.None? && call.mode.None?) || !commits ==> rows == old(rows)
      ensures (call.model.Some? || call.mode.Some?) && commits ==>
        exists kept :: Newest(Written(old(rows), call), call.agent, kept)
          && rows == Pruned(Written(old(rows), call), call.agent, kept)
    {
      if call.model.None? && call.mode.None? {
        return;
      }
      var t := rows;
      if call.folder.Some? {
        t := Touch(t, call.folder.value, call);
      }
      t := Touch(t, COMPUTER, call);
      assert t == Written(rows, call);
      var kept := KeepNewest(t, call.agent);
      if commits {
        rows := Pruned(t, call.agent, kept);
      }
    }
  }

  // ---------------------------------------------------------------------------
  // Runs of calls.

  /** A call that committed, and which folders its transaction kept. */
  datatype Step = Step(call: Call, kept: set<string>)

  function Advance(t: Table, step: Step): Table {
    Pruned(Written(t, step.call), step.call.agent, step.kept)
  }

  function After(steps: seq<Step>): Table {
    if steps == [] then map[] else Advance(After(steps[..|steps| - 1]), steps[|steps| - 1])
  }

  /** A run of committed calls that each chose something. */
  ghost predicate IsRun(steps: seq<Step>) {
    steps == [] || (
      var front, last := steps[..|steps| - 1], steps[|steps| - 1];
      && IsRun(front)
      && (last.call.model.Some? || last.call.mode.Some?)
      && Newest(Written(After(front), last.call), last.call.agent, last.kept))
  }

  predicate Chooses(call: Call, key: Key) {
    call.agent == key.agent && (call.folder == Some(key.cwd) || key.cwd == COMPUTER)
  }

  /** The last model any call from step `since` on chose for this row. */
  function LastModel(steps: seq<Step>, key: Key, since: nat): Option<ModelRef> {
    if |steps| <= since then None
    else
      var call := steps[|steps| - 1].call;
      if Chooses(call, key) && call.model.Some? then call.model else LastModel(steps[..|steps| - 1], key, since)
  }

  function LastMode(steps: seq<Step>, key: Key, since: nat): Option<string> {
    if |steps| <= since then None
    else
      var call := steps[|steps| - 1].call;
      if Chooses(call, key) && call.mode.Some? then call.mode else LastMode(steps[..|steps| - 1], key, since)
  }

  /** The row was not there after `born` steps and has been there after every step since. */
  ghost predicate HeldSince(steps: seq<Step>, key: Key, born: nat) {
    if |steps| <= born then |steps| == born && key !in After(steps)
    else key in After(steps) && HeldSince(steps[..|steps| - 1], key, born)
  }

  lemma WrittenRow(t: Table, call: Call, key: Key)
    ensures key in Written(t, call) <==> key in t || Chooses(call, key)
    ensures key in Written(t, call) ==>
      var had := if key in t then t[key] else Row(None, None, call.at);
      Written(t, call)[key] == if !Chooses(call, key) then had
        else Row(if call.model.Some? then call.model else had.model,
                 if call.mode.Some? then call.mode else had.mode, call.at)
  {
  }

  /** A row still there holds exactly the last model and the last mode chosen for it since it
      last came to be, whatever was chosen elsewhere and however the calls fell. */
  lemma {:induction false} RowIsItsHistory(steps: seq<Step>, key: Key, born: nat)
    requires IsRun(steps) && HeldSince(steps, key, born)
    ensures key in After(steps) <==> |steps| > born
    ensures |steps| > born ==>
      && After(steps)[key].model == LastModel(steps, key, born)
      && After(steps)[key].mode == LastMode(steps, key, born)
  {
    if |steps| > born {
      var n := |steps| - 1;
      RowIsItsHistory(steps[..n], key, born);
      WrittenRow(After(steps[..n]), steps[n].call, key);
    }
  }

  /** Every row of every run last came to be somewhere, so the lemma above speaks of them all. */
  lemma {:induction false} EveryRowWasBorn(steps: seq<Step>, key: Key) returns (born: nat)
    ensures HeldSince(steps, key, born)
  {
    born := |steps|;
    if steps != [] && key in After(steps) {
      born := EveryRowWasBorn(steps[..|steps| - 1], key);
    }
  }

  /** The computer-wide row is never pruned: it is the whole history's last choice. */
  lemma {:induction false} ComputerRowIsWholeHistory(steps: seq<Step>, agent: string)
    requires IsRun(steps)
    ensures var key := Key(agent, COMPUTER); var t := After(steps);
      && (key in t <==> exists i :: 0 <= i < |steps| && steps[i].call.agent == agent)
      && LastModel(steps, key, 0) == (if key in t then t[key].model else None)
      && LastMode(steps, key, 0) == (if key in t then t[key].mode else None)
  {
    if steps != [] {
      var n := |steps| - 1;
      ComputerRowIsWholeHistory(steps[..n], agent);
      WrittenRow(After(steps[..n]), steps[n].call, Key(agent, COMPUTER));
      if exists i :: 0 <= i < |steps| && steps[i].call.agent == agent {
        var i :| 0 <= i < |steps| && steps[i].call.agent == agent;
        if i < n {
          assert steps[..n][i] == steps[i];
        }
      }
    }
  }

  // ---------------------------------------------------------------------------
  // Pruning.

  lemma PrunedFolders(t: Table, agent: string, kept: set<string>)
    requires Newest(t, agent, kept)
    ensures Folders(Pruned(t, agent, kept), agent) == kept
    ensures forall other :: other != agent ==> Folders(Pruned(t, agent, kept), other) == Folders(t, other)
  {
  }

  lemma WrittenFolders(t: Table, call: Call)
    ensures forall other :: other != call.agent ==> Folders(Written(t, call), other) == Folders(t, other)
    ensures forall cwd :: cwd in Folders(t, call.agent) ==> cwd in Folders(Written(t, call), call.agent)
    ensures call.folder.Some? && call.folder.value != COMPUTER ==>
      call.folder.value in Folders(Written(t, call), call.agent) && Age(Written(t, call), call.agent,
                                                                        call.folder.value) == call.at
  {
  }

  /** At most 64 folders of any agent are remembered after any run. */
  lemma {:induction false} FoldersAreBounded(steps: seq<Step>, agent: string)
    requires IsRun(steps)
    ensures |Folders(After(steps), agent)| <= MAX_FOLDERS
  {
    if steps == [] {
      assert Folders(map[], agent) == {};
    } else {
      var n := |steps| - 1;
      FoldersAreBounded(steps[..n], agent);
      WrittenFolders(After(steps[..n]), steps[n].call);
      PrunedFolders(Written(After(steps[..n]), steps[n].call), steps[n].call.agent, steps[n].kept);
    }
  }

  /** The folders, the call's own aside, that are at least as recent as the call. */
  function Rivals(t: Table, call: Call): set<string>
    requires call.folder.Some?
  {
    set cwd | cwd in Folders(Written(t, call), call.agent) && cwd != call.folder.value
              && Age(Written(t, call), call.agent, cwd) >= call.at
  }

  /** `kept` is a choice of the newest folders that leaves out `own`, when there are enough
      others at least as recent. */
  lemma {:induction false} ChooseWithout(t: Table, agent: string, own: string, rivals: set<string>)
    returns (kept: set<string>)
    requires own in Folders(t, agent) && own !in rivals
    requires rivals == set cwd | cwd in Folders(t, agent) && cwd != own && Age(t, agent, cwd) >= Age(t, agent, own)
    requires |rivals| >= MAX_FOLDERS
    ensures Newest(t, agent, kept) && own !in kept
  {
    kept := {};
    while |kept| < MAX_FOLDERS
      invariant kept <= rivals && |kept| <= MAX_FOLDERS
      invariant forall k, d :: k in kept && d in rivals - kept ==> Age(t, agent, k) >= Age(t, agent, d)
      decreases MAX_FOLDERS - |kept|
    {
      assert |rivals - kept| == |rivals| - |kept|;
      var k := NewestOf(t, agent, rivals - kept);
      kept := kept + {k};
    }
    var all := Folders(t, agent);
    MorePicked(kept, all);
    forall k, d | k in kept && d in all - kept
      ensures Age(t, agent, k) >= Age(t, agent, d)
    {
      assert k in rivals;
      if d !in rivals && d != own {
        assert Age(t, agent, d) < Age(t, agent, own);
      }
    }
  }

  lemma {:induction false} NewestOf(t: Table, agent: string, some: set<string>) returns (k: string)
    requires some != {} && some <= Folders(t, agent)
    ensures k in some && forall d :: d in some ==> Age(t, agent, k) >= Age(t, agent, d)
    decreases some
  {
    k :| k in some;
    if some != {k} {
      var other := NewestOf(t, agent, some - {k});
      if Age(t, agent, other) > Age(t, agent, k) {
        k := other;
      }
    }
  }

  /** Exactly when a call's own folder is safe from its own pruning: fewer than 64 other
      folders of the agent carry a time as late as the call's. */
  lemma OwnFolderKeptExactly(t: Table, call: Call)
    requires call.folder.Some? && call.folder.value != COMPUTER
    ensures (forall kept :: Newest(Written(t, call), call.agent, kept) ==> call.folder.value in kept)
       <==> |Rivals(t, call)| < MAX_FOLDERS
  {
    var w, own := Written(t, call), call.folder.value;
    WrittenFolders(t, call);
    assert |Folders(w, call.agent) - {own}| == |Folders(w, call.agent)| - 1;
    if |Rivals(t, call)| >= MAX_FOLDERS {
      var kept := ChooseWithout(w, call.agent, own, Rivals(t, call));
    } else {
      forall kept | Newest(w, call.agent, kept)
        ensures own in kept
      {
        if own !in kept {
          var all := Folders(w, call.agent);
          assert own in all - kept;
          forall k | k in kept
            ensures k in Rivals(t, call)
          {
          }
          MorePicked(kept, Rivals(t, call));
          MorePicked(kept, all - {own});
        }
      }
    }
  }

  ghost predicate Increasing(steps: seq<Step>) {
    forall i, j :: 0 <= i < j < |steps| ==> steps[i].call.at < steps[j].call.at
  }

  lemma {:induction false} RowsAreNoNewer(steps: seq<Step>, at: int)
    requires forall i :: 0 <= i < |steps| ==> steps[i].call.at < at
    ensures forall key :: key in After(steps) ==> After(steps)[key].updated < at
  {
    if steps != [] {
      RowsAreNoNewer(steps[..|steps| - 1], at);
    }
  }

  /** With a clock that moves forward no call prunes its own folder, on any run. */
  lemma OwnFolderIsNeverPruned(steps: seq<Step>)
    requires IsRun(steps) && Increasing(steps) && steps != []
    requires var call := steps[|steps| - 1].call; call.folder.Some? && call.folder.value != COMPUTER
    ensures var call := steps[|steps| - 1].call; Key(call.agent, call.folder.value) in After(steps)
  {
    var n := |steps| - 1;
    var t, call := After(steps[..n]), steps[n].call;
    RowsAreNoNewer(steps[..n], call.at);
    WrittenFolders(t, call);
    forall cwd | cwd in Rivals(t, call)
      ensures false
    {
      WrittenRow(t, call, Key(call.agent, cwd));
    }
    assert Rivals(t, call) == {};
    OwnFolderKeptExactly(t, call);
  }

  /** Folder names for the run below. */
  function Name(n: nat): string {
    seq(n + 1, _ => 'x')
  }

  function Names(n: nat): set<string> {
    set i | 0 <= i < n :: Name(i)
  }

  lemma {:induction false} NamesCount(n: nat)
    ensures |Names(n)| == n && COMPUTER !in Names(n)
  {
    if n > 0 {
      NamesCount(n - 1);
      assert Names(n) == Names(n - 1) + {Name(n - 1)};
      forall i | 0 <= i < n - 1
        ensures Name(i) != Name(n - 1)
      {
        assert |Name(i)| == i + 1;
      }
    }
  }

  function PlanIn(folder: string, at: int): Call {
    Call("claude", Some(folder), None, Some("plan"), at)
  }

  /** A mode chosen in `n` folders at time 10. */
  function Crowd(n: nat): seq<Step> {
    if n == 0 then [] else Crowd(n - 1) + [Step(PlanIn(Name(n - 1), 10), Names(n))]
  }

  lemma WrittenAddsFolder(t: Table, call: Call)
    requires call.folder.Some? && call.folder.value != COMPUTER
    ensures Folders(Written(t, call), call.agent) == Folders(t, call.agent) + {call.folder.value}
  {
    WrittenFolders(t, call);
    forall cwd | cwd in Folders(Written(t, call), call.agent)
      ensures cwd in Folders(t, call.agent) + {call.folder.value}
    {
      WrittenRow(t, call, Key(call.agent, cwd));
      assert Key(call.agent, cwd) in Written(t, call);
    }
  }

  /** The agent's folders are `names`, each last touched at `at`. */
  ghost predicate TouchedAt(t: Table, agent: string, names: set<string>, at: int) {
    Folders(t, agent) == names && forall key :: key in t ==> t[key].updated == at
  }

  /** A further folder while there is room for it. */
  lemma RoomForOneMore(t: Table, call: Call, names: set<string>)
    requires TouchedAt(t, call.agent, names, call.at) && |names| < MAX_FOLDERS
    requires call.folder.Some? && call.folder.value != COMPUTER && call.folder.value !in names
    ensures var kept := names + {call.folder.value}; var w := Written(t, call);
      Newest(w, call.agent, kept) && TouchedAt(Pruned(w, call.agent, kept), call.agent, kept, call.at)
  {
    WrittenAddsFolder(t, call);
    PrunedFolders(Written(t, call), call.agent, names + {call.folder.value});
    forall key | key in Written(t, call)
      ensures Written(t, call)[key].updated == call.at
    {
      WrittenRow(t, call, key);
    }
  }

  lemma NamesGrow(n: nat)
    ensures Names(n + 1) == Names(n) + {Name(n)} && Name(n) !in Names(n)
  {
    forall i | 0 <= i < n
      ensures Name(i) != Name(n)
    {
      assert |Name(i)| == i + 1 && |Name(n)| == n + 1;
    }
  }

  lemma RunMore(front: seq<Step>, step: Step)
    requires IsRun(front) && (step.call.model.Some? || step.call.mode.Some?)
    requires Newest(Written(After(front), step.call), step.call.agent, step.kept)
    ensures IsRun(front + [step]) && After(front + [step]) == Advance(After(front), step)
  {
    assert (front + [step])[..|front|] == front;
  }

  lemma CrowdGrows(front: seq<Step>, call: Call, names: set<string>)
    requires IsRun(front) && TouchedAt(After(front), call.agent, names, call.at) && |names| < MAX_FOLDERS
    requires call.mode.Some? && call.folder.Some? && call.folder.value != COMPUTER && call.folder.value !in names
    ensures var kept := names + {call.folder.value}; var steps := front + [Step(call, kept)];
      IsRun(steps) && TouchedAt(After(steps), call.agent, kept, call.at)
  {
    RoomForOneMore(After(front), call, names);
    RunMore(front, Step(call, names + {call.folder.value}));
  }

  lemma {:induction false} CrowdCalls(n: nat)
    ensures |Crowd(n)| == n && forall i :: 0 <= i < n ==> Crowd(n)[i].call == PlanIn(Name(i), 10)
  {
    if n > 0 {
      CrowdCalls(n - 1);
    }
  }

  /** The crowd is a run: up to 64 folders nothing is pruned. */
  lemma {:induction false} CrowdIsRun(n: nat)
    requires n <= MAX_FOLDERS
    ensures IsRun(Crowd(n)) && TouchedAt(After(Crowd(n)), "claude", Names(n), 10)
  {
    if n == 0 {
      assert Folders(map[], "claude") == {} == Names(0);
    } else {
      var m := n - 1;
      CrowdIsRun(m);
      NamesCount(m);
      NamesGrow(m);
      CrowdGrows(Crowd(m), PlanIn(Name(m), 10), Names(m));
    }
  }

  /** A folder recorded at an earlier time than all of a full table's may go at once. */
  lemma LateComerMayGo(t: Table, call: Call, names: set<string>, at: int)
    requires TouchedAt(t, call.agent, names, at) && |names| == MAX_FOLDERS && call.at <= at
    requires call.folder.Some? && call.folder.value != COMPUTER && call.folder.value !in names
    ensures Newest(Written(t, call), call.agent, names)
    ensures Key(call.agent, call.folder.value) !in Pruned(Written(t, call), call.agent, names)
  {
    var w := Written(t, call);
    WrittenAddsFolder(t, call);
    WrittenFolders(t, call);
    forall k | k in names
      ensures Age(w, call.agent, k) == at
    {
      assert Key(call.agent, k) in t;
      WrittenRow(t, call, Key(call.agent, k));
    }
  }

  /** With a clock that steps back, a call can prune the very folder it records: a choice in 64
      folders at time 10, then one in a new folder at time 5. */
  lemma ClockStepsBack(n: nat) returns (steps: seq<Step>)
    requires n == MAX_FOLDERS
    ensures |steps| == n + 1 && IsRun(steps)
    ensures forall i :: 0 <= i < n ==> steps[i].call == PlanIn(Name(i), 10)
    ensures steps[n].call == PlanIn("/work", 5) && Key("claude", "/work") !in After(steps)
  {
    var call := PlanIn("/work", 5);
    CrowdIsRun(n);
    CrowdCalls(n);
    NamesCount(n);
    forall i | 0 <= i < n
      ensures Name(i) != "/work"
    {
      assert Name(i)[0] == 'x';
    }
    LateComerMayGo(After(Crowd(n)), call, Names(n), 10);
    RunMore(Crowd(n), Step(call, Names(n)));
    steps := Crowd(n) + [Step(call, Names(n))];
  }

  // ---------------------------------------------------------------------------
  // Picking defaults.

  datatype Offer = Offer(provider: string, id: string, variants: seq<string>)

  datatype Defaults = Defaults(model: Option<ModelRef>, mode: Option<string>)

  datatype Catalog = Catalog(models: seq<Offer>, modes: seq<string>, defaults: Defaults)

  datatype Choice = Choice(model: Option<ModelRef>, mode: Option<string>)

  function FindOffer(models: seq<Offer>, choice: ModelRef): Option<Offer> {
    if models == [] then None
    else if models[0].provider == choice.provider && models[0].id == choice.model then Some(models[0])
    else FindOffer(models[1..], choice)
  }

  /** The choice as the catalog can still honour it, without an effort it no longer offers. */
  function Offered(catalog: Catalog, choice: Option<ModelRef>): Option<ModelRef> {
    if choice.None? then None
    else
      var offer := FindOffer(catalog.models, choice.value);
      if offer.None? then None
      else
        var variant := choice.value.variant;
        Some(choice.value.(variant := if variant.Some? && variant.value in offer.value.variants then variant else None))
  }

  function OfferedMode(catalog: Catalog, mode: Option<string>): Option<string> {
    if mode.Some? && mode.value !in ELEVATING_MODES && mode.value in catalog.modes then mode else None
  }

  function FirstModel(remembered: seq<Choice>, catalog: Catalog): Option<ModelRef> {
    if remembered == [] then catalog.defaults.model
    else if Offered(catalog, remembered[0].model).Some? then Offered(catalog, remembered[0].model)
    else FirstModel(remembered[1..], catalog)
  }

  function FirstMode(remembered: seq<Choice>, catalog: Catalog): Option<string> {
    if remembered == [] then catalog.defaults.mode
    else if OfferedMode(catalog, remembered[0].mode).Some? then remembered[0].mode
    else FirstMode(remembered[1..], catalog)
  }

  function PickDefaults(remembered: seq<Choice>, catalog: Catalog): Defaults {
    Defaults(FirstModel(remembered, catalog), FirstMode(remembered, catalog))
  }

  // ---------------------------------------------------------------------------
  // What may come of a remembered choice, and which one does.

  /** A mode a new session may start in from memory. */
  ghost predicate MayStart(catalog: Catalog, mode: Option<string>) {
    && mode.Some? && mode.value in catalog.modes
    && mode.value != "bypassPermissions" && mode.value != "auto" && mode.value != "yolo"
  }

  /** Offer `k` is the first of the catalog for this model. */
  ghost predicate FirstOffer(catalog: Catalog, choice: ModelRef, k: nat) {
    && k < |catalog.models|
    && catalog.models[k].provider == choice.provider && catalog.models[k].id == choice.model
    && forall j :: 0 <= j < k ==>
         catalog.models[j].provider != choice.provider || catalog.models[j].id != choice.model
  }

  ghost predicate Lists(catalog: Catalog, choice: Option<ModelRef>) {
    choice.Some? && exists k: nat :: FirstOffer(catalog, choice.value, k)
  }

  /** The first remembered choice whose mode may start a session. */
  ghost predicate FirstStart(remembered: seq<Choice>, catalog: Catalog, i: nat) {
    && i < |remembered| && MayStart(catalog, remembered[i].mode)
    && forall j :: 0 <= j < i ==> !MayStart(catalog, remembered[j].mode)
  }

  /** The first remembered choice whose model the catalog lists. */
  ghost predicate FirstListed(remembered: seq<Choice>, catalog: Catalog, i: nat) {
    && i < |remembered| && Lists(catalog, remembered[i].model)
    && forall j :: 0 <= j < i ==> !Lists(catalog, remembered[j].model)
  }

  lemma StartsExactly(catalog: Catalog, mode: Option<string>)
    ensures OfferedMode(catalog, mode) == if MayStart(catalog, mode) then mode else None
  {
  }

  /** The mode picked is the first remembered one that is offered and widens nothing; the
      catalog's own stands exactly when there is none. */
  lemma {:induction false} PickedMode(remembered: seq<Choice>, catalog: Catalog)
    ensures var picked := PickDefaults(remembered, catalog).mode;
      if exists i: nat :: FirstStart(remembered, catalog, i)
      then exists i: nat :: FirstStart(remembered, catalog, i) && picked == remembered[i].mode
      else picked == catalog.defaults.mode
    ensures (forall i: nat :: !FirstStart(remembered, catalog, i)) ==>
      forall i :: 0 <= i < |remembered| ==> !MayStart(catalog, remembered[i].mode)
  {
    if remembered != [] {
      StartsExactly(catalog, remembered[0].mode);
      var rest := remembered[1..];
      PickedMode(rest, catalog);
      if MayStart(catalog, remembered[0].mode) {
        assert FirstStart(remembered, catalog, 0);
      } else {
        forall i: nat
          ensures FirstStart(rest, catalog, i) <==> FirstStart(remembered, catalog, i + 1)
        {
          LaterStart(remembered, catalog, i);
        }
        assert !FirstStart(remembered, catalog, 0);
        assert forall i: nat :: FirstStart(remembered, catalog, i) ==> i > 0 && FirstStart(rest, catalog, i - 1);
      }
    }
  }

  lemma LaterStart(remembered: seq<Choice>, catalog: Catalog, i: nat)
    requires remembered != [] && !MayStart(catalog, remembered[0].mode)
    ensures FirstStart(remembered[1..], catalog, i) <==> FirstStart(remembered, catalog, i + 1)
  {
    var rest := remembered[1..];
    assert forall j :: 0 <= j < |rest| ==> rest[j] == remembered[j + 1];
    if FirstStart(rest, catalog, i) {
      forall j | 0 <= j < i + 1
        ensures !MayStart(catalog, remembered[j].mode)
      {
        assert j > 0 ==> rest[j - 1] == remembered[j];
      }
    }
    if FirstStart(remembered, catalog, i + 1) {
      forall j | 0 <= j < i
        ensures !MayStart(catalog, rest[j].mode)
      {
        assert rest[j] == remembered[j + 1];
      }
    }
  }

  lemma {:induction false} OfferFound(models: seq<Offer>, choice: ModelRef) returns (k: nat)
    ensures FindOffer(models, choice).Some? ==>
      && k < |models| && models[k] == FindOffer(models, choice).value
      && models[k].provider == choice.provider && models[k].id == choice.model
      && forall j :: 0 <= j < k ==> models[j].provider != choice.provider || models[j].id != choice.model
    ensures FindOffer(models, choice).None? ==>
      forall j :: 0 <= j < |models| ==> models[j].provider != choice.provider || models[j].id != choice.model
  {
    k := 0;
    if models != [] && !(models[0].provider == choice.provider && models[0].id == choice.model) {
      var later := OfferFound(models[1..], choice);
      k := later + 1;
    }
  }

  /** A remembered model comes back exactly when the catalog lists it, and with its tier exactly
      when that is among the tiers of the model as first listed. */
  lemma OfferedExactly(catalog: Catalog, choice: Option<ModelRef>)
    ensures Offered(catalog, choice).Some? <==> Lists(catalog, choice)
    ensures forall k: nat :: choice.Some? && FirstOffer(catalog, choice.value, k) ==>
      Offered(catalog, choice) == Some(AsListed(choice.value, catalog.models[k]))
  {
    if choice.Some? {
      var k := OfferFound(catalog.models, choice.value);
      if FindOffer(catalog.models, choice.value).Some? {
        assert FirstOffer(catalog, choice.value, k);
      }
    }
  }

  /** The model with its tier if the offer has it, without one otherwise. */
  function AsListed(choice: ModelRef, offer: Offer): (r: ModelRef)
    ensures r.provider == choice.provider && r.model == choice.model
  {
    ModelRef(choice.provider, choice.model,
             if choice.variant.Some? && choice.variant.value in offer.variants then choice.variant else None)
  }

  /** The model picked is the first remembered one the catalog lists, with its tier if that is
      still among the model's; the catalog's own stands exactly when there is none. */
  lemma {:induction false} PickedModel(remembered: seq<Choice>, catalog: Catalog)
    ensures var picked := PickDefaults(remembered, catalog).model;
      if exists i: nat :: FirstListed(remembered, catalog, i)
      then exists i: nat, k: nat ::
        && FirstListed(remembered, catalog, i) && FirstOffer(catalog, remembered[i].model.value, k)
        && picked == Some(AsListed(remembered[i].model.value, catalog.models[k]))
      else picked == catalog.defaults.model
    ensures (forall i: nat :: !FirstListed(remembered, catalog, i)) ==>
      forall i :: 0 <= i < |remembered| ==> !Lists(catalog, remembered[i].model)
  {
    if remembered != [] {
      OfferedExactly(catalog, remembered[0].model);
      var rest := remembered[1..];
      PickedModel(rest, catalog);
      if Lists(catalog, remembered[0].model) {
        assert FirstListed(remembered, catalog, 0);
        var k: nat :| FirstOffer(catalog, remembered[0].model.value, k);
      } else {
        forall i: nat
          ensures FirstListed(rest, catalog, i) <==> FirstListed(remembered, catalog, i + 1)
        {
          LaterListed(remembered, catalog, i);
        }
        assert !FirstListed(remembered, catalog, 0);
        assert forall i: nat :: FirstListed(remembered, catalog, i) ==> i > 0 && FirstListed(rest, catalog, i - 1);
      }
    }
  }

  lemma LaterListed(remembered: seq<Choice>, catalog: Catalog, i: nat)
    requires remembered != [] && !Lists(catalog, remembered[0].model)
    ensures FirstListed(remembered[1..], catalog, i) <==> FirstListed(remembered, catalog, i + 1)
  {
    var rest := remembered[1..];
    assert forall j :: 0 <= j < |rest| ==> rest[j] == remembered[j + 1];
    if FirstListed(rest, catalog, i) {
      forall j | 0 <= j < i + 1
        ensures !Lists(catalog, remembered[j].model)
      {
        assert j > 0 ==> rest[j - 1] == remembered[j];
      }
    }
    if FirstListed(remembered, catalog, i + 1) {
      forall j | 0 <= j < i
        ensures !Lists(catalog, rest[j].model)
      {
        assert rest[j] == remembered[j + 1];
      }
    }
  }

  function RowChoice(t: Table, key: Key): seq<Choice> {
    if key in t then [Choice(t[key].model, t[key].mode)] else []
  }

  function Choices(t: Table, agent: string, folder: Option<string>): seq<Choice> {
    (if folder.Some? then RowChoice(t, Key(agent, folder.value)) else []) + RowChoice(t, Key(agent, COMPUTER))
  }

  function OrElse<T>(a: Option<T>, b: Option<T>): Option<T> {
    if a.Some? then a else b
  }

  lemma FirstOfTwo(here: seq<Choice>, computer: seq<Choice>, catalog: Catalog)
    requires |here| <= 1 && |computer| <= 1
    ensures FirstModel(here + computer, catalog)
         == OrElse(if here == [] then None else Offered(catalog, here[0].model),
                   OrElse(if computer == [] then None else Offered(catalog, computer[0].model), catalog.defaults.model))
    ensures FirstMode(here + computer, catalog)
         == OrElse(if here == [] then None else OfferedMode(catalog, here[0].mode),
                   OrElse(if computer == [] then None else OfferedMode(catalog, computer[0].mode),
                          catalog.defaults.mode))
  {
    assert computer != [] ==> computer[1..] == [];
    assert FirstModel(computer, catalog)
        == OrElse(if computer == [] then None else Offered(catalog, computer[0].model), catalog.defaults.model);
    assert FirstMode(computer, catalog)
        == OrElse(if computer == [] then None else OfferedMode(catalog, computer[0].mode), catalog.defaults.mode);
    if here == [] {
      assert here + computer == computer;
    } else {
      assert (here + computer)[0] == here[0] && (here + computer)[1..] == computer;
    }
  }

  /** What a row's history offers: its last model and mode, as far as the catalog honours them. */
  function Remembered(steps: seq<Step>, key: Key, born: nat, catalog: Catalog): Defaults {
    Defaults(Offered(catalog, LastModel(steps, key, born)), OfferedMode(catalog, LastMode(steps, key, born)))
  }

  lemma RowRemembers(steps: seq<Step>, key: Key, catalog: Catalog) returns (born: nat)
    requires IsRun(steps)
    ensures HeldSince(steps, key, born)
    ensures var row := RowChoice(After(steps), key);
      Remembered(steps, key, born, catalog)
      == if row == [] then Defaults(None, None) else Defaults(Offered(catalog, row[0].model),
                                                              OfferedMode(catalog, row[0].mode))
  {
    born := EveryRowWasBorn(steps, key);
    RowIsItsHistory(steps, key, born);
  }

  lemma ComputerRemembers(steps: seq<Step>, agent: string, catalog: Catalog)
    requires IsRun(steps)
    ensures var row := RowChoice(After(steps), Key(agent, COMPUTER));
      Remembered(steps, Key(agent, COMPUTER), 0, catalog)
      == if row == [] then Defaults(None, None) else Defaults(Offered(catalog, row[0].model),
                                                              OfferedMode(catalog, row[0].mode))
  {
    ComputerRowIsWholeHistory(steps, agent);
  }

  /** A new session's model is the folder's last choice while it is still offered, else the
      computer's last, else the agent's own; its mode follows the same rule on its own, never
      an elevating one from memory. The folder's history counts from when its row last came to
      be, which is all of it unless the row was pruned. Without a folder the computer's comes
      first. */
  lemma DefaultsFollowHistory(steps: seq<Step>, agent: string, folder: Option<string>, catalog: Catalog)
    returns (born: nat)
    requires IsRun(steps)
    ensures folder.Some? ==> HeldSince(steps, Key(agent, folder.value), born)
    ensures var here := if folder.None? then Defaults(None, None)
                        else Remembered(steps, Key(agent, folder.value), born, catalog);
      var computer := Remembered(steps, Key(agent, COMPUTER), 0, catalog);
      PickDefaults(Choices(After(steps), agent, folder), catalog)
      == Defaults(OrElse(here.model, OrElse(computer.model, catalog.defaults.model)),
                  OrElse(here.mode, OrElse(computer.mode, catalog.defaults.mode)))
  {
    var t := After(steps);
    var computer := RowChoice(t, Key(agent, COMPUTER));
    ComputerRemembers(steps, agent, catalog);
    born := 0;
    if folder.Some? {
      born := RowRemembers(steps, Key(agent, folder.value), catalog);
      FirstOfTwo(RowChoice(t, Key(agent, folder.value)), computer, catalog);
    } else {
      FirstOfTwo([], computer, catalog);
    }
  }
}
