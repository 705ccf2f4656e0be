/** `search` of `directories.rs`: a breadth-first keyword search from home over a graph of
    directories that links may make cyclic. */
module DirectorySearch {
  import opened Wrappers
  import opened Text
  import Sorting

  const MAX_RESULTS: nat := 30
  const MAX_READ: nat := 10000
  const MAX_DEPTH: nat := 8
  const MAX_QUERY_BYTES: nat := 256

  const SKIPPED: set<string> := {
    "node_modules", ".git", "target", "build", "dist", ".cache", "__pycache__",
    "Library", "AppData", "Applications", "vendor", "venv"
  }

  /** A canonical directory. */
  type Node = nat

  /** A directory entry; `target` is the canonical directory it is or links to, if it is one. */
  datatype Entry = Entry(name: string, target: Option<Node>)

  /** Names below home, outermost first. */
  type Path = seq<string>

  datatype Disk = Disk(home: Node, listing: map<Node, seq<Entry>>)

  /** No directory has two entries of one name. */
  ghost predicate IsDisk(disk: Disk) {
    forall n, i, j :: n in disk.listing && 0 <= i < j < |disk.listing[n]| ==>
      disk.listing[n][i].name != disk.listing[n][j].name
  }

  function Listing(disk: Disk, n: Node): seq<Entry> {
    if n in disk.listing then disk.listing[n] else []
  }

  function Find(entries: seq<Entry>, name: string): Option<Node> {
    if entries == [] then None
    else if entries[0].name == name then entries[0].target
    else Find(entries[1..], name)
  }

  /** `canonicalize`: the directory a path leads to. */
  function Walk(disk: Disk, path: Path): Option<Node> {
    if path == [] then Some(disk.home)
    else
      var parent := Walk(disk, path[..|path| - 1]);
      if parent.None? then None else Find(Listing(disk, parent.value), path[|path| - 1])
  }

  predicate EligibleName(name: string) {
    !("." <= name) && name !in SKIPPED
  }

  datatype Hit = Hit(name: string, path: Path)

  /** The path as text, below a home that is given as text. */
  function Rendered(home: string, path: Path): string {
    if path == [] then home else Rendered(home, path[..|path| - 1]) + "/" + path[|path| - 1]
  }

  ghost predicate Matching(lower: string -> string, query: string, name: string) {
    EligibleName(name) && Contains(lower(name), query)
  }

  /** The calls to the file system: making a path canonical, opening a directory, reading on to
      its `k`-th entry or its end, and asking for an entry's type. A search makes none of them
      twice, so their answers are all it sees of the file system. */
  datatype Call = Canonical(path: Path) | Open(n: Node) | Next(n: Node, k: nat) | TypeOf(n: Node, k: nat)

  /** A call is answered, fails, or is still going on when the time is up. */
  datatype Answer = Answers | Fails | TooSlow

  type Weather = Call -> Answer

  // ---------------------------------------------------------------------------
  // What failing calls hide.

  ghost predicate EligiblePath(path: Path) {
    forall i :: 0 <= i < |path| ==> EligibleName(path[i])
  }

  /** No call fails on the way to the `i`-th entry of directory `n`, nor on its type. */
  ghost predicate Readable(weather: Weather, n: Node, i: nat) {
    && !weather(Open(n)).Fails? && !weather(TypeOf(n, i)).Fails?
    && forall j :: 0 <= j <= i ==> !weather(Next(n, j)).Fails?
  }

  /** Directory `t` cannot be made canonical under some path that the search may queue. */
  ghost predicate Blocked(disk: Disk, weather: Weather, t: Node) {
    exists path: Path :: |path| <= MAX_DEPTH && EligiblePath(path) && Walk(disk, path) == Some(t)
      && weather(Canonical(path)).Fails?
  }

  /** The last name of the path can be read in the directory that holds it. */
  ghost predicate EntryRead(disk: Disk, weather: Weather, path: Path)
    requires path != [] && Walk(disk, path).Some?
  {
    var n := Walk(disk, path[..|path| - 1]).value;
    forall i :: 0 <= i < |Listing(disk, n)| && Listing(disk, n)[i].name == path[|path| - 1] ==> Readable(weather, n, i)
  }

  /** No call fails on the way to listing the directory at `path`. */
  ghost predicate CanVisit(disk: Disk, weather: Weather, path: Path)
    requires Walk(disk, path).Some?
  {
    if path == [] then !weather(Canonical([])).Fails?
    else
      && CanVisit(disk, weather, path[..|path| - 1]) && EntryRead(disk, weather, path)
      && !Blocked(disk, weather, Walk(disk, path).value)
  }

  /** No call fails on the way to seeing the directory at `path` in the one that holds it. */
  ghost predicate InSight(disk: Disk, weather: Weather, path: Path)
    requires path != [] && Walk(disk, path).Some?
  {
    CanVisit(disk, weather, path[..|path| - 1]) && EntryRead(disk, weather, path)
  }

  ghost predicate NothingFails(weather: Weather) {
    forall call: Call :: !weather(call).Fails?
  }

  lemma {:induction false} AllVisitable(disk: Disk, weather: Weather, path: Path)
    requires NothingFails(weather) && Walk(disk, path).Some?
    ensures CanVisit(disk, weather, path)
  {
    if path != [] {
      AllVisitable(disk, weather, path[..|path| - 1]);
    }
  }

  /** When nothing fails, nothing is hidden. */
  lemma AllInSight(disk: Disk, weather: Weather, path: Path)
    requires NothingFails(weather) && path != [] && Walk(disk, path).Some?
    ensures InSight(disk, weather, path)
  {
    AllVisitable(disk, weather, path[..|path| - 1]);
  }

  // ---------------------------------------------------------------------------
  // What the search keeps.

  /** A hit is a matching directory reached through eligible names, at most nine deep. */
  ghost predicate GoodHit(disk: Disk, lower: string -> string, query: string, hit: Hit) {
    && hit.path != [] && hit.path[|hit.path| - 1] == hit.name && Matching(lower, query, hit.name)
    && EligiblePath(hit.path) && Walk(disk, hit.path).Some? && |hit.path| <= MAX_DEPTH + 1
  }

  function Parent(disk: Disk, hit: Hit): Option<Node> {
    if hit.path == [] then None else Walk(disk, hit.path[..|hit.path| - 1])
  }

  /** Directory `name` in directory `n` is a hit, found at most `len` names deep. */
  ghost predicate HasHit(disk: Disk, hits: seq<Hit>, n: Node, name: string, len: nat) {
    exists h :: 0 <= h < |hits| && hits[h].name == name && Parent(disk, hits[h]) == Some(n) && |hits[h].path| <= len
  }

  /** How deep below home each visited directory was found. */
  type Depths = map<Node, nat>

  /** `t` has been visited at most `d` deep, or a path at most that long waits for it. */
  ghost predicate Reached(disk: Disk, depths: Depths, pending: seq<Path>, t: Node, d: nat) {
    || (t in depths && depths[t] <= d)
    || exists p :: 0 <= p < |pending| && Walk(disk, pending[p]) == Some(t) && |pending[p]| <= d
  }

  /** The first `k` entries of directory `n`, found `d` deep, are dealt with as far as they can
      be read: matches are hits, and directories are reached one deeper unless they are blocked,
      or `deep` says that some lie too deep. */
  ghost predicate Dealt(disk: Disk, weather: Weather, lower: string -> string, query: string, n: Node, d: nat, k: nat,
                        depths: Depths, pending: seq<Path>, hits: seq<Hit>, deep: bool) {
    k <= |Listing(disk, n)| && forall i :: 0 <= i < k ==>
      var e := Listing(disk, n)[i];
      e.target.Some? && EligibleName(e.name) && Readable(weather, n, i) ==>
        && (Contains(lower(e.name), query) ==> HasHit(disk, hits, n, e.name, d + 1))
        && (if d < MAX_DEPTH
            then Blocked(disk, weather, e.target.value) || Reached(disk, depths, pending, e.target.value, d + 1)
            else deep)
  }

  /** The queue goes from shallow to deep, one level at most, and nothing visited is deeper. */
  ghost predicate InLayers(pending: seq<Path>, depths: Depths) {
    && (forall p, q :: 0 <= p < q < |pending| ==> |pending[p]| <= |pending[q]| <= |pending[p]| + 1)
    && (forall n, p :: n in depths && 0 <= p < |pending| ==> depths[n] <= |pending[p]|)
  }

  ghost predicate GoodPending(disk: Disk, pending: seq<Path>) {
    forall p :: 0 <= p < |pending| ==>
      EligiblePath(pending[p]) && |pending[p]| <= MAX_DEPTH && Walk(disk, pending[p]).Some?
  }

  /** Hits are good, of visited directories, and no path twice. */
  ghost predicate GoodHits(disk: Disk, lower: string -> string, query: string, visited: set<Node>, hits: seq<Hit>) {
    && (forall h :: 0 <= h < |hits| ==> GoodHit(disk, lower, query, hits[h]) && Parent(disk, hits[h]).value in visited)
    && (forall h, g :: 0 <= h < g < |hits| ==> hits[h].path != hits[g].path)
  }

  lemma {:induction false} FindEntry(entries: seq<Entry>, i: nat)
    requires i < |entries| && forall a, b :: 0 <= a < b < |entries| ==> entries[a].name != entries[b].name
    ensures Find(entries, entries[i].name) == entries[i].target
  {
    if i > 0 {
      FindEntry(entries[1..], i - 1);
    }
  }

  /** The path of an entry leads where the entry does. */
  lemma WalkInto(disk: Disk, dir: Path, n: Node, i: nat)
    requires IsDisk(disk) && Walk(disk, dir) == Some(n) && i < |Listing(disk, n)|
    ensures Walk(disk, dir + [Listing(disk, n)[i].name]) == Listing(disk, n)[i].target
  {
    var path := dir + [Listing(disk, n)[i].name];
    assert path[..|path| - 1] == dir;
    FindEntry(Listing(disk, n), i);
  }

  /** All visited directories are dealt with and nothing waits. */
  ghost predicate AllDealt(disk: Disk, weather: Weather, lower: string -> string, query: string, depths: Depths,
                           hits: seq<Hit>, deep: bool) {
    && (weather(Canonical([])).Fails? || (disk.home in depths && depths[disk.home] == 0))
    && (forall n :: n in depths ==>
          && depths[n] <= MAX_DEPTH
          && Dealt(disk, weather, lower, query, n, depths[n], |Listing(disk, n)|, depths, [], hits, deep))
  }

  /** Once nothing waits, everything reachable through eligible names and past no failing call in
      eight steps has been visited, no deeper than that; and in any number of steps, when nothing
      lay too deep. */
  lemma {:induction false} ReachableIsVisited(disk: Disk, weather: Weather, lower: string -> string, query: string,
                                              depths: Depths, hits: seq<Hit>, deep: bool, path: Path)
    requires AllDealt(disk, weather, lower, query, depths, hits, deep)
    requires EligiblePath(path) && Walk(disk, path).Some? && CanVisit(disk, weather, path)
    requires !deep || |path| <= MAX_DEPTH
    ensures Walk(disk, path).value in depths && (|path| <= MAX_DEPTH ==> depths[Walk(disk, path).value] <= |path|)
  {
    if path != [] {
      var front, name := path[..|path| - 1], path[|path| - 1];
      ReachableIsVisited(disk, weather, lower, query, depths, hits, deep, front);
      var n := Walk(disk, front).value;
      var i := FoundAt(Listing(disk, n), name);
    }
  }

  lemma {:induction false} FoundAt(entries: seq<Entry>, name: string) returns (i: nat)
    requires Find(entries, name).Some?
    ensures i < |entries| && entries[i].name == name && entries[i].target == Find(entries, name)
  {
    if entries[0].name == name {
      i := 0;
    } else {
      var j := FoundAt(entries[1..], name);
      i := j + 1;
    }
  }

  /** The directory at `path` is a match that must not be missing. */
  ghost predicate IsMatch(disk: Disk, lower: string -> string, query: string, path: Path) {
    path != [] && EligiblePath(path) && Walk(disk, path).Some? && Contains(lower(path[|path| - 1]), query)
  }

  /** An answer that hides nothing: every eligible matching directory reachable through
      eligible names and past no failing call is there, under the directory that holds it and
      at a path no longer than that. */
  ghost predicate Complete(disk: Disk, weather: Weather, lower: string -> string, query: string, hits: seq<Hit>) {
    forall path: Path :: IsMatch(disk, lower, query, path) && InSight(disk, weather, path) ==>
      HasHit(disk, hits, Walk(disk, path[..|path| - 1]).value, path[|path| - 1], |path|)
  }

  /** The same of the directories at most nine levels down. */
  ghost predicate CompleteInReach(disk: Disk, weather: Weather, lower: string -> string, query: string,
                                  hits: seq<Hit>) {
    forall path: Path ::
      IsMatch(disk, lower, query, path) && InSight(disk, weather, path) && |path| <= MAX_DEPTH + 1 ==>
      HasHit(disk, hits, Walk(disk, path[..|path| - 1]).value, path[|path| - 1], |path|)
  }

  lemma DealtIsComplete(disk: Disk, weather: Weather, lower: string -> string, query: string, depths: Depths,
                        hits: seq<Hit>, deep: bool)
    requires AllDealt(disk, weather, lower, query, depths, hits, deep)
    ensures CompleteInReach(disk, weather, lower, query, hits)
    ensures !deep ==> Complete(disk, weather, lower, query, hits)
  {
    forall path: Path |
      IsMatch(disk, lower, query, path) && InSight(disk, weather, path) && (!deep || |path| <= MAX_DEPTH + 1)
      ensures HasHit(disk, hits, Walk(disk, path[..|path| - 1]).value, path[|path| - 1], |path|)
    {
      var front, name := path[..|path| - 1], path[|path| - 1];
      ReachableIsVisited(disk, weather, lower, query, depths, hits, deep, front);
      var i := FoundAt(Listing(disk, Walk(disk, front).value), name);
    }
  }

  lemma DealtGrows(disk: Disk, weather: Weather, lower: string -> string, query: string, n: Node, d: nat, k: nat,
                   depths: Depths, pending: seq<Path>, hits: seq<Hit>, deep: bool, morePending: seq<Path>,
                   moreHits: seq<Hit>, deeper: bool)
    requires Dealt(disk, weather, lower, query, n, d, k, depths, pending, hits, deep)
    requires pending <= morePending && hits <= moreHits && (deep ==> deeper)
    ensures Dealt(disk, weather, lower, query, n, d, k, depths, morePending, moreHits, deeper)
  {
    forall t: Node, r: nat | Reached(disk, depths, pending, t, r)
      ensures Reached(disk, depths, morePending, t, r)
    {
      ReachedStays(disk, depths, pending, t, r, morePending);
    }
    forall m: Node, name, len: nat | HasHit(disk, hits, m, name, len)
      ensures HasHit(disk, moreHits, m, name, len)
    {
      HitStays(disk, hits, moreHits, m, name, len);
    }
  }

  lemma HitStays(disk: Disk, hits: seq<Hit>, moreHits: seq<Hit>, n: Node, name: string, len: nat)
    requires HasHit(disk, hits, n, name, len) && forall hit :: hit in hits ==> hit in moreHits
    ensures HasHit(disk, moreHits, n, name, len)
  {
    var h :| 0 <= h < |hits| && hits[h].name == name && Parent(disk, hits[h]) == Some(n) && |hits[h].path| <= len;
    assert hits[h] in moreHits;
  }

  lemma ReachedStays(disk: Disk, depths: Depths, pending: seq<Path>, t: Node, r: nat, morePending: seq<Path>)
    requires Reached(disk, depths, pending, t, r) && pending <= morePending
    ensures Reached(disk, depths, morePending, t, r)
  {
    if !(t in depths && depths[t] <= r) {
      var p :| 0 <= p < |pending| && Walk(disk, pending[p]) == Some(t) && |pending[p]| <= r;
      assert morePending[p] == pending[p];
    }
  }

  ghost function NamesBefore(disk: Disk, n: Node, k: nat): set<string>
    requires k <= |Listing(disk, n)|
  {
    set i | 0 <= i < k :: Listing(disk, n)[i].name
  }

  /** What one listing adds to the hits: children of `dir` named in its first `k` entries. */
  ghost predicate NewHits(disk: Disk, dir: Path, n: Node, k: nat, before: nat, hits: seq<Hit>) {
    k <= |Listing(disk, n)| && before <= |hits| && forall h :: before <= h < |hits| ==>
      hits[h].path == dir + [hits[h].name] && hits[h].name in NamesBefore(disk, n, k)
  }

  lemma NameIsNew(disk: Disk, n: Node, k: nat)
    requires IsDisk(disk) && k < |Listing(disk, n)|
    ensures Listing(disk, n)[k].name !in NamesBefore(disk, n, k)
    ensures NamesBefore(disk, n, k + 1) == NamesBefore(disk, n, k) + {Listing(disk, n)[k].name}
  {
  }

  lemma HitIsNew(disk: Disk, dir: Path, n: Node, k: nat, visited: set<Node>, before: nat, hits: seq<Hit>,
                 lower: string -> string, query: string)
    requires IsDisk(disk) && Walk(disk, dir) == Some(n) && n !in visited && k < |Listing(disk, n)|
    requires before <= |hits| && GoodHits(disk, lower, query, visited, hits[..before])
    requires NewHits(disk, dir, n, k, before, hits)
    ensures forall h :: 0 <= h < |hits| ==> hits[h].path != dir + [Listing(disk, n)[k].name]
  {
    var path := dir + [Listing(disk, n)[k].name];
    NameIsNew(disk, n, k);
    forall h | 0 <= h < |hits|
      ensures hits[h].path != path
    {
      if h < before {
        assert hits[..before][h] == hits[h];
        assert path[..|path| - 1] == dir;
      } else {
        assert (dir + [hits[h].name])[|dir|] != path[|dir|];
      }
    }
  }

  lemma GoodHitsGrow(disk: Disk, lower: string -> string, query: string, visited: set<Node>, hits: seq<Hit>, hit: Hit)
    requires GoodHits(disk, lower, query, visited, hits) && GoodHit(disk, lower, query, hit)
    requires Parent(disk, hit).Some? && Parent(disk, hit).value in visited
    requires forall h :: 0 <= h < |hits| ==> hits[h].path != hit.path
    ensures GoodHits(disk, lower, query, visited, hits + [hit])
  {
  }

  lemma HitAdded(disk: Disk, lower: string -> string, query: string, dir: Path, n: Node, k: nat, visited: set<Node>,
                 before: nat, hits: seq<Hit>)
    requires IsDisk(disk) && Walk(disk, dir) == Some(n) && n !in visited && k < |Listing(disk, n)|
    requires EligiblePath(dir) && |dir| <= MAX_DEPTH
    requires Listing(disk, n)[k].target.Some? && Matching(lower, query, Listing(disk, n)[k].name)
    requires before <= |hits| && GoodHits(disk, lower, query, visited, hits[..before])
    requires NewHits(disk, dir, n, k, before, hits) && GoodHits(disk, lower, query, visited + {n}, hits)
    ensures var name := Listing(disk, n)[k].name; var more := hits + [Hit(name, dir + [name])];
      && GoodHits(disk, lower, query, visited + {n}, more)
      && NewHits(disk, dir, n, k + 1, before, more)
      && HasHit(disk, more, n, name, |dir| + 1)
  {
    var name := Listing(disk, n)[k].name;
    var hit := Hit(name, dir + [name]);
    WalkInto(disk, dir, n, k);
    HitIsNew(disk, dir, n, k, visited, before, hits, lower, query);
    assert hit.path[..|hit.path| - 1] == dir;
    GoodHitsGrow(disk, lower, query, visited + {n}, hits, hit);
    NameIsNew(disk, n, k);
    assert (hits + [hit])[|hits|] == hit;
  }

  lemma NewHitsStay(disk: Disk, dir: Path, n: Node, k: nat, before: nat, hits: seq<Hit>)
    requires IsDisk(disk) && k < |Listing(disk, n)| && NewHits(disk, dir, n, k, before, hits)
    ensures NewHits(disk, dir, n, k + 1, before, hits)
  {
    NameIsNew(disk, n, k);
  }

  /** One entry that is a directory of an eligible name: a hit when it matches, and queued
      unless it lies too deep. */
  method TakeDirectory(disk: Disk, lower: string -> string, query: string, dir: Path, n: Node, k: nat,
                       ghost visited: set<Node>, pending: seq<Path>, hits: seq<Hit>, ghost before: nat)
    returns (queue: seq<Path>, found: seq<Hit>, stop: bool, truncated: bool)
    requires IsDisk(disk) && Walk(disk, dir) == Some(n) && n !in visited && k < |Listing(disk, n)|
    requires EligiblePath(dir) && |dir| <= MAX_DEPTH
    requires Listing(disk, n)[k].target.Some? && EligibleName(Listing(disk, n)[k].name)
    requires GoodPending(disk, pending) && GoodHits(disk, lower, query, visited + {n}, hits) && |hits| < MAX_RESULTS
    requires before <= |hits| && GoodHits(disk, lower, query, visited, hits[..before])
    requires NewHits(disk, dir, n, k, before, hits)
    ensures pending <= queue && hits <= found && |found| <= MAX_RESULTS
    ensures GoodPending(disk, queue) && GoodHits(disk, lower, query, visited + {n}, found)
    ensures NewHits(disk, dir, n, k + 1, before, found)
    ensures (stop ==> truncated && |found| == MAX_RESULTS) && (!stop ==> |found| < MAX_RESULTS)
    ensures truncated && !stop ==> TooDeep(disk)
    ensures queue == pending + (if !stop && |dir| < MAX_DEPTH then [dir + [Listing(disk, n)[k].name]] else [])
    ensures !stop ==> (truncated <==> |dir| == MAX_DEPTH)
    ensures !stop && Contains(lower(Listing(disk, n)[k].name), query) ==>
      HasHit(disk, found, n, Listing(disk, n)[k].name, |dir| + 1)
  {
    queue, found, stop, truncated := pending, hits, false, false;
    var e := Listing(disk, n)[k];
    var path := dir + [e.name];
    WalkInto(disk, dir, n, k);
    NewHitsStay(disk, dir, n, k, before, hits);
    if Contains(lower(e.name), query) {
      HitAdded(disk, lower, query, dir, n, k, visited, before, hits);
      found := found + [Hit(e.name, path)];
      if |found| >= MAX_RESULTS {
        stop, truncated := true, true;
        return;
      }
    }
    if |dir| < MAX_DEPTH {
      PathQueued(disk, pending, dir, e.name);
      queue := queue + [path];
    } else {
      truncated := true;
      DeepPath(disk, dir, n, k);
    }
  }

  lemma PathQueued(disk: Disk, pending: seq<Path>, dir: Path, name: string)
    requires GoodPending(disk, pending) && EligiblePath(dir) && EligibleName(name) && |dir| < MAX_DEPTH
    requires Walk(disk, dir + [name]).Some?
    ensures GoodPending(disk, pending + [dir + [name]])
  {
  }

  /** Some directory lies deeper than the search goes. */
  ghost predicate TooDeep(disk: Disk) {
    exists path: Path :: |path| == MAX_DEPTH + 1 && EligiblePath(path) && Walk(disk, path).Some?
  }

  /** The time was up during some call about directory `n`. */
  ghost predicate SlowIn(disk: Disk, weather: Weather, n: Node) {
    || weather(Open(n)).TooSlow?
    || (exists k :: 0 <= k <= |Listing(disk, n)| && weather(Next(n, k)).TooSlow?)
    || (exists k :: 0 <= k < |Listing(disk, n)| && weather(TypeOf(n, k)).TooSlow?)
  }

  /** The reasons to end before the queue is empty: a bound, or a slow call about one of the
      directories listed or a path that may be queued. */
  ghost predicate Halted(disk: Disk, weather: Weather, listed: seq<Node>, hits: seq<Hit>, read: nat) {
    || |hits| == MAX_RESULTS || read == MAX_READ
    || (exists n :: n in listed && SlowIn(disk, weather, n))
    || exists path: Path :: |path| <= MAX_DEPTH && EligiblePath(path) && Walk(disk, path).Some?
         && weather(Canonical(path)).TooSlow?
  }

  /** The only reasons to mark an answer truncated. */
  ghost predicate Excused(disk: Disk, weather: Weather, listed: seq<Node>, hits: seq<Hit>, read: nat) {
    TooDeep(disk) || Halted(disk, weather, listed, hits, read)
  }

  lemma DeepPath(disk: Disk, dir: Path, n: Node, k: nat)
    requires IsDisk(disk) && Walk(disk, dir) == Some(n) && EligiblePath(dir) && |dir| == MAX_DEPTH
    requires k < |Listing(disk, n)| && Listing(disk, n)[k].target.Some? && EligibleName(Listing(disk, n)[k].name)
    ensures TooDeep(disk)
  {
    WalkInto(disk, dir, n, k);
    assert EligiblePath(dir + [Listing(disk, n)[k].name]);
  }

  /** The type of an entry: its directory, when it is one and the file system says so. */
  method AskType(weather: Weather, n: Node, k: nat, e: Entry) returns (target: Option<Node>, slow: bool)
    ensures slow <==> weather(TypeOf(n, k)).TooSlow?
    ensures target == if weather(TypeOf(n, k)).Answers? then e.target else None
  {
    match weather(TypeOf(n, k))
    case Answers => target, slow := e.target, false;
    case Fails => target, slow := None, false;
    case TooSlow => target, slow := None, true;
  }

  /** Directory `n`, found at `dir`, while its entries are read: the queue holds its level and
      the next. */
  ghost predicate OnLevel(dir: Path, n: Node, depths: Depths, queue: seq<Path>) {
    && InLayers(queue, depths[n := |dir|]) && (forall m :: m in depths ==> depths[m] <= |dir|)
    && forall q :: 0 <= q < |queue| ==> |dir| <= |queue[q]| <= |dir| + 1
  }

  lemma OneEntryDealt(disk: Disk, weather: Weather, lower: string -> string, query: string, dir: Path, n: Node, k: nat,
                      depths: Depths, pending: seq<Path>, hits: seq<Hit>, deep: bool, queue: seq<Path>, found: seq<Hit>)
    requires IsDisk(disk) && Walk(disk, dir) == Some(n) && k < |Listing(disk, n)| && |dir| <= MAX_DEPTH
    requires var name := Listing(disk, n)[k].name;
      && queue == pending + (if |dir| < MAX_DEPTH then [dir + [name]] else []) && hits <= found
      && (Contains(lower(name), query) ==> HasHit(disk, found, n, name, |dir| + 1))
    requires Dealt(disk, weather, lower, query, n, |dir|, k, depths, pending, hits, deep)
    ensures Dealt(disk, weather, lower, query, n, |dir|, k + 1, depths, queue, found, deep || |dir| == MAX_DEPTH)
  {
    DealtGrows(disk, weather, lower, query, n, |dir|, k, depths, pending, hits, deep, queue, found,
               deep || |dir| == MAX_DEPTH);
    WalkInto(disk, dir, n, k);
    if |dir| < MAX_DEPTH {
      var path := dir + [Listing(disk, n)[k].name];
      assert queue[|pending|] == path;
    }
  }

  /** The queue goes on with a path of the next level, if there is one to queue. */
  lemma StillOnLevel(dir: Path, n: Node, depths: Depths, pending: seq<Path>, name: string, queue: seq<Path>)
    requires OnLevel(dir, n, depths, pending)
    requires queue == pending || queue == pending + [dir + [name]]
    ensures OnLevel(dir, n, depths, queue)
  {
  }

  /** What is kept while the entries of directory `n` are read; `before` are the earlier hits. */
  ghost predicate Reading(disk: Disk, weather: Weather, lower: string -> string, query: string, dir: Path, n: Node,
                          k: nat,
                          depths: Depths, before: seq<Hit>, queue: seq<Path>, found: seq<Hit>, truncated: bool) {
    && GoodPending(disk, queue) && OnLevel(dir, n, depths, queue)
    && GoodHits(disk, lower, query, depths.Keys, before) && before <= found && |found| < MAX_RESULTS
    && GoodHits(disk, lower, query, depths.Keys + {n}, found) && NewHits(disk, dir, n, k, |before|, found)
    && (truncated ==> TooDeep(disk))
    && Dealt(disk, weather, lower, query, n, |dir|, k, depths[n := |dir|], queue, found, truncated)
  }

  lemma EntrySkipped(disk: Disk, weather: Weather, lower: string -> string, query: string, dir: Path, n: Node, k: nat,
                     depths: Depths, before: seq<Hit>, queue: seq<Path>, found: seq<Hit>, truncated: bool)
    requires IsDisk(disk) && k < |Listing(disk, n)|
    requires !EligibleName(Listing(disk, n)[k].name) || Listing(disk, n)[k].target.None? || !Readable(weather, n, k)
    requires Reading(disk, weather, lower, query, dir, n, k, depths, before, queue, found, truncated)
    ensures Reading(disk, weather, lower, query, dir, n, k + 1, depths, before, queue, found, truncated)
  {
    NameIsNew(disk, n, k);
  }

  lemma EntryTaken(disk: Disk, weather: Weather, lower: string -> string, query: string, dir: Path, n: Node, k: nat,
                   depths: Depths, before: seq<Hit>, pending: seq<Path>, hits: seq<Hit>, deep: bool,
                   queue: seq<Path>, found: seq<Hit>)
    requires IsDisk(disk) && Walk(disk, dir) == Some(n) && EligiblePath(dir) && |dir| <= MAX_DEPTH
    requires k < |Listing(disk, n)|
    requires Listing(disk, n)[k].target.Some? && EligibleName(Listing(disk, n)[k].name)
    requires Reading(disk, weather, lower, query, dir, n, k, depths, before, pending, hits, deep)
    requires GoodPending(disk, queue) && GoodHits(disk, lower, query, depths.Keys + {n}, found)
    requires NewHits(disk, dir, n, k + 1, |before|, found) && hits <= found && |found| < MAX_RESULTS
    requires var name := Listing(disk, n)[k].name;
      && queue == pending + (if |dir| < MAX_DEPTH then [dir + [name]] else [])
      && (Contains(lower(name), query) ==> HasHit(disk, found, n, name, |dir| + 1))
    ensures Reading(disk, weather, lower, query, dir, n, k + 1, depths, before, queue, found,
                    deep || |dir| == MAX_DEPTH)
  {
    StillOnLevel(dir, n, depths, pending, Listing(disk, n)[k].name, queue);
    if |dir| == MAX_DEPTH {
      DeepPath(disk, dir, n, k);
    }
    OneEntryDealt(disk, weather, lower, query, dir, n, k, depths[n := |dir|], pending, hits, deep, queue, found);
  }

  /** One entry: its type is read unless its name rules it out. */
  method TakeEntry(disk: Disk, weather: Weather, lower: string -> string, query: string, dir: Path, n: Node, k: nat,
                   ghost depths: Depths, ghost before: seq<Hit>, pending: seq<Path>, hits: seq<Hit>, deep: bool)
    returns (queue: seq<Path>, found: seq<Hit>, stop: bool, truncated: bool)
    requires IsDisk(disk) && Walk(disk, dir) == Some(n) && n !in depths && EligiblePath(dir) && |dir| <= MAX_DEPTH
    requires k < |Listing(disk, n)|
    requires Reading(disk, weather, lower, query, dir, n, k, depths, before, pending, hits, deep)
    ensures !stop ==> Reading(disk, weather, lower, query, dir, n, k + 1, depths, before, queue, found, truncated)
    ensures stop ==> |found| <= MAX_RESULTS && (|found| == MAX_RESULTS || SlowIn(disk, weather, n))
    ensures GoodPending(disk, queue) && OnLevel(dir, n, depths, queue)
    ensures GoodHits(disk, lower, query, depths.Keys + {n}, found)
    ensures pending <= queue && hits <= found && (stop ==> truncated)
  {
    queue, found, stop, truncated := pending, hits, false, deep;
    var e := Listing(disk, n)[k];
    var target: Option<Node> := None;
    if EligibleName(e.name) {
      target, stop := AskType(weather, n, k, e);
      if stop {
        truncated := true;
        return;
      }
    }
    if target.None? {
      EntrySkipped(disk, weather, lower, query, dir, n, k, depths, before, pending, hits, deep);
      return;
    }
    var cut;
    assert found[..|before|] == before;
    queue, found, stop, cut := TakeDirectory(disk, lower, query, dir, n, k, depths.Keys, queue, found, |before|);
    truncated := truncated || cut;
    if stop {
      StillOnLevel(dir, n, depths, pending, e.name, queue);
    } else {
      EntryTaken(disk, weather, lower, query, dir, n, k, depths, before, pending, hits, deep, queue, found);
    }
  }

  /** Past a failing read, or at the end, there is nothing more to read. */
  lemma RestUnread(disk: Disk, weather: Weather, lower: string -> string, query: string, n: Node, d: nat, k: nat,
                   depths: Depths, pending: seq<Path>, hits: seq<Hit>, deep: bool)
    requires Dealt(disk, weather, lower, query, n, d, k, depths, pending, hits, deep)
    requires k == |Listing(disk, n)| || weather(Next(n, k)).Fails? || weather(Open(n)).Fails?
    ensures Dealt(disk, weather, lower, query, n, d, |Listing(disk, n)|, depths, pending, hits, deep)
  {
  }

  /** The entries of one directory, until they end, the file system fails or runs out of time,
      or a bound is reached. */
  method ReadEntries(disk: Disk, weather: Weather, lower: string -> string, query: string, dir: Path, n: Node,
                     ghost depths: Depths, pending: seq<Path>, hits: seq<Hit>, read: nat)
    returns (queue: seq<Path>, found: seq<Hit>, total: nat, stop: bool, truncated: bool)
    requires IsDisk(disk) && Walk(disk, dir) == Some(n) && n !in depths && EligiblePath(dir) && |dir| <= MAX_DEPTH
    requires GoodPending(disk, pending) && GoodHits(disk, lower, query, depths.Keys, hits)
    requires OnLevel(dir, n, depths, pending)
    requires |hits| < MAX_RESULTS && read <= MAX_READ
    ensures pending <= queue && hits <= found && read <= total <= MAX_READ && total - read <= |Listing(disk, n)|
    ensures queue == pending || total > read
    ensures GoodPending(disk, queue) && GoodHits(disk, lower, query, depths.Keys + {n}, found)
    ensures OnLevel(dir, n, depths, queue)
    ensures |found| <= MAX_RESULTS && (!stop ==> |found| < MAX_RESULTS) && (stop ==> truncated)
    ensures stop ==> |found| == MAX_RESULTS || total == MAX_READ || SlowIn(disk, weather, n)
    ensures truncated && !stop ==> TooDeep(disk)
    ensures !stop ==>
      Dealt(disk, weather, lower, query, n, |dir|, |Listing(disk, n)|, depths[n := |dir|], queue, found, truncated)
  {
    queue, found, total, stop, truncated := pending, hits, read, false, false;
    var entries := Listing(disk, n);
    var k := 0;
    while true
      invariant 0 <= k <= |entries| && total == read + k <= MAX_READ
      invariant pending <= queue && !stop && (queue == pending || k > 0)
      invariant Reading(disk, weather, lower, query, dir, n, k, depths, hits, queue, found, truncated)
      decreases |entries| - k
    {
      if total >= MAX_READ {
        stop, truncated := true, true;
        return;
      }
      var next := weather(Next(n, k));
      if next.TooSlow? {
        stop, truncated := true, true;
        return;
      }
      if k == |entries| || next.Fails? {
        RestUnread(disk, weather, lower, query, n, |dir|, k, depths[n := |dir|], queue, found, truncated);
        break;
      }
      total := total + 1;
      queue, found, stop, truncated :=
        TakeEntry(disk, weather, lower, query, dir, n, k, depths, hits, queue, found, truncated);
      if stop {
        return;
      }
      k := k + 1;
    }
  }

  function HitLe(home: string): (Hit, Hit) -> bool {
    (a: Hit, b: Hit) => Sorting.TextLe(Rendered(home, a.path), Rendered(home, b.path))
  }

  lemma HitLeIsOrder(home: string)
    ensures Sorting.IsOrder(HitLe(home))
  {
    forall a: Hit, b: Hit
      ensures HitLe(home)(a, b) || HitLe(home)(b, a)
    {
      Sorting.TextLeTotal(Rendered(home, a.path), Rendered(home, b.path));
    }
    forall a: Hit, b: Hit, c: Hit | HitLe(home)(a, b) && HitLe(home)(b, c)
      ensures HitLe(home)(a, c)
    {
      Sorting.TextLeTransitive(Rendered(home, a.path), Rendered(home, b.path), Rendered(home, c.path));
    }
  }

  /** Every visited directory is dealt with, and home is visited or waits. */
  ghost predicate Covered(disk: Disk, weather: Weather, lower: string -> string, query: string, depths: Depths,
                          pending: seq<Path>, hits: seq<Hit>, deep: bool) {
    && (weather(Canonical([])).Fails? || Reached(disk, depths, pending, disk.home, 0))
    && forall m :: m in depths ==> Dealt(disk, weather, lower, query, m, depths[m], |Listing(disk, m)|, depths,
                                         pending, hits, deep)
  }

  /** The same but for directory `n`, which is being listed, `d` deep. */
  ghost predicate CoveredBut(disk: Disk, weather: Weather, lower: string -> string, query: string, n: Node, d: nat,
                             depths: Depths, pending: seq<Path>, hits: seq<Hit>, deep: bool) {
    && n !in depths && (weather(Canonical([])).Fails? || Reached(disk, depths[n := d], pending, disk.home, 0))
    && forall m :: m in depths ==>
         Dealt(disk, weather, lower, query, m, depths[m], |Listing(disk, m)|, depths[n := d], pending, hits, deep)
  }

  /** The directories visited once the first path is off the queue: it fails, leads nowhere new,
      or is about to be visited. */
  ghost function DepthsNext(disk: Disk, weather: Weather, depths: Depths, path: Path): Depths
    requires Walk(disk, path).Some?
  {
    var n := Walk(disk, path).value;
    if weather(Canonical(path)).Fails? || n in depths then depths else depths[n := |path|]
  }

  lemma ReachedPop(disk: Disk, weather: Weather, depths: Depths, pending: seq<Path>, t: Node, r: nat)
    requires pending != [] && Walk(disk, pending[0]).Some? && InLayers(pending, depths)
    requires Reached(disk, depths, pending, t, r)
    ensures
      || Reached(disk, DepthsNext(disk, weather, depths, pending[0]), pending[1..], t, r)
      || (weather(Canonical(pending[0])).Fails? && Walk(disk, pending[0]) == Some(t) && |pending[0]| <= r)
  {
    if !(t in depths && depths[t] <= r) {
      var p :| 0 <= p < |pending| && Walk(disk, pending[p]) == Some(t) && |pending[p]| <= r;
      if p > 0 {
        assert pending[1..][p - 1] == pending[p];
      }
    }
  }

  lemma DealtPop(disk: Disk, weather: Weather, lower: string -> string, query: string, m: Node, depths: Depths,
                 pending: seq<Path>, hits: seq<Hit>, deep: bool)
    requires pending != [] && GoodPending(disk, pending) && InLayers(pending, depths) && m in depths
    requires Dealt(disk, weather, lower, query, m, depths[m], |Listing(disk, m)|, depths, pending, hits, deep)
    ensures Dealt(disk, weather, lower, query, m, depths[m], |Listing(disk, m)|,
                  DepthsNext(disk, weather, depths, pending[0]), pending[1..], hits, deep)
  {
    forall t: Node, r: nat | Reached(disk, depths, pending, t, r)
      ensures Blocked(disk, weather, t)
           || Reached(disk, DepthsNext(disk, weather, depths, pending[0]), pending[1..], t, r)
    {
      ReachedPop(disk, weather, depths, pending, t, r);
    }
  }

  lemma CoveredPop(disk: Disk, weather: Weather, lower: string -> string, query: string, depths: Depths,
                   pending: seq<Path>, hits: seq<Hit>, deep: bool)
    requires Covered(disk, weather, lower, query, depths, pending, hits, deep)
    requires pending != [] && GoodPending(disk, pending) && InLayers(pending, depths)
    ensures var n := Walk(disk, pending[0]).value;
      if n in depths || weather(Canonical(pending[0])).Fails?
      then Covered(disk, weather, lower, query, depths, pending[1..], hits, deep)
      else CoveredBut(disk, weather, lower, query, n, |pending[0]|, depths, pending[1..], hits, deep)
  {
    if Reached(disk, depths, pending, disk.home, 0) {
      ReachedPop(disk, weather, depths, pending, disk.home, 0);
    }
    forall m | m in depths
      ensures Dealt(disk, weather, lower, query, m, depths[m], |Listing(disk, m)|,
                    DepthsNext(disk, weather, depths, pending[0]), pending[1..], hits, deep)
    {
      DealtPop(disk, weather, lower, query, m, depths, pending, hits, deep);
    }
  }

  lemma CoveredGrows(disk: Disk, weather: Weather, lower: string -> string, query: string, depths: Depths, n: Node,
                     d: nat, pending: seq<Path>, hits: seq<Hit>, deep: bool, queue: seq<Path>, found: seq<Hit>,
                     deeper: bool)
    requires pending <= queue && hits <= found && (deep ==> deeper)
    requires CoveredBut(disk, weather, lower, query, n, d, depths, pending, hits, deep)
    requires Dealt(disk, weather, lower, query, n, d, |Listing(disk, n)|, depths[n := d], queue, found, deeper)
    ensures Covered(disk, weather, lower, query, depths[n := d], queue, found, deeper)
  {
    if Reached(disk, depths[n := d], pending, disk.home, 0) {
      ReachedStays(disk, depths[n := d], pending, disk.home, 0, queue);
    }
    forall m | m in depths
      ensures Dealt(disk, weather, lower, query, m, depths[m], |Listing(disk, m)|, depths[n := d], queue, found, deeper)
    {
      DealtGrows(disk, weather, lower, query, m, depths[m], |Listing(disk, m)|, depths[n := d], pending, hits, deep,
                 queue, found, deeper);
    }
  }

  lemma LayersPop(disk: Disk, pending: seq<Path>, depths: Depths)
    requires pending != [] && Walk(disk, pending[0]).Some? && InLayers(pending, depths)
    ensures InLayers(pending[1..], depths)
    ensures OnLevel(pending[0], Walk(disk, pending[0]).value, depths, pending[1..])
  {
  }

  ghost predicate Distinct<T>(xs: seq<T>) {
    forall i, j :: 0 <= i < j < |xs| ==> xs[i] != xs[j]
  }

  function Entries(disk: Disk, listed: seq<Node>): nat {
    if listed == [] then 0
    else Entries(disk, listed[..|listed| - 1]) + |Listing(disk, listed[|listed| - 1])|
  }

  /** The directories the search set out to list: none twice, and the entries read are theirs. */
  ghost predicate ListedOnce(disk: Disk, listed: seq<Node>, visited: set<Node>, read: nat) {
    && Distinct(listed) && (forall n :: n in listed <==> n in visited)
    && read <= MAX_READ && read <= Entries(disk, listed)
  }

  lemma ListsOneMore(disk: Disk, listed: seq<Node>, visited: set<Node>, read: nat, n: Node, total: nat)
    requires ListedOnce(disk, listed, visited, read) && n !in visited
    requires total <= MAX_READ && total <= read + |Listing(disk, n)|
    ensures ListedOnce(disk, listed + [n], visited + {n}, total)
  {
  }

  /** All the matches that can be read in directory `n` are hits. */
  ghost predicate FullyListed(disk: Disk, weather: Weather, lower: string -> string, query: string, hits: seq<Hit>,
                              n: Node) {
    forall i :: 0 <= i < |Listing(disk, n)| ==>
      var e := Listing(disk, n)[i];
      e.target.Some? && Matching(lower, query, e.name) && Readable(weather, n, i) ==>
        HasHit(disk, hits, n, e.name, MAX_DEPTH + 1)
  }

  /** All but the last of the directories listed are. */
  ghost predicate FullyListedBefore(disk: Disk, weather: Weather, lower: string -> string, query: string,
                                    hits: seq<Hit>, listed: seq<Node>) {
    forall l :: 0 <= l < |listed| - 1 ==> FullyListed(disk, weather, lower, query, hits, listed[l])
  }

  /** The search. It ends on any disk, lists no directory twice and reads at most 10,000
      entries, those of the directories it lists; it answers at most 30 matching directories,
      each under one it listed, no path twice. An answer is marked truncated only for a reason;
      one that is not misses nothing that failing calls do not hide, and one truncated for depth
      alone misses nothing of that nine levels down. Both are sorted. Whatever ends it, the
      directories listed before the last one are fully listed. */
  method Search(disk: Disk, weather: Weather, home: string, lower: string -> string, query: string)
    returns (hits: seq<Hit>, truncated: bool, read: nat, ghost listed: seq<Node>)
    requires IsDisk(disk)
    ensures |hits| <= MAX_RESULTS
    ensures exists visited :: GoodHits(disk, lower, query, visited, hits) && ListedOnce(disk, listed, visited, read)
    ensures !truncated || !Halted(disk, weather, listed, hits, read) ==> Sorting.Sorted(hits, HitLe(home))
    ensures truncated ==> Excused(disk, weather, listed, hits, read)
    ensures query == "" || Utf8Len(query) > MAX_QUERY_BYTES ==> hits == [] && !truncated && listed == []
    ensures query != "" && Utf8Len(query) <= MAX_QUERY_BYTES ==>
      && (!truncated ==> Complete(disk, weather, lower, query, hits))
      && (!Halted(disk, weather, listed, hits, read) ==> CompleteInReach(disk, weather, lower, query, hits))
    ensures FullyListedBefore(disk, weather, lower, query, hits, listed)
  {
    hits, truncated, read, listed := [], false, 0, [];
    ghost var visitedAtEnd: set<Node> := {};
    assert GoodHits(disk, lower, query, visitedAtEnd, hits) && ListedOnce(disk, listed, visitedAtEnd, read);
    if query == "" || Utf8Len(query) > MAX_QUERY_BYTES {
      return;
    }
    var stop;
    ghost var visited, halted;
    hits, truncated, read, listed, stop, visited, halted := Collect(disk, weather, lower, query);
    if stop {
      return;
    }
    ghost var unsorted := hits;
    hits := SortHits(hits, home);
    SortKeepsAnswer(disk, weather, lower, query, home, visited, unsorted, listed);
  }

  /** Opens and lists one directory: `broke` when opening it took too long, `stop` when its
      entries cut the search short. */
  method ListDirectory(disk: Disk, weather: Weather, lower: string -> string, query: string, dir: Path, n: Node,
                       ghost depths: Depths, pending: seq<Path>, hits: seq<Hit>, read: nat, ghost deep: bool)
    returns (queue: seq<Path>, found: seq<Hit>, total: nat, stop: bool, broke: bool, truncated: bool)
    requires IsDisk(disk) && Walk(disk, dir) == Some(n) && EligiblePath(dir) && |dir| <= MAX_DEPTH
    requires GoodPending(disk, pending) && GoodHits(disk, lower, query, depths.Keys, hits)
    requires OnLevel(dir, n, depths, pending)
    requires |hits| < MAX_RESULTS && read <= MAX_READ
    requires CoveredBut(disk, weather, lower, query, n, |dir|, depths, pending, hits, deep)
    ensures hits <= found && read <= total <= MAX_READ && total - read <= |Listing(disk, n)|
    ensures queue == pending || total > read
    ensures GoodPending(disk, queue) && GoodHits(disk, lower, query, depths.Keys + {n}, found)
    ensures OnLevel(dir, n, depths, queue)
    ensures |found| <= MAX_RESULTS && (!stop ==> |found| < MAX_RESULTS) && (stop || broke ==> truncated)
    ensures stop || broke ==> |found| == MAX_RESULTS || total == MAX_READ || SlowIn(disk, weather, n)
    ensures truncated && !stop && !broke ==> TooDeep(disk)
    ensures !stop && !broke ==>
      Covered(disk, weather, lower, query, depths[n := |dir|], queue, found, deep || truncated)
  {
    queue, found, total, stop, broke, truncated := pending, hits, read, false, false, false;
    var reader := weather(Open(n));
    if reader.TooSlow? {
      broke, truncated := true, true;
      return;
    }
    if reader.Fails? {
      RestUnread(disk, weather, lower, query, n, |dir|, 0, depths[n := |dir|], queue, found, false);
    } else {
      queue, found, total, stop, truncated :=
        ReadEntries(disk, weather, lower, query, dir, n, depths, pending, hits, read);
    }
    if !stop {
      DealtGrows(disk, weather, lower, query, n, |dir|, |Listing(disk, n)|, depths[n := |dir|], queue, found,
                 truncated, queue, found, deep || truncated);
      CoveredGrows(disk, weather, lower, query, depths, n, |dir|, pending, hits, deep, queue, found, deep || truncated);
    }
  }

  lemma NothingListed(disk: Disk, weather: Weather, lower: string -> string, query: string)
    ensures Covered(disk, weather, lower, query, map[], [[]], [], false) && InLayers([[]], map[])
    ensures GoodPending(disk, [[]]) && GoodHits(disk, lower, query, {}, []) && ListedOnce(disk, [], {}, 0)
  {
    var pending: seq<Path> := [[]];
    assert Walk(disk, pending[0]) == Some(disk.home);
  }

  /** What the loop over the queue keeps. */
  ghost predicate Searching(disk: Disk, weather: Weather, lower: string -> string, query: string, depths: Depths,
                            pending: seq<Path>, hits: seq<Hit>, listed: seq<Node>, read: nat, truncated: bool) {
    && GoodPending(disk, pending) && InLayers(pending, depths) && (forall m :: m in depths ==> depths[m] <= MAX_DEPTH)
    && GoodHits(disk, lower, query, depths.Keys, hits) && |hits| < MAX_RESULTS
    && ListedOnce(disk, listed, depths.Keys, read)
    && (truncated ==> TooDeep(disk))
    && Covered(disk, weather, lower, query, depths, pending, hits, truncated)
  }

  /** The first path leads nowhere new, or the file system fails on it. */
  lemma PathDropped(disk: Disk, weather: Weather, lower: string -> string, query: string, depths: Depths,
                    pending: seq<Path>, hits: seq<Hit>, listed: seq<Node>, read: nat, truncated: bool)
    requires Searching(disk, weather, lower, query, depths, pending, hits, listed, read, truncated) && pending != []
    requires Walk(disk, pending[0]).value in depths || weather(Canonical(pending[0])).Fails?
    ensures Searching(disk, weather, lower, query, depths, pending[1..], hits, listed, read, truncated)
  {
    LayersPop(disk, pending, depths);
    CoveredPop(disk, weather, lower, query, depths, pending, hits, truncated);
  }

  lemma ListedFully(disk: Disk, weather: Weather, lower: string -> string, query: string, depths: Depths,
                    pending: seq<Path>, hits: seq<Hit>, listed: seq<Node>, read: nat, truncated: bool, found: seq<Hit>)
    requires Searching(disk, weather, lower, query, depths, pending, hits, listed, read, truncated) && hits <= found
    ensures forall l :: 0 <= l < |listed| ==> FullyListed(disk, weather, lower, query, found, listed[l])
  {
    forall l, i | 0 <= l < |listed| && 0 <= i < |Listing(disk, listed[l])|
      ensures var e := Listing(disk, listed[l])[i];
        e.target.Some? && Matching(lower, query, e.name) && Readable(weather, listed[l], i) ==>
          HasHit(disk, found, listed[l], e.name, MAX_DEPTH + 1)
    {
      DealtIsHit(disk, weather, lower, query, depths, pending, hits, truncated, found, listed[l], i);
    }
  }

  lemma DealtIsHit(disk: Disk, weather: Weather, lower: string -> string, query: string, depths: Depths,
                   pending: seq<Path>, hits: seq<Hit>, truncated: bool, found: seq<Hit>, n: Node, i: nat)
    requires n in depths && depths[n] <= MAX_DEPTH && i < |Listing(disk, n)| && hits <= found
    requires Dealt(disk, weather, lower, query, n, depths[n], |Listing(disk, n)|, depths, pending, hits, truncated)
    ensures var e := Listing(disk, n)[i];
      e.target.Some? && Matching(lower, query, e.name) && Readable(weather, n, i) ==>
        HasHit(disk, found, n, e.name, MAX_DEPTH + 1)
  {
    var e := Listing(disk, n)[i];
    if HasHit(disk, hits, n, e.name, depths[n] + 1) {
      HitStays(disk, hits, found, n, e.name, depths[n] + 1);
    }
  }

  /** A visit lists one directory more, and stops for a reason. */
  lemma Visited(disk: Disk, weather: Weather, lower: string -> string, query: string, depths: Depths,
                pending: seq<Path>, hits: seq<Hit>, listed: seq<Node>, read: nat, deep: bool, found: seq<Hit>,
                total: nat)
    requires pending != [] && Walk(disk, pending[0]).Some? && Walk(disk, pending[0]).value !in depths
    requires Searching(disk, weather, lower, query, depths, pending, hits, listed, read, deep) && hits <= found
    requires total <= MAX_READ && total - read <= |Listing(disk, Walk(disk, pending[0]).value)|
    ensures var n := Walk(disk, pending[0]).value;
      && ListedOnce(disk, listed + [n], depths.Keys + {n}, total)
      && FullyListedBefore(disk, weather, lower, query, found, listed + [n])
      && (SlowIn(disk, weather, n) ==> Halted(disk, weather, listed + [n], found, total))
  {
    var n := Walk(disk, pending[0]).value;
    ListsOneMore(disk, listed, depths.Keys, read, n, total);
    ListedFully(disk, weather, lower, query, depths, pending, hits, listed, read, deep, found);
    assert n in listed + [n];
  }

  lemma GoesOn(disk: Disk, weather: Weather, lower: string -> string, query: string, dir: Path, n: Node,
               depths: Depths, queue: seq<Path>, found: seq<Hit>, listed: seq<Node>, total: nat, truncated: bool)
    requires GoodPending(disk, queue) && OnLevel(dir, n, depths, queue) && |dir| <= MAX_DEPTH
    requires GoodHits(disk, lower, query, depths.Keys + {n}, found) && |found| < MAX_RESULTS
    requires ListedOnce(disk, listed + [n], depths.Keys + {n}, total)
    requires truncated ==> TooDeep(disk)
    requires Covered(disk, weather, lower, query, depths[n := |dir|], queue, found, truncated)
    ensures Searching(disk, weather, lower, query, depths[n := |dir|], queue, found, listed + [n], total, truncated)
  {
    assert depths[n := |dir|].Keys == depths.Keys + {n};
  }

  /** Visits the directory at the head of the queue, which is a new one. */
  method Visit(disk: Disk, weather: Weather, lower: string -> string, query: string, ghost depths: Depths,
               pending: seq<Path>, hits: seq<Hit>, ghost listed: seq<Node>, read: nat, deep: bool)
    returns (queue: seq<Path>, found: seq<Hit>, total: nat, stop: bool, broke: bool, truncated: bool)
    requires IsDisk(disk) && pending != [] && Walk(disk, pending[0]).Some? && Walk(disk, pending[0]).value !in depths
    requires !weather(Canonical(pending[0])).Fails?
    requires Searching(disk, weather, lower, query, depths, pending, hits, listed, read, deep)
    ensures read <= total <= MAX_READ && (queue == pending[1..] || total > read)
    ensures |found| <= MAX_RESULTS && (stop || broke ==> truncated)
    ensures var n := Walk(disk, pending[0]).value;
      && (stop || broke ==> Halted(disk, weather, listed + [n], found, total))
      && FullyListedBefore(disk, weather, lower, query, found, listed + [n])
      && GoodHits(disk, lower, query, depths.Keys + {n}, found)
      && ListedOnce(disk, listed + [n], depths.Keys + {n}, total)
      && (!stop && !broke ==>
            Searching(disk, weather, lower, query, depths[n := |pending[0]|], queue, found, listed + [n], total,
                      truncated))
  {
    var dir := pending[0];
    var n := Walk(disk, dir).value;
    LayersPop(disk, pending, depths);
    CoveredPop(disk, weather, lower, query, depths, pending, hits, deep);
    var cut;
    queue, found, total, stop, broke, cut :=
      ListDirectory(disk, weather, lower, query, dir, n, depths, pending[1..], hits, read, deep);
    Visited(disk, weather, lower, query, depths, pending, hits, listed, read, deep, found, total);
    truncated := deep || cut;
    if !stop && !broke {
      GoesOn(disk, weather, lower, query, dir, n, depths, queue, found, listed, total, truncated);
    }
  }

  lemma SlowPathHalts(disk: Disk, weather: Weather, pending: seq<Path>, listed: seq<Node>, hits: seq<Hit>, read: nat)
    requires GoodPending(disk, pending) && pending != [] && weather(Canonical(pending[0])).TooSlow?
    ensures Halted(disk, weather, listed, hits, read)
  {
  }

  /** The loop over the queue; `stop` when a directory's entries cut it short, `halted` when
      anything did. */
  method Collect(disk: Disk, weather: Weather, lower: string -> string, query: string)
    returns (hits: seq<Hit>, truncated: bool, read: nat, ghost listed: seq<Node>, stop: bool, ghost visited: set<Node>,
             ghost halted: bool)
    requires IsDisk(disk)
    ensures |hits| <= MAX_RESULTS && (stop ==> halted) && (halted ==> truncated)
    ensures GoodHits(disk, lower, query, visited, hits) && ListedOnce(disk, listed, visited, read)
    ensures halted ==> Halted(disk, weather, listed, hits, read)
    ensures truncated && !halted ==> TooDeep(disk)
    ensures !halted ==>
      && CompleteInReach(disk, weather, lower, query, hits)
      && (!truncated ==> Complete(disk, weather, lower, query, hits))
    ensures FullyListedBefore(disk, weather, lower, query, hits, listed)
  {
    hits, truncated, read, listed, stop, halted := [], false, 0, [], false, false;
    var seen: set<Node> := {};
    ghost var depths: Depths := map[];
    var pending: seq<Path> := [[]];
    visited := seen;
    NothingListed(disk, weather, lower, query);
    while pending != []
      invariant Searching(disk, weather, lower, query, depths, pending, hits, listed, read, truncated)
      invariant depths.Keys == seen == visited && !stop && !halted
      invariant FullyListedBefore(disk, weather, lower, query, hits, listed)
      decreases MAX_READ - read, |pending|
    {
      var dir := pending[0];
      var n := Walk(disk, dir).value;
      var canonical := weather(Canonical(dir));
      if canonical.TooSlow? {
        SlowPathHalts(disk, weather, pending, listed, hits, read);
        truncated, halted := true, true;
        return;
      }
      if canonical.Fails? || n in seen {
        PathDropped(disk, weather, lower, query, depths, pending, hits, listed, read, truncated);
        pending := pending[1..];
        continue;
      }
      var broke;
      ghost var depthsNow, listedNow := depths[n := |dir|], listed + [n];
      pending, hits, read, stop, broke, truncated :=
        Visit(disk, weather, lower, query, depths, pending, hits, listed, read, truncated);
      seen, depths, listed := seen + {n}, depthsNow, listedNow;
      visited := seen;
      if stop || broke {
        halted := true;
        return;
      }
    }
    DealtIsComplete(disk, weather, lower, query, depths, hits, truncated);
  }

  method SortHits(hits: seq<Hit>, home: string) returns (sorted: seq<Hit>)
    ensures sorted == Sorting.SortedBy(hits, HitLe(home))
  {
    sorted := Sorting.SortedBy(hits, HitLe(home));
  }

  lemma SortKeepsAnswer(disk: Disk, weather: Weather, lower: string -> string, query: string, home: string,
                        visited: set<Node>, hits: seq<Hit>, listed: seq<Node>)
    requires GoodHits(disk, lower, query, visited, hits)
    ensures var sorted := Sorting.SortedBy(hits, HitLe(home));
      && Sorting.Sorted(sorted, HitLe(home))
      && GoodHits(disk, lower, query, visited, sorted)
      && (FullyListedBefore(disk, weather, lower, query, hits, listed) ==>
            FullyListedBefore(disk, weather, lower, query, sorted, listed))
      && (Complete(disk, weather, lower, query, hits) ==> Complete(disk, weather, lower, query, sorted))
      && (CompleteInReach(disk, weather, lower, query, hits) ==> CompleteInReach(disk, weather, lower, query, sorted))
  {
    var sorted := Sorting.SortedBy(hits, HitLe(home));
    HitLeIsOrder(home);
    Sorting.SortedByIsSorted(hits, HitLe(home));
    Sorting.SortedByStaysDistinct(hits, HitLe(home));
    Sorting.SameElements(hits, sorted);
    SameHitsAreGood(disk, lower, query, visited, hits, sorted);
    SameHitsAreComplete(disk, weather, lower, query, hits, sorted, listed);
  }

  lemma SameHitsAreGood(disk: Disk, lower: string -> string, query: string, visited: set<Node>, hits: seq<Hit>,
                        sorted: seq<Hit>)
    requires GoodHits(disk, lower, query, visited, hits)
    requires (forall hit :: hit in hits <==> hit in sorted) && Distinct(sorted)
    ensures GoodHits(disk, lower, query, visited, sorted)
  {
    forall h | 0 <= h < |sorted|
      ensures exists g :: 0 <= g < |hits| && hits[g] == sorted[h]
    {
      assert sorted[h] in sorted;
    }
    forall h, g | 0 <= h < g < |sorted|
      ensures sorted[h].path != sorted[g].path
    {
      var a :| 0 <= a < |hits| && hits[a] == sorted[h];
      var b :| 0 <= b < |hits| && hits[b] == sorted[g];
    }
  }

  lemma SameHitsAreComplete(disk: Disk, weather: Weather, lower: string -> string, query: string, hits: seq<Hit>,
                            sorted: seq<Hit>, listed: seq<Node>)
    requires forall hit :: hit in hits <==> hit in sorted
    ensures FullyListedBefore(disk, weather, lower, query, hits, listed) ==>
      FullyListedBefore(disk, weather, lower, query, sorted, listed)
    ensures Complete(disk, weather, lower, query, hits) ==> Complete(disk, weather, lower, query, sorted)
    ensures CompleteInReach(disk, weather, lower, query, hits) ==> CompleteInReach(disk, weather, lower, query, sorted)
  {
    forall n: Node, name, len: nat | HasHit(disk, hits, n, name, len)
      ensures HasHit(disk, sorted, n, name, len)
    {
      HitStays(disk, hits, sorted, n, name, len);
    }
  }

  /** Paths that differ are different as text too, as no name holds a slash. */
  lemma {:induction false} RenderedIsInjective(home: string, p: Path, q: Path)
    requires forall i :: 0 <= i < |p| ==> '/' !in p[i]
    requires forall i :: 0 <= i < |q| ==> '/' !in q[i]
    requires Rendered(home, p) == Rendered(home, q)
    ensures p == q
  {
    RenderedExtends(home, p);
    RenderedExtends(home, q);
    if p != [] && q != [] {
      var x, y := p[|p| - 1], q[|q| - 1];
      var a, b := Rendered(home, p[..|p| - 1]), Rendered(home, q[..|q| - 1]);
      LastSeparator(a, x, b, y, '/');
      RenderedIsInjective(home, p[..|p| - 1], q[..|q| - 1]);
      assert p == p[..|p| - 1] + [x] && q == q[..|q| - 1] + [y];
    }
  }

  lemma {:induction false} RenderedExtends(home: string, p: Path)
    ensures |Rendered(home, p)| >= |home| + |p|
  {
    if p != [] {
      RenderedExtends(home, p[..|p| - 1]);
    }
  }
}
