/** `do_list_agent_session_descendants` of `routes.rs`: a bounded breadth-first walk over the
    children listings of every agent. */
module Descendants {
  import opened Wrappers
  import Sorting

  const MAX_DESCENDANT_DEPTH: nat := 8
  const MAX_DESCENDANTS: nat := 500

  datatype Session = Session(asid: string, updated: int)

  /** What each agent lists under a parent; None when its listing fails. The walk asks each
      agent about a parent at most once, so this is all it can see. */
  type Listings = (nat, string) -> Option<seq<Session>>

  /** `child` is listed under `parent` by some agent. */
  ghost predicate IsChild(listings: Listings, agents: nat, parent: string, child: string) {
    exists m, i :: 0 <= m < agents && listings(m, parent).Some? && 0 <= i < |listings(m, parent).value|
      && listings(m, parent).value[i].asid == child
  }

  /** `asid` is reached from `root` in exactly `steps` listing steps. */
  ghost predicate ReachedIn(listings: Listings, agents: nat, root: string, asid: string, steps: nat)
    decreases steps
  {
    if steps == 0 then asid == root
    else exists parent ::
      ReachedIn(listings, agents, root, parent, steps - 1) && IsChild(listings, agents, parent, asid)
  }

  ghost predicate ReachedWithin(listings: Listings, agents: nat, root: string, asid: string, steps: nat) {
    exists k :: 0 <= k <= steps && ReachedIn(listings, agents, root, asid, k)
  }

  /** `asid` is reached in fewer than `steps` listing steps. */
  ghost predicate ReachedBelow(listings: Listings, agents: nat, root: string, asid: string, steps: nat) {
    exists k :: 0 <= k < steps && ReachedIn(listings, agents, root, asid, k)
  }

  /** None of the first `m` agents that answer lists the id under `parent`. */
  ghost predicate NotListed(listings: Listings, parent: string, m: nat, asid: string) {
    forall k, i :: 0 <= k < m && listings(k, parent).Some? && 0 <= i < |listings(k, parent).value| ==>
      listings(k, parent).value[i].asid != asid
  }

  /** The session as a whole, dates and all, is what the first agent that lists it under `parent`
      says of it, the first time it does. */
  ghost predicate IsListed(listings: Listings, agents: nat, parent: string, session: Session) {
    exists m, i :: 0 <= m < agents && listings(m, parent).Some? && 0 <= i < |listings(m, parent).value|
      && listings(m, parent).value[i] == session && NotListed(listings, parent, m, session.asid)
      && forall k :: 0 <= k < i ==> listings(m, parent).value[k].asid != session.asid
  }

  /** It is listed under a parent reached in fewer than `steps` listing steps. */
  ghost predicate ListedBelow(listings: Listings, agents: nat, root: string, session: Session, steps: nat) {
    exists parent :: ReachedBelow(listings, agents, root, parent, steps) && IsListed(listings, agents, parent, session)
  }

  predicate Lists(sessions: seq<Session>, asid: string) {
    exists i :: 0 <= i < |sessions| && sessions[i].asid == asid
  }

  ghost predicate DistinctSessions(sessions: seq<Session>) {
    forall i, j :: 0 <= i < j < |sessions| ==> sessions[i].asid != sessions[j].asid
  }

  /** The sessions found so far: none twice, not the root, within the bounds. */
  ghost predicate Sound(listings: Listings, agents: nat, root: string, depth: nat, sessions: seq<Session>) {
    && DistinctSessions(sessions) && !Lists(sessions, root) && |sessions| <= MAX_DESCENDANTS
    && forall i :: 0 <= i < |sessions| ==> ReachedWithin(listings, agents, root, sessions[i].asid, depth)
  }

  ghost predicate SeenIs(seen: set<string>, root: string, sessions: seq<Session>) {
    forall asid :: asid in seen <==> asid == root || Lists(sessions, asid)
  }

  /** Every child of `parent` has been seen. */
  ghost predicate Asked(listings: Listings, agents: nat, parent: string, seen: set<string>) {
    forall child :: IsChild(listings, agents, parent, child) ==> child in seen
  }

  /** `listed` holds whatever is listed under a parent fewer than eight steps away. */
  ghost predicate HoldsListed(listings: Listings, agents: nat, root: string, listed: iset<Session>) {
    forall parent, depth: nat, session ::
      depth < MAX_DESCENDANT_DEPTH && ReachedIn(listings, agents, root, parent, depth) ==>
        (IsListed(listings, agents, parent, session) ==> session in listed)
  }

  /** It holds whatever is listed under this one. */
  ghost predicate HoldsChildren(listings: Listings, agents: nat, parent: string, listed: iset<Session>) {
    forall session :: IsListed(listings, agents, parent, session) ==> session in listed
  }

  lemma HoldsOfParent(listings: Listings, agents: nat, root: string, depth: nat, parent: string, listed: iset<Session>)
    requires HoldsListed(listings, agents, root, listed) && depth < MAX_DESCENDANT_DEPTH
    requires ReachedIn(listings, agents, root, parent, depth)
    ensures HoldsChildren(listings, agents, parent, listed)
  {
  }

  ghost predicate AllIn(sessions: seq<Session>, listed: iset<Session>) {
    forall i :: 0 <= i < |sessions| ==> sessions[i] in listed
  }

  lemma ListsMore(sessions: seq<Session>, session: Session)
    ensures forall asid :: Lists(sessions + [session], asid) <==> Lists(sessions, asid) || asid == session.asid
  {
    var more := sessions + [session];
    assert more[|sessions|] == session;
    forall asid | Lists(sessions, asid)
      ensures Lists(more, asid)
    {
      var i :| 0 <= i < |sessions| && sessions[i].asid == asid;
      assert more[i].asid == asid;
    }
  }

  lemma ReachedMore(listings: Listings, agents: nat, root: string, parent: string, child: string, depth: nat)
    requires ReachedIn(listings, agents, root, parent, depth) && IsChild(listings, agents, parent, child)
    ensures ReachedIn(listings, agents, root, child, depth + 1)
  {
  }

  lemma SoundMore(listings: Listings, agents: nat, root: string, depth: nat, sessions: seq<Session>, session: Session)
    requires Sound(listings, agents, root, depth + 1, sessions) && |sessions| < MAX_DESCENDANTS
    requires !Lists(sessions, session.asid) && session.asid != root
    requires ReachedIn(listings, agents, root, session.asid, depth + 1)
    ensures Sound(listings, agents, root, depth + 1, sessions + [session])
  {
  }

  /** What is kept while one level is walked: the sessions found, and the next level, which is
      what `older`, the sessions seen before, does not hold. */
  ghost predicate LevelInv(listings: Listings, agents: nat, root: string, depth: nat, older: set<string>,
                           seen: set<string>, sessions: seq<Session>, next: seq<string>) {
    && Sound(listings, agents, root, depth + 1, sessions) && SeenIs(seen, root, sessions)
    && older <= seen && (forall asid :: asid in seen - older ==> asid in next)
    && forall k :: 0 <= k < |next| ==> next[k] in seen - older && ReachedIn(listings, agents, root, next[k], depth + 1)
  }

  /** Some session a step below the level has not been seen. */
  ghost predicate LeftOut(listings: Listings, agents: nat, root: string, depth: nat, seen: set<string>) {
    exists asid :: asid !in seen && ReachedIn(listings, agents, root, asid, depth + 1)
  }

  lemma LevelMore(listings: Listings, agents: nat, root: string, depth: nat, older: set<string>, seen: set<string>,
                  sessions: seq<Session>, next: seq<string>, session: Session)
    requires LevelInv(listings, agents, root, depth, older, seen, sessions, next) && |sessions| < MAX_DESCENDANTS
    requires session.asid !in seen && ReachedIn(listings, agents, root, session.asid, depth + 1)
    ensures LevelInv(listings, agents, root, depth, older, seen + {session.asid}, sessions + [session],
                     next + [session.asid])
  {
    SoundMore(listings, agents, root, depth, sessions, session);
    ListsMore(sessions, session);
    var more := next + [session.asid];
    assert more[|next|] == session.asid;
    forall asid | asid in next
      ensures asid in more
    {
      var k :| 0 <= k < |next| && next[k] == asid;
      assert more[k] == asid;
    }
  }

  lemma NewIsFirstListed(listings: Listings, agents: nat, parent: string, m: nat, i: nat, seen: set<string>,
                         listed: iset<Session>)
    requires m < agents && listings(m, parent).Some? && i < |listings(m, parent).value|
    requires AskedOf(listings, parent, m, seen) && listings(m, parent).value[i].asid !in seen
    requires forall k :: 0 <= k < i ==> listings(m, parent).value[k].asid in seen
    ensures IsChild(listings, agents, parent, listings(m, parent).value[i].asid)
    requires HoldsChildren(listings, agents, parent, listed)
    ensures listings(m, parent).value[i] in listed
  {
    var session := listings(m, parent).value[i];
    assert NotListed(listings, parent, m, session.asid) && IsListed(listings, agents, parent, session);
  }

  /** One agent's listing of one parent's children; `capped` when the bound cuts it short. */
  method TakeListing(listings: Listings, agents: nat, root: string, ghost depth: nat, ghost listed: iset<Session>,
                     ghost older: set<string>, parent: string, m: nat, seen: set<string>, sessions: seq<Session>,
                     next: seq<string>)
    returns (seen': set<string>, sessions': seq<Session>, next': seq<string>, capped: bool)
    requires m < agents && listings(m, parent).Some? && ReachedIn(listings, agents, root, parent, depth)
    requires LevelInv(listings, agents, root, depth, older, seen, sessions, next)
    requires AskedOf(listings, parent, m, seen) && AllIn(sessions, listed)
    requires HoldsChildren(listings, agents, parent, listed)
    ensures LevelInv(listings, agents, root, depth, older, seen', sessions', next')
    ensures AllIn(sessions', listed)
    ensures seen <= seen'
    ensures !capped ==> forall i :: 0 <= i < |listings(m, parent).value| ==> listings(m, parent).value[i].asid in seen'
    ensures capped ==> |sessions'| == MAX_DESCENDANTS && LeftOut(listings, agents, root, depth, seen')
  {
    seen', sessions', next', capped := seen, sessions, next, false;
    var list := listings(m, parent).value;
    for i := 0 to |list|
      invariant LevelInv(listings, agents, root, depth, older, seen', sessions', next')
      invariant AllIn(sessions', listed)
      invariant seen <= seen'
      invariant forall k :: 0 <= k < i ==> list[k].asid in seen'
    {
      var session := list[i];
      if session.asid !in seen' {
        NewIsFirstListed(listings, agents, parent, m, i, seen', listed);
        ReachedMore(listings, agents, root, parent, session.asid, depth);
        if |sessions'| >= MAX_DESCENDANTS {
          capped := true;
          return;
        }
        LevelMore(listings, agents, root, depth, older, seen', sessions', next', session);
        seen', next' := seen' + {session.asid}, next' + [session.asid];
        sessions' := sessions' + [session];
      }
    }
  }

  /** Every child of `parent` listed by the first `m` agents has been seen, failed listings aside. */
  ghost predicate AskedOf(listings: Listings, parent: string, m: nat, seen: set<string>) {
    forall k, i :: 0 <= k < m && listings(k, parent).Some? && 0 <= i < |listings(k, parent).value| ==>
      listings(k, parent).value[i].asid in seen
  }

  /** Some agent answers for this parent. */
  ghost predicate Answers(listings: Listings, agents: nat, parent: string) {
    exists m :: 0 <= m < agents && listings(m, parent).Some?
  }

  /** Some agent fails to list this parent's children. */
  ghost predicate Fails(listings: Listings, agents: nat, parent: string) {
    exists m :: 0 <= m < agents && listings(m, parent).None?
  }

  /** One level: every parent of the frontier is put to every agent. */
  method WalkLevel(listings: Listings, agents: nat, root: string, ghost depth: nat, ghost listed: iset<Session>,
                   frontier: seq<string>, seen: set<string>, sessions: seq<Session>)
    returns (seen': set<string>, sessions': seq<Session>, next: seq<string>, capped: bool, failed: bool, answered: bool)
    requires forall p :: 0 <= p < |frontier| ==> ReachedIn(listings, agents, root, frontier[p], depth)
    requires Sound(listings, agents, root, depth + 1, sessions) && SeenIs(seen, root, sessions)
    requires AllIn(sessions, listed)
    requires depth < MAX_DESCENDANT_DEPTH && HoldsListed(listings, agents, root, listed)
    ensures AllIn(sessions', listed)
    ensures LevelInv(listings, agents, root, depth, seen, seen', sessions', next)
    ensures !capped ==> forall p :: 0 <= p < |frontier| ==> AskedOf(listings, frontier[p], agents, seen')
    ensures capped ==> |sessions'| == MAX_DESCENDANTS && frontier != [] && LeftOut(listings, agents, root, depth, seen')
    ensures failed ==> exists p :: 0 <= p < |frontier| && Fails(listings, agents, frontier[p])
    ensures !capped && !failed ==> forall p :: 0 <= p < |frontier| ==> !Fails(listings, agents, frontier[p])
    ensures answered <==> exists p :: 0 <= p < |frontier| && Answers(listings, agents, frontier[p])
    ensures next != [] || capped ==> answered
  {
    seen', sessions', next, capped, failed, answered := seen, sessions, [], false, false, false;
    for p := 0 to |frontier|
      invariant LevelInv(listings, agents, root, depth, seen, seen', sessions', next) && !capped
      invariant AllIn(sessions', listed)
      invariant forall q :: 0 <= q < p ==> AskedOf(listings, frontier[q], agents, seen')
      invariant failed <==> exists q :: 0 <= q < p && Fails(listings, agents, frontier[q])
      invariant answered <==> exists q :: 0 <= q < p && Answers(listings, agents, frontier[q])
      invariant next != [] ==> answered
    {
      var oneFailed, oneAnswered;
      HoldsOfParent(listings, agents, root, depth, frontier[p], listed);
      seen', sessions', next, capped, oneFailed, oneAnswered :=
        AskAgents(listings, agents, root, depth, listed, seen, frontier[p], seen', sessions', next);
      answered, failed := answered || oneAnswered, failed || oneFailed;
      if capped {
        return;
      }
    }
  }

  method AskAgents(listings: Listings, agents: nat, root: string, ghost depth: nat, ghost listed: iset<Session>,
                   ghost older: set<string>, parent: string, seen: set<string>, sessions: seq<Session>,
                   next: seq<string>)
    returns (seen': set<string>, sessions': seq<Session>, next': seq<string>, capped: bool, failed: bool,
             answered: bool)
    requires ReachedIn(listings, agents, root, parent, depth)
    requires LevelInv(listings, agents, root, depth, older, seen, sessions, next)
    requires AllIn(sessions, listed)
    requires HoldsChildren(listings, agents, parent, listed)
    ensures AllIn(sessions', listed)
    ensures LevelInv(listings, agents, root, depth, older, seen', sessions', next')
    ensures seen <= seen'
    ensures !capped ==> AskedOf(listings, parent, agents, seen')
    ensures failed ==> Fails(listings, agents, parent)
    ensures !capped && !failed ==> !Fails(listings, agents, parent)
    ensures answered <==> Answers(listings, agents, parent)
    ensures next' != next || capped ==> answered
    ensures capped ==> |sessions'| == MAX_DESCENDANTS && LeftOut(listings, agents, root, depth, seen')
  {
    seen', sessions', next', capped, failed, answered := seen, sessions, next, false, false, false;
    for m := 0 to agents
      invariant LevelInv(listings, agents, root, depth, older, seen', sessions', next') && !capped
      invariant AllIn(sessions', listed)
      invariant seen <= seen'
      invariant AskedOf(listings, parent, m, seen')
      invariant failed <==> exists k :: 0 <= k < m && listings(k, parent).None?
      invariant answered <==> exists k :: 0 <= k < m && listings(k, parent).Some?
      invariant next' != next ==> answered
    {
      if listings(m, parent).None? {
        failed := true;
      } else {
        answered := true;
        seen', sessions', next', capped := TakeListing(listings, agents, root, depth, listed, older, parent, m, seen',
                                                       sessions', next');
        if capped {
          return;
        }
      }
    }
  }

  lemma AskedByAll(listings: Listings, agents: nat, parent: string, seen: set<string>)
    requires AskedOf(listings, parent, agents, seen)
    ensures Asked(listings, agents, parent, seen)
  {
  }

  /** All but the frontier have been asked about, all within `depth` steps are seen, and the
      frontier is what takes all of them to reach. */
  ghost predicate Thorough(listings: Listings, agents: nat, root: string, depth: nat, seen: set<string>,
                           frontier: seq<string>) {
    && (forall asid :: asid in seen && asid !in frontier ==>
          Asked(listings, agents, asid, seen) && ReachedBelow(listings, agents, root, asid, depth))
    && (forall asid :: ReachedWithin(listings, agents, root, asid, depth) ==> asid in seen)
    && (forall asid :: asid in frontier ==>
          && asid in seen && ReachedIn(listings, agents, root, asid, depth)
          && !ReachedBelow(listings, agents, root, asid, depth))
  }

  /** A listing fails for some session fewer than `depth` steps away. */
  ghost predicate FailsBelow(listings: Listings, agents: nat, root: string, depth: nat) {
    exists parent :: ReachedBelow(listings, agents, root, parent, depth) && Fails(listings, agents, parent)
  }

  /** What one more level adds to the failures that were met. */
  lemma FailsNext(listings: Listings, agents: nat, root: string, depth: nat, seen: set<string>, frontier: seq<string>)
    requires Thorough(listings, agents, root, depth, seen, frontier)
    ensures FailsBelow(listings, agents, root, depth + 1)
       <==> FailsBelow(listings, agents, root, depth)
            || exists p :: 0 <= p < |frontier| && Fails(listings, agents, frontier[p])
  {
  }

  lemma ThoroughNext(listings: Listings, agents: nat, root: string, depth: nat, seen: set<string>,
                     frontier: seq<string>, seen': set<string>, sessions: seq<Session>, next: seq<string>)
    requires Thorough(listings, agents, root, depth, seen, frontier)
    requires LevelInv(listings, agents, root, depth, seen, seen', sessions, next)
    requires forall p :: 0 <= p < |frontier| ==> AskedOf(listings, frontier[p], agents, seen')
    ensures Thorough(listings, agents, root, depth + 1, seen', next)
  {
    forall asid | asid in seen
      ensures Asked(listings, agents, asid, seen') && ReachedBelow(listings, agents, root, asid, depth + 1)
    {
      if asid in frontier {
        var p :| 0 <= p < |frontier| && frontier[p] == asid;
        AskedByAll(listings, agents, asid, seen');
      } else {
        var k :| 0 <= k < depth && ReachedIn(listings, agents, root, asid, k);
      }
    }
    forall asid | ReachedWithin(listings, agents, root, asid, depth + 1)
      ensures asid in seen'
    {
      SeenOneDeeper(listings, agents, root, depth, seen, seen', asid);
    }
    forall asid | asid in next
      ensures !ReachedBelow(listings, agents, root, asid, depth + 1)
    {
      if ReachedBelow(listings, agents, root, asid, depth + 1) {
        var k :| 0 <= k < depth + 1 && ReachedIn(listings, agents, root, asid, k);
        assert ReachedWithin(listings, agents, root, asid, depth);
      }
    }
  }

  lemma SeenOneDeeper(listings: Listings, agents: nat, root: string, depth: nat, seen: set<string>, seen': set<string>,
                      asid: string)
    requires forall a :: ReachedWithin(listings, agents, root, a, depth) ==> a in seen
    requires seen <= seen' && forall a :: a in seen ==> Asked(listings, agents, a, seen')
    requires ReachedWithin(listings, agents, root, asid, depth + 1)
    ensures asid in seen'
  {
    var k :| 0 <= k <= depth + 1 && ReachedIn(listings, agents, root, asid, k);
    if k == depth + 1 {
      var parent :| ReachedIn(listings, agents, root, parent, depth) && IsChild(listings, agents, parent, asid);
      assert ReachedWithin(listings, agents, root, parent, depth);
    } else {
      assert ReachedWithin(listings, agents, root, asid, depth);
    }
  }

  /** With nothing left to ask about, everything reachable at any depth is seen. */
  lemma {:induction false} ExhaustedIsEverything(listings: Listings, agents: nat, root: string, seen: set<string>,
                                                 asid: string, steps: nat)
    requires root in seen && forall a :: a in seen ==> Asked(listings, agents, a, seen)
    requires ReachedIn(listings, agents, root, asid, steps)
    ensures asid in seen
    decreases steps
  {
    if steps > 0 {
      var parent :| ReachedIn(listings, agents, root, parent, steps - 1) && IsChild(listings, agents, parent, asid);
      ExhaustedIsEverything(listings, agents, root, seen, parent, steps - 1);
    }
  }

  lemma SoundDeeper(listings: Listings, agents: nat, root: string, depth: nat, deeper: nat, sessions: seq<Session>)
    requires Sound(listings, agents, root, depth, sessions) && depth <= deeper
    ensures Sound(listings, agents, root, deeper, sessions)
  {
  }

  ghost predicate AllWithin(listings: Listings, agents: nat, root: string, depth: nat, sessions: seq<Session>) {
    forall asid :: asid != root && ReachedWithin(listings, agents, root, asid, depth) ==> Lists(sessions, asid)
  }

  /** The sessions listed are exactly those reachable from the root, itself aside. */
  ghost predicate Exactly(listings: Listings, agents: nat, root: string, sessions: seq<Session>) {
    forall asid :: Lists(sessions, asid) <==>
      asid != root && exists steps :: ReachedIn(listings, agents, root, asid, steps)
  }

  /** More sessions than the bound lie within reach. */
  ghost predicate TooMany(listings: Listings, agents: nat, root: string) {
    exists names: set<string> :: |names| > MAX_DESCENDANTS && root !in names
      && forall asid :: asid in names ==> ReachedWithin(listings, agents, root, asid, MAX_DESCENDANT_DEPTH)
  }

  /** Some session of the answer takes all eight steps to reach. */
  ghost predicate EndsDeep(listings: Listings, agents: nat, root: string, sessions: seq<Session>) {
    exists asid :: Lists(sessions, asid) && !ReachedBelow(listings, agents, root, asid, MAX_DESCENDANT_DEPTH)
  }

  function Names(sessions: seq<Session>): set<string> {
    set i | 0 <= i < |sessions| :: sessions[i].asid
  }

  lemma {:induction false} NamesCount(sessions: seq<Session>)
    requires DistinctSessions(sessions)
    ensures |Names(sessions)| == |sessions|
    ensures forall asid :: asid in Names(sessions) <==> Lists(sessions, asid)
  {
    if sessions != [] {
      var front, last := sessions[..|sessions| - 1], sessions[|sessions| - 1];
      NamesCount(front);
      assert sessions == front + [last];
      assert Names(sessions) == Names(front) + {last.asid};
      assert !Lists(front, last.asid);
    }
  }

  lemma SubsetCount(a: set<string>, b: set<string>)
    requires a <= b
    ensures |a| <= |b|
  {
    assert |b - a| == |b| - |a|;
  }

  /** The bound cuts the walk short exactly when more sessions than it allows are in reach. */
  lemma CappedIsTooMany(listings: Listings, agents: nat, root: string, sessions: seq<Session>)
    requires Sound(listings, agents, root, MAX_DESCENDANT_DEPTH, sessions)
    ensures AllWithin(listings, agents, root, MAX_DESCENDANT_DEPTH, sessions) ==> !TooMany(listings, agents, root)
    ensures |sessions| == MAX_DESCENDANTS && !AllWithin(listings, agents, root, MAX_DESCENDANT_DEPTH, sessions)
        ==> TooMany(listings, agents, root)
  {
    NamesCount(sessions);
    if AllWithin(listings, agents, root, MAX_DESCENDANT_DEPTH, sessions) {
      forall names: set<string> | root !in names
        && forall asid :: asid in names ==> ReachedWithin(listings, agents, root, asid, MAX_DESCENDANT_DEPTH)
        ensures |names| <= MAX_DESCENDANTS
      {
        SubsetCount(names, Names(sessions));
      }
    } else if |sessions| == MAX_DESCENDANTS {
      var asid :|
        asid != root && ReachedWithin(listings, agents, root, asid, MAX_DESCENDANT_DEPTH) && !Lists(sessions, asid);
      assert |Names(sessions) + {asid}| == MAX_DESCENDANTS + 1;
    }
  }

  function NewestFirst(): (Session, Session) -> bool {
    (a: Session, b: Session) => a.updated >= b.updated
  }

  datatype Answer = Answer(sessions: seq<Session>, truncated: bool)

  /** The walk. Sessions are distinct, never the root, at most 500, each within eight listing
      steps and as some agent lists it, newest first. It is cut short exactly when more than 500 are within eight steps;
      otherwise every one of them is there, marked truncated exactly when one of them takes all
      eight steps. An answer not marked truncated is exactly everything reachable. The walk
      fails exactly when a listing it met failed and either the agent was named or none
      answered for the root; uncut, it meets every listing fewer than eight steps away. */
  method ListDescendants(listings: Listings, agents: nat, root: string, named: bool)
    returns (r: Result<Answer, ()>, ghost capped: bool, ghost met: bool)
    ensures r.Ok? ==>
      && Sound(listings, agents, root, MAX_DESCENDANT_DEPTH, r.value.sessions)
      && AllIn(r.value.sessions, AllListed(listings, agents, root))
      && Sorting.Sorted(r.value.sessions, NewestFirst())
    ensures capped <==> TooMany(listings, agents, root)
    ensures r.Ok? && capped ==> r.value.truncated && |r.value.sessions| == MAX_DESCENDANTS
    ensures r.Ok? && !capped ==>
      && AllWithin(listings, agents, root, MAX_DESCENDANT_DEPTH, r.value.sessions)
      && (r.value.truncated <==> EndsDeep(listings, agents, root, r.value.sessions))
    ensures r.Ok? && !r.value.truncated ==> Exactly(listings, agents, root, r.value.sessions)
    ensures r.Err? <==> met && (named || !Answers(listings, agents, root))
    ensures met ==> FailsBelow(listings, agents, root, MAX_DESCENDANT_DEPTH)
    ensures !capped && FailsBelow(listings, agents, root, MAX_DESCENDANT_DEPTH) ==> met
  {
    var sessions, truncated, failed, answered;
    sessions, truncated, capped, failed, answered := Walk(listings, agents, root);
    CappedIsTooMany(listings, agents, root, sessions);
    met := failed;
    if failed && (!answered || named) {
      return Err(()), capped, met;
    }
    var sorted := Sorting.SortedBy(sessions, NewestFirst());
    SortKeepsSessions(listings, agents, root, sessions);
    SortKeepsAllIn(sessions, AllListed(listings, agents, root));
    return Ok(Answer(sorted, truncated)), capped, met;
  }

  /** Who has been asked so far, at the head of the walk's loop. */
  ghost predicate AnsweredInv(listings: Listings, agents: nat, root: string, depth: nat, frontier: seq<string>,
                              answered: bool) {
    if depth == 0 then frontier == [root] && !answered
    else (answered <==> Answers(listings, agents, root)) && (frontier != [] ==> answered)
  }

  lemma FirstLevel(listings: Listings, agents: nat, root: string)
    ensures Thorough(listings, agents, root, 0, {root}, [root])
    ensures (exists p :: 0 <= p < |[root]| && Answers(listings, agents, [root][p])) <==> Answers(listings, agents, root)
  {
  }

  /** What the walk's loop keeps: until the bound is hit, a thorough walk so far; after, 500
      sessions and one more within reach. */
  ghost predicate WalkInv(listings: Listings, agents: nat, root: string, depth: nat, seen: set<string>,
                          frontier: seq<string>, sessions: seq<Session>, cut: bool, failed: bool) {
    && depth <= MAX_DESCENDANT_DEPTH
    && Sound(listings, agents, root, depth, sessions) && SeenIs(seen, root, sessions)
    && (failed ==> FailsBelow(listings, agents, root, MAX_DESCENDANT_DEPTH))
    && (if cut then
          && |sessions| == MAX_DESCENDANTS && depth > 0
          && LeftOut(listings, agents, root, depth - 1, seen)
        else
          && Thorough(listings, agents, root, depth, seen, frontier)
          && (failed <==> FailsBelow(listings, agents, root, depth)))
  }

  lemma WalkStart(listings: Listings, agents: nat, root: string)
    ensures WalkInv(listings, agents, root, 0, {root}, [root], [], false, false)
  {
  }

  /** A level that was walked to its end. */
  lemma WalkOn(listings: Listings, agents: nat, root: string, depth: nat, seen: set<string>, frontier: seq<string>,
               sessions: seq<Session>, failed: bool, seen': set<string>, sessions': seq<Session>, next: seq<string>,
               failed': bool)
    requires WalkInv(listings, agents, root, depth, seen, frontier, sessions, false,
                     failed) && depth < MAX_DESCENDANT_DEPTH
    requires LevelInv(listings, agents, root, depth, seen, seen', sessions', next)
    requires forall p :: 0 <= p < |frontier| ==> AskedOf(listings, frontier[p], agents, seen')
    requires failed' <==> exists p :: 0 <= p < |frontier| && Fails(listings, agents, frontier[p])
    ensures WalkInv(listings, agents, root, depth + 1, seen', next, sessions', false, failed || failed')
  {
    FailsNext(listings, agents, root, depth, seen, frontier);
    ThoroughNext(listings, agents, root, depth, seen, frontier, seen', sessions', next);
    if failed || failed' {
      FailsDeeper(listings, agents, root, depth + 1);
    }
  }

  /** A level the bound cut short. */
  lemma WalkCut(listings: Listings, agents: nat, root: string, depth: nat, seen: set<string>, frontier: seq<string>,
                sessions: seq<Session>, failed: bool, seen': set<string>, sessions': seq<Session>, next: seq<string>,
                failed': bool)
    requires WalkInv(listings, agents, root, depth, seen, frontier, sessions, false,
                     failed) && depth < MAX_DESCENDANT_DEPTH
    requires LevelInv(listings, agents, root, depth, seen, seen', sessions', next)
    requires |sessions'| == MAX_DESCENDANTS && LeftOut(listings, agents, root, depth, seen')
    requires failed' ==> exists p :: 0 <= p < |frontier| && Fails(listings, agents, frontier[p])
    ensures WalkInv(listings, agents, root, depth + 1, seen', frontier, sessions', true, failed || failed')
  {
  }

  /** What the invariant says once the loop is over. */
  lemma WalkEnd(listings: Listings, agents: nat, root: string, depth: nat, seen: set<string>, frontier: seq<string>,
                sessions: seq<Session>, cut: bool, failed: bool)
    requires WalkInv(listings, agents, root, depth, seen, frontier, sessions, cut, failed)
    requires depth == MAX_DESCENDANT_DEPTH || frontier == [] || cut
    ensures Sound(listings, agents, root, MAX_DESCENDANT_DEPTH, sessions)
    ensures cut ==> !AllWithin(listings, agents, root, MAX_DESCENDANT_DEPTH, sessions)
    ensures !cut ==>
      && AllWithin(listings, agents, root, MAX_DESCENDANT_DEPTH, sessions)
      && (frontier == [] ==> Exactly(listings, agents, root, sessions))
      && (frontier != [] <==> EndsDeep(listings, agents, root, sessions))
      && (FailsBelow(listings, agents, root, MAX_DESCENDANT_DEPTH) ==> failed)
  {
    SoundDeeper(listings, agents, root, depth, MAX_DESCENDANT_DEPTH, sessions);
    if cut {
      LeftOutIsMissing(listings, agents, root, depth - 1, seen, sessions);
    } else {
      ThoroughAnswer(listings, agents, root, depth, seen, frontier, sessions);
    }
  }

  /** One turn of the loop; the frontier stays where the bound cut it. */
  method WalkStep(listings: Listings, agents: nat, root: string, ghost depth: nat, ghost listed: iset<Session>,
                  frontier: seq<string>, seen: set<string>, sessions: seq<Session>, ghost failed: bool,
                  ghost answered: bool)
    returns (seen': set<string>, sessions': seq<Session>, next: seq<string>, full: bool, oneFailed: bool,
             oneAnswered: bool)
    requires depth < MAX_DESCENDANT_DEPTH && frontier != []
    requires WalkInv(listings, agents, root, depth, seen, frontier, sessions, false, failed)
    requires AnsweredInv(listings, agents, root, depth, frontier, answered)
    requires AllIn(sessions, listed) && HoldsListed(listings, agents, root, listed)
    ensures AllIn(sessions', listed)
    ensures WalkInv(listings, agents, root, depth + 1, seen', next, sessions', full, failed || oneFailed)
    ensures AnsweredInv(listings, agents, root, depth + 1, next, answered || oneAnswered)
    ensures full ==> next != []
  {
    SoundDeeper(listings, agents, root, depth, depth + 1, sessions);
    ThoroughFrontier(listings, agents, root, depth, seen, frontier);
    seen', sessions', next, full, oneFailed, oneAnswered := WalkLevel(listings, agents, root, depth, listed, frontier,
                                                                      seen, sessions);
    if depth == 0 {
      FirstLevel(listings, agents, root);
    }
    if full {
      WalkCut(listings, agents, root, depth, seen, frontier, sessions, failed, seen', sessions', next, oneFailed);
      next := frontier;
    } else {
      WalkOn(listings, agents, root, depth, seen, frontier, sessions, failed, seen', sessions', next, oneFailed);
    }
  }

  lemma ThoroughFrontier(listings: Listings, agents: nat, root: string, depth: nat, seen: set<string>,
                         frontier: seq<string>)
    requires Thorough(listings, agents, root, depth, seen, frontier)
    ensures forall p :: 0 <= p < |frontier| ==> ReachedIn(listings, agents, root, frontier[p], depth)
  {
  }

  /** The levels, down to the eighth, until the frontier is empty or the bound is hit. */
  method WalkLevels(listings: Listings, agents: nat, root: string, ghost listed: iset<Session>)
    returns (seen: set<string>, sessions: seq<Session>, frontier: seq<string>, ghost depth: nat, cut: bool,
             failed: bool, answered: bool)
    requires HoldsListed(listings, agents, root, listed)
    ensures WalkInv(listings, agents, root, depth, seen, frontier, sessions, cut, failed)
    ensures depth == MAX_DESCENDANT_DEPTH || frontier == [] || cut
    ensures AllIn(sessions, listed)
    ensures depth > 0 && AnsweredInv(listings, agents, root, depth, frontier, answered)
  {
    seen, frontier, cut := {root}, [root], false;
    sessions, failed, answered := [], false, false;
    var level := 0;
    WalkStart(listings, agents, root);
    while level < MAX_DESCENDANT_DEPTH && frontier != [] && !cut
      invariant level <= MAX_DESCENDANT_DEPTH
      invariant WalkInv(listings, agents, root, level, seen, frontier, sessions, cut, failed)
      invariant AllIn(sessions, listed)
      invariant AnsweredInv(listings, agents, root, level, frontier, answered)
      decreases MAX_DESCENDANT_DEPTH - level
    {
      var oneFailed, oneAnswered;
      seen, sessions, frontier, cut, oneFailed, oneAnswered :=
        WalkStep(listings, agents, root, level, listed, frontier, seen, sessions, failed, answered);
      answered, failed, level := answered || oneAnswered, failed || oneFailed, level + 1;
    }
    depth := level;
  }

  /** The sessions listed under a parent reached in fewer than eight steps. */
  ghost function AllListed(listings: Listings, agents: nat, root: string): iset<Session> {
    iset session | ListedBelow(listings, agents, root, session, MAX_DESCENDANT_DEPTH)
  }

  lemma HoldsAllListed(listings: Listings, agents: nat, root: string)
    ensures HoldsListed(listings, agents, root, AllListed(listings, agents, root))
  {
    forall parent, depth: nat, session |
      depth < MAX_DESCENDANT_DEPTH && ReachedIn(listings, agents, root, parent, depth)
      && IsListed(listings, agents, parent, session)
      ensures session in AllListed(listings, agents, root)
    {
      assert ReachedBelow(listings, agents, root, parent, MAX_DESCENDANT_DEPTH);
    }
  }

  /** The walk before its sessions are sorted, and what it met on its way. */
  method Walk(listings: Listings, agents: nat, root: string)
    returns (sessions: seq<Session>, truncated: bool, ghost capped: bool, failed: bool, answered: bool)
    ensures Sound(listings, agents, root, MAX_DESCENDANT_DEPTH, sessions)
    ensures AllIn(sessions, AllListed(listings, agents, root))
    ensures !truncated ==> Exactly(listings, agents, root, sessions)
    ensures !capped ==>
      && AllWithin(listings, agents, root, MAX_DESCENDANT_DEPTH, sessions)
      && (truncated <==> EndsDeep(listings, agents, root, sessions))
    ensures capped ==>
      && truncated && |sessions| == MAX_DESCENDANTS
      && !AllWithin(listings, agents, root, MAX_DESCENDANT_DEPTH, sessions)
    ensures failed ==> FailsBelow(listings, agents, root, MAX_DESCENDANT_DEPTH)
    ensures !capped && FailsBelow(listings, agents, root, MAX_DESCENDANT_DEPTH) ==> failed
    ensures answered <==> Answers(listings, agents, root)
  {
    var seen, frontier, cut;
    ghost var depth;
    ghost var listed := AllListed(listings, agents, root);
    HoldsAllListed(listings, agents, root);
    seen, sessions, frontier, depth, cut, failed, answered := WalkLevels(listings, agents, root, listed);
    WalkEnd(listings, agents, root, depth, seen, frontier, sessions, cut, failed);
    truncated, capped := cut || frontier != [], cut;
  }

  lemma FailsDeeper(listings: Listings, agents: nat, root: string, depth: nat)
    requires depth <= MAX_DESCENDANT_DEPTH && FailsBelow(listings, agents, root, depth)
    ensures FailsBelow(listings, agents, root, MAX_DESCENDANT_DEPTH)
  {
  }

  lemma LeftOutIsMissing(listings: Listings, agents: nat, root: string, depth: nat, seen: set<string>,
                         sessions: seq<Session>)
    requires depth < MAX_DESCENDANT_DEPTH
    requires LeftOut(listings, agents, root, depth, seen) && SeenIs(seen, root, sessions)
    ensures !AllWithin(listings, agents, root, MAX_DESCENDANT_DEPTH, sessions)
  {
  }

  lemma ThoroughAnswer(listings: Listings, agents: nat, root: string, depth: nat, seen: set<string>,
                       frontier: seq<string>, sessions: seq<Session>)
    requires Thorough(listings, agents, root, depth, seen, frontier) && SeenIs(seen, root, sessions)
    requires Sound(listings, agents, root, MAX_DESCENDANT_DEPTH, sessions)
    requires depth <= MAX_DESCENDANT_DEPTH && (depth == MAX_DESCENDANT_DEPTH || frontier == [])
    ensures AllWithin(listings, agents, root, MAX_DESCENDANT_DEPTH, sessions)
    ensures frontier == [] ==> Exactly(listings, agents, root, sessions)
    ensures frontier != [] <==> EndsDeep(listings, agents, root, sessions)
    ensures frontier == [] ==>
      (FailsBelow(listings, agents, root, depth) <==> FailsBelow(listings, agents, root, MAX_DESCENDANT_DEPTH))
  {
    if frontier == [] {
      forall asid, steps: nat | ReachedIn(listings, agents, root, asid, steps)
        ensures asid in seen
      {
        ExhaustedIsEverything(listings, agents, root, seen, asid, steps);
      }
      forall asid | Lists(sessions, asid)
        ensures exists steps: nat :: ReachedIn(listings, agents, root, asid, steps)
      {
        var i :| 0 <= i < |sessions| && sessions[i].asid == asid;
        assert ReachedWithin(listings, agents, root, asid, MAX_DESCENDANT_DEPTH);
      }
      forall asid | asid in seen
        ensures ReachedBelow(listings, agents, root, asid, MAX_DESCENDANT_DEPTH)
      {
        var k :| 0 <= k < depth && ReachedIn(listings, agents, root, asid, k);
      }
      if FailsBelow(listings, agents, root, MAX_DESCENDANT_DEPTH) {
        var parent :|
          ReachedBelow(listings, agents, root, parent, MAX_DESCENDANT_DEPTH) && Fails(listings, agents, parent);
        assert parent in seen;
      }
    } else {
      assert frontier[0] in frontier;
      assert ReachedIn(listings, agents, root, root, 0);
      assert Lists(sessions, frontier[0]);
    }
  }

  lemma SortKeepsSessions(listings: Listings, agents: nat, root: string, sessions: seq<Session>)
    requires Sound(listings, agents, root, MAX_DESCENDANT_DEPTH, sessions)
    ensures var sorted := Sorting.SortedBy(sessions, NewestFirst());
      && Sorting.Sorted(sorted, NewestFirst())
      && Sound(listings, agents, root, MAX_DESCENDANT_DEPTH, sorted)
      && forall asid :: Lists(sorted, asid) <==> Lists(sessions, asid)
  {
    var sorted := Sorting.SortedBy(sessions, NewestFirst());
    Sorting.SortedByIsSorted(sessions, NewestFirst());
    Sorting.SortedByStaysDistinct(sessions, NewestFirst());
    Sorting.SameElements(sessions, sorted);
    SameSessions(listings, agents, root, sessions, sorted);
  }

  lemma SortKeepsAllIn(sessions: seq<Session>, listed: iset<Session>)
    requires AllIn(sessions, listed)
    ensures AllIn(Sorting.SortedBy(sessions, NewestFirst()), listed)
  {
    var sorted := Sorting.SortedBy(sessions, NewestFirst());
    Sorting.SortedByIsSorted(sessions, NewestFirst());
    Sorting.SameElements(sessions, sorted);
    forall i | 0 <= i < |sorted|
      ensures sorted[i] in listed
    {
      assert sorted[i] in sessions;
    }
  }

  lemma SameSessions(listings: Listings, agents: nat, root: string, sessions: seq<Session>, sorted: seq<Session>)
    requires Sound(listings, agents, root, MAX_DESCENDANT_DEPTH, sessions) && |sorted| == |sessions|
    requires forall s :: s in sessions <==> s in sorted
    requires forall i, j :: 0 <= i < j < |sorted| ==> sorted[i] != sorted[j]
    ensures Sound(listings, agents, root, MAX_DESCENDANT_DEPTH, sorted)
    ensures forall asid :: Lists(sorted, asid) <==> Lists(sessions, asid)
  {
    forall i | 0 <= i < |sorted|
      ensures exists k :: 0 <= k < |sessions| && sessions[k] == sorted[i]
    {
      assert sorted[i] in sorted;
    }
    forall i | 0 <= i < |sessions|
      ensures exists k :: 0 <= k < |sorted| && sorted[k] == sessions[i]
    {
      assert sessions[i] in sessions;
    }
  }
}
