/** `request_manager_for_session` of `runtime.rs` as a machine racing the supervisor: between
    any two of the request's reads, agents attach and detach, routes change and the first
    attach pass may finish. */
module OwnerLookup {
  import opened Wrappers

  const AGENT_PREFERENCE: seq<string> := [
    "codex", "opencode", "deepseek", "t3", "fx", "qoder", "pi", "claude", "antigravity", "cursor"
  ]

  predicate IsKnownAgent(agent: string) {
    agent in AGENT_PREFERENCE
  }

  /** An attached manager; `owns` are the sessions its agent recognises. */
  datatype Manager = Manager(serial: nat, kind: string, owns: set<string>)

  datatype Answer = Found(manager: Manager) | OwnerNotAttached(agent: string) | Unknown

  /** Where the request stands. `first` tells the first probe of the agents from the repeat. */
  datatype Pc =
    | ReadRoute
    | OwnerFirst(agent: string)
    | OwnerAwaitSupervisor(agent: string)
    | OwnerAwaitPass(agent: string)
    | OwnerWaiting(agent: string)
    | OwnerSecond(agent: string)
    | ReadPassBefore
    | SessionRoute(first: bool, passBefore: bool)
    | SessionOwner(first: bool, passBefore: bool, agent: string)
    | TakeAttached(first: bool, passBefore: bool)
    | Probing(first: bool, passBefore: bool, attached: seq<Manager>)
    | ReadFinished(passBefore: bool)
    | AwaitSupervisor(finishedDuringProbe: bool)
    | AwaitPass(finishedDuringProbe: bool)
    | Waiting(finishedDuringProbe: bool)
    | Done(answer: Answer)

  datatype Runtime = Runtime(
    managers: map<string, Manager>,
    primary: Option<Manager>,
    routes: map<string, string>,
    supervising: bool,
    firstPass: bool)

  datatype State = State(runtime: Runtime, pc: Pc)

  /** One step of the world. A request step says whether a bounded wait ran out and which
      agents did not answer a probe in time. */
  datatype Action =
    | Attach(manager: Manager)
    | Detach(agent: string)
    | Promote(primary: Option<Manager>)
    | SetRoute(asid: string, agent: string)
    | ForgetRoute(asid: string)
    | StartSupervisor
    | FinishPass
    | Request(timedOut: bool, mute: set<string>)

  function ManagerForAgent(r: Runtime, agent: string): Option<Manager> {
    if agent in r.managers then Some(r.managers[agent])
    else if r.primary.Some? && r.primary.value.kind == agent then r.primary
    else None
  }

  function AttachedOf(r: Runtime, agents: seq<string>): seq<Manager> {
    if agents == [] then []
    else (if agents[0] in r.managers then [r.managers[agents[0]]] else []) + AttachedOf(r, agents[1..])
  }

  /** Attached managers, most preferred first. */
  function AttachedInOrder(r: Runtime): seq<Manager> {
    var all := AttachedOf(r, AGENT_PREFERENCE);
    if all == [] && r.primary.Some? then [r.primary.value] else all
  }

  /** The first of the managers whose agent answers that it owns the session. */
  function FirstOwner(attached: seq<Manager>, asid: string, mute: set<string>): Option<Manager> {
    if attached == [] then None
    else if asid in attached[0].owns && attached[0].kind !in mute then Some(attached[0])
    else FirstOwner(attached[1..], asid, mute)
  }

  /** One read of the request, or its wait ending. */
  function RequestStep(s: State, asid: string, timedOut: bool, mute: set<string>): State {
    var r := s.runtime;
    match s.pc
    case ReadRoute =>
      s.(pc := if asid in r.routes && IsKnownAgent(r.routes[asid]) then OwnerFirst(r.routes[asid]) else ReadPassBefore)
    case OwnerFirst(agent) =>
      var m := ManagerForAgent(r, agent);
      s.(pc := if m.Some? then Done(Found(m.value)) else OwnerAwaitSupervisor(agent))
    case OwnerAwaitSupervisor(agent) =>
      s.(pc := if r.supervising then OwnerAwaitPass(agent) else OwnerSecond(agent))
    case OwnerAwaitPass(agent) =>
      s.(pc := if r.firstPass then OwnerSecond(agent) else OwnerWaiting(agent))
    case OwnerWaiting(agent) =>
      s.(pc := if r.firstPass || timedOut then OwnerSecond(agent) else s.pc)
    case OwnerSecond(agent) =>
      var m := ManagerForAgent(r, agent);
      s.(pc := Done(if m.Some? then Found(m.value) else OwnerNotAttached(agent)))
    case ReadPassBefore => s.(pc := SessionRoute(true, r.firstPass))
    case SessionRoute(first, passBefore) =>
      s.(pc := if asid in r.routes then SessionOwner(first, passBefore, r.routes[asid])
               else TakeAttached(first, passBefore))
    case SessionOwner(first, passBefore, agent) =>
      var m := ManagerForAgent(r, agent);
      s.(pc := if m.Some? then Done(Found(m.value)) else TakeAttached(first, passBefore))
    case TakeAttached(first, passBefore) => s.(pc := Probing(first, passBefore, AttachedInOrder(r)))
    case Probing(first, passBefore, attached) =>
      var m := FirstOwner(attached, asid, mute);
      if m.Some? then State(r.(routes := r.routes[asid := m.value.kind]), Done(Found(m.value)))
      else s.(pc := if first then ReadFinished(passBefore) else Done(Unknown))
    case ReadFinished(passBefore) => s.(pc := AwaitSupervisor(!passBefore && r.firstPass))
    case AwaitSupervisor(finished) =>
      s.(pc := if r.supervising then AwaitPass(finished) else AfterWait(false, finished))
    case AwaitPass(finished) => s.(pc := if r.firstPass then AfterWait(false, finished) else Waiting(finished))
    case Waiting(finished) =>
      s.(pc := if r.firstPass then AfterWait(true, finished) else if timedOut then AfterWait(false, finished) else s.pc)
    case Done(_) => s
  }

  /** The repeat happens when the pass finished during the wait or during the first probe. */
  function AfterWait(finishedInWait: bool, finishedDuringProbe: bool): Pc {
    if finishedInWait || finishedDuringProbe then SessionRoute(false, true) else Done(Unknown)
  }

  function Step(s: State, asid: string, a: Action): State {
    var r := s.runtime;
    match a
    case Attach(m) => s.(runtime := r.(managers := r.managers[m.kind := m]))
    case Detach(agent) => s.(runtime := r.(managers := r.managers - {agent}))
    case Promote(m) => s.(runtime := r.(primary := m))
    case SetRoute(id, agent) => s.(runtime := r.(routes := r.routes[id := agent]))
    case ForgetRoute(id) => s.(runtime := r.(routes := r.routes - {id}))
    case StartSupervisor => s.(runtime := r.(supervising := true))
    case FinishPass => s.(runtime := r.(firstPass := true))
    case Request(timedOut, mute) => RequestStep(s, asid, timedOut, mute)
  }

  function Run(start: Runtime, asid: string, actions: seq<Action>): State {
    if actions == [] then State(start, ReadRoute)
    else Step(Run(start, asid, actions[..|actions| - 1]), asid, actions[|actions| - 1])
  }

  /** Managers are held under their own kind. */
  ghost predicate WellKept(r: Runtime) {
    forall agent :: agent in r.managers ==> r.managers[agent].kind == agent
  }

  lemma StepKeepsKinds(s: State, asid: string, a: Action)
    requires WellKept(s.runtime)
    ensures WellKept(Step(s, asid, a).runtime)
  {
  }

  lemma {:induction false} KindsStay(start: Runtime, asid: string, actions: seq<Action>)
    requires WellKept(start)
    ensures WellKept(Run(start, asid, actions).runtime)
  {
    if actions != [] {
      KindsStay(start, asid, actions[..|actions| - 1]);
      StepKeepsKinds(Run(start, asid, actions[..|actions| - 1]), asid, actions[|actions| - 1]);
    }
  }

  // ---------------------------------------------------------------------------
  // A recorded owner.

  /** The request has not read its route yet, or is about `agent` and nobody else. */
  ghost predicate OnlyAsks(pc: Pc, agent: string) {
    match pc
    case OwnerFirst(a) => a == agent
    case OwnerAwaitSupervisor(a) => a == agent
    case OwnerAwaitPass(a) => a == agent
    case OwnerWaiting(a) => a == agent
    case OwnerSecond(a) => a == agent
    case Done(Found(m)) => m.kind == agent
    case Done(OwnerNotAttached(a)) => a == agent
    case _ => false
  }

  /** Once the route that was read names a known agent, every interleaving asks only that
      agent: no probe, no other manager, never `Unknown`. */
  lemma {:induction false} RecordedOwnerIsAuthoritative(start: Runtime, asid: string, actions: seq<Action>, read: nat)
    requires WellKept(start) && read < |actions| && actions[read].Request?
    requires var s := Run(start, asid, actions[..read]);
      s.pc.ReadRoute? && asid in s.runtime.routes && IsKnownAgent(s.runtime.routes[asid])
    ensures OnlyAsks(Run(start, asid, actions).pc, Run(start, asid, actions[..read]).runtime.routes[asid])
  {
    var n := |actions| - 1;
    KindsStay(start, asid, actions[..n]);
    if read < n {
      assert actions[..n][..read] == actions[..read];
      RecordedOwnerIsAuthoritative(start, asid, actions[..n], read);
    } else {
      assert actions[..n] == actions[..read];
    }
  }

  /** From here on: the supervisor runs, the wait does not run out, and `agent` is attached
      whenever the first pass counts as finished. */
  ghost predicate PassAttaches(start: Runtime, asid: string, actions: seq<Action>, agent: string) {
    var r := Run(start, asid, actions).runtime;
    && r.supervising
    && (r.firstPass ==> agent in r.managers)
    && (actions != [] ==>
          && (actions[|actions| - 1].Request? ==> !actions[|actions| - 1].timedOut)
          && PassAttaches(start, asid, actions[..|actions| - 1], agent))
  }

  ghost predicate OnItsWay(s: State, agent: string) {
    match s.pc
    case OwnerSecond(_) => s.runtime.firstPass
    case Done(answer) => answer.Found?
    case _ => true
  }

  lemma OnItsWayStep(before: State, asid: string, a: Action, agent: string)
    requires WellKept(before.runtime) && OnlyAsks(before.pc, agent) && OnItsWay(before, agent)
    requires before.runtime.supervising && (before.runtime.firstPass ==> agent in before.runtime.managers)
    requires a.Request? ==> !a.timedOut
    ensures OnItsWay(Step(before, asid, a), agent)
  {
  }

  /** If the pass attaches the recorded owner, keeps it and finishes before the wait ends, the
      request gets that owner, however the steps interleave. */
  lemma {:induction false} RecordedOwnerIsFound(start: Runtime, asid: string, actions: seq<Action>, read: nat)
    requires WellKept(start) && read < |actions| && actions[read].Request?
    requires var s := Run(start, asid, actions[..read]);
      s.pc.ReadRoute? && asid in s.runtime.routes && IsKnownAgent(s.runtime.routes[asid])
    requires PassAttaches(start, asid, actions, Run(start, asid, actions[..read]).runtime.routes[asid])
    ensures var agent := Run(start, asid, actions[..read]).runtime.routes[asid];
      var s := Run(start, asid, actions);
      OnItsWay(s, agent) && (s.pc.Done? ==> s.pc.answer.Found? && s.pc.answer.manager.kind == agent)
  {
    var n := |actions| - 1;
    var agent := Run(start, asid, actions[..read]).runtime.routes[asid];
    RecordedOwnerIsAuthoritative(start, asid, actions, read);
    if read < n {
      assert actions[..n][..read] == actions[..read];
      KindsStay(start, asid, actions[..n]);
      RecordedOwnerIsAuthoritative(start, asid, actions[..n], read);
      RecordedOwnerIsFound(start, asid, actions[..n], read);
      OnItsWayStep(Run(start, asid, actions[..n]), asid, actions[n], agent);
    } else {
      assert actions[..n] == actions[..read];
    }
  }

  // ---------------------------------------------------------------------------
  // An answer comes.

  /** How many of its own steps a request is from its answer at most, once the pass is over. */
  function StepsLeft(pc: Pc): nat {
    match pc
    case ReadRoute => 14
    case ReadPassBefore => 13
    case SessionRoute(first, _) => if first then 12 else 4
    case SessionOwner(first, _, _) => if first then 11 else 3
    case TakeAttached(first, _) => if first then 10 else 2
    case Probing(first, _, _) => if first then 9 else 1
    case ReadFinished(_) => 8
    case AwaitSupervisor(_) => 7
    case AwaitPass(_) => 6
    case Waiting(_) => 5
    case OwnerFirst(_) => 5
    case OwnerAwaitSupervisor(_) => 4
    case OwnerAwaitPass(_) => 3
    case OwnerWaiting(_) => 2
    case OwnerSecond(_) => 1
    case Done(_) => 0
  }

  const MAX_STEPS: nat := 14

  function Requests(actions: seq<Action>): nat {
    if actions == [] then 0
    else Requests(actions[..|actions| - 1]) + (if actions[|actions| - 1].Request? then 1 else 0)
  }

  lemma OneStepLess(s: State, asid: string, a: Action)
    requires s.runtime.firstPass
    ensures var next := Step(s, asid, a);
      && next.runtime.firstPass
      && (if a.Request? then next.pc.Done? || StepsLeft(next.pc) < StepsLeft(s.pc) else next.pc == s.pc)
  {
  }

  lemma {:induction false} StepsRunDown(start: Runtime, asid: string, actions: seq<Action>, k: nat)
    requires k <= |actions| && Run(start, asid, actions[..k]).runtime.firstPass
    ensures var s := Run(start, asid, actions);
      && s.runtime.firstPass
      && (s.pc.Done? || StepsLeft(s.pc) + Requests(actions) <= MAX_STEPS + Requests(actions[..k]))
    decreases |actions|
  {
    if k == |actions| {
      assert actions[..k] == actions;
    } else {
      var front := actions[..|actions| - 1];
      assert front[..k] == actions[..k];
      StepsRunDown(start, asid, front, k);
      OneStepLess(Run(start, asid, front), asid, actions[|actions| - 1]);
    }
  }

  /** Once the first pass is over, fourteen steps of its own bring any request to its answer,
      whatever else happens between them. */
  lemma RequestEnds(start: Runtime, asid: string, actions: seq<Action>, k: nat)
    requires k <= |actions| && Run(start, asid, actions[..k]).runtime.firstPass
    requires Requests(actions) >= Requests(actions[..k]) + MAX_STEPS
    ensures Run(start, asid, actions).pc.Done?
  {
    StepsRunDown(start, asid, actions, k);
    NoStepsLeft(Run(start, asid, actions).pc);
  }

  lemma NoStepsLeft(pc: Pc)
    ensures pc.Done? <==> StepsLeft(pc) == 0
  {
  }

  /** So the recorded owner is not only the one answer there can be: it comes. */
  lemma RecordedOwnerComes(start: Runtime, asid: string, actions: seq<Action>, read: nat, k: nat)
    requires WellKept(start) && read < |actions| && actions[read].Request?
    requires var s := Run(start, asid, actions[..read]);
      s.pc.ReadRoute? && asid in s.runtime.routes && IsKnownAgent(s.runtime.routes[asid])
    requires PassAttaches(start, asid, actions, Run(start, asid, actions[..read]).runtime.routes[asid])
    requires k <= |actions| && Run(start, asid, actions[..k]).runtime.firstPass
    requires Requests(actions) >= Requests(actions[..k]) + MAX_STEPS
    ensures var pc := Run(start, asid, actions).pc;
      pc.Done? && pc.answer.Found? && pc.answer.manager.kind == Run(start, asid, actions[..read]).runtime.routes[asid]
  {
    RequestEnds(start, asid, actions, k);
    RecordedOwnerIsFound(start, asid, actions, read);
  }

  // ---------------------------------------------------------------------------
  // Whom a probe picks.

  /** The agent has the session and says so in time. */
  predicate SaysItOwns(m: Manager, asid: string, mute: set<string>) {
    asid in m.owns && m.kind !in mute
  }

  predicate AnyKnownAttached(r: Runtime) {
    exists k :: 0 <= k < |AGENT_PREFERENCE| && AGENT_PREFERENCE[k] in r.managers
  }

  /** `m` is attached for the known agent `p` and says that it owns the session, and none attached
      for an agent before that one does. */
  ghost predicate FirstFrom(r: Runtime, agents: seq<string>, asid: string, mute: set<string>, m: Manager, p: nat) {
    && p < |agents| && agents[p] in r.managers && r.managers[agents[p]] == m && SaysItOwns(m, asid, mute)
    && forall k :: 0 <= k < p && agents[k] in r.managers ==> !SaysItOwns(r.managers[agents[k]], asid, mute)
  }

  /** Of what is attached, `m` is the first in order of preference to say so. The primary
      manager stands in when no known agent is attached. */
  ghost predicate FirstToAnswer(r: Runtime, asid: string, mute: set<string>, m: Manager) {
    if AnyKnownAttached(r) then exists p: nat :: FirstFrom(r, AGENT_PREFERENCE, asid, mute, m, p)
    else r.primary == Some(m) && SaysItOwns(m, asid, mute)
  }

  lemma {:induction false} PicksFirstFrom(r: Runtime, agents: seq<string>, asid: string, mute: set<string>)
    ensures Picked(r, agents, asid, mute, FirstOwner(AttachedOf(r, agents), asid, mute))
  {
    if agents != [] {
      var rest := AttachedOf(r, agents[1..]);
      PicksFirstFrom(r, agents[1..], asid, mute);
      if agents[0] in r.managers {
        assert ([r.managers[agents[0]]] + rest)[1..] == rest;
        if SaysItOwns(r.managers[agents[0]], asid, mute) {
          assert FirstFrom(r, agents, asid, mute, r.managers[agents[0]], 0);
        } else {
          OneFurther(r, agents, asid, mute, FirstOwner(rest, asid, mute));
        }
      } else {
        assert AttachedOf(r, agents) == rest;
        OneFurther(r, agents, asid, mute, FirstOwner(rest, asid, mute));
      }
    }
  }

  ghost predicate Picked(r: Runtime, agents: seq<string>, asid: string, mute: set<string>, found: Option<Manager>) {
    match found
    case Some(m) => exists p: nat :: FirstFrom(r, agents, asid, mute, m, p)
    case None => forall k :: 0 <= k < |agents| && agents[k] in r.managers ==>
      !SaysItOwns(r.managers[agents[k]], asid, mute)
  }

  /** An agent in front that is not attached, or does not say so, changes nothing. */
  lemma OneFurther(r: Runtime, agents: seq<string>, asid: string, mute: set<string>, found: Option<Manager>)
    requires agents != [] && Picked(r, agents[1..], asid, mute, found)
    requires agents[0] in r.managers ==> !SaysItOwns(r.managers[agents[0]], asid, mute)
    ensures Picked(r, agents, asid, mute, found)
  {
    assert forall k :: 1 <= k < |agents| ==> agents[k] == agents[1..][k - 1];
    if found.Some? {
      var p: nat :| FirstFrom(r, agents[1..], asid, mute, found.value, p);
      assert FirstFrom(r, agents, asid, mute, found.value, p + 1);
    }
  }

  lemma FirstFromIsOne(r: Runtime, agents: seq<string>, asid: string, mute: set<string>, a: Manager, b: Manager,
                       p: nat, q: nat)
    requires FirstFrom(r, agents, asid, mute, a, p) && FirstFrom(r, agents, asid, mute, b, q)
    ensures a == b
  {
  }

  lemma {:induction false} AttachedOfNone(r: Runtime, agents: seq<string>)
    ensures AttachedOf(r, agents) == [] <==> forall k :: 0 <= k < |agents| ==> agents[k] !in r.managers
  {
    if agents != [] {
      AttachedOfNone(r, agents[1..]);
      assert forall k :: 1 <= k < |agents| ==> agents[k] == agents[1..][k - 1];
    }
  }

  /** What a probe of all that is attached finds: the first to answer, and nobody exactly when
      there is none. */
  lemma ProbeFindsFirst(r: Runtime, asid: string, mute: set<string>, m: Manager)
    ensures FirstOwner(AttachedInOrder(r), asid, mute) == Some(m) <==> FirstToAnswer(r, asid, mute, m)
  {
    AttachedOfNone(r, AGENT_PREFERENCE);
    PicksFirstFrom(r, AGENT_PREFERENCE, asid, mute);
    var all := AttachedInOrder(r);
    if AnyKnownAttached(r) {
      match FirstOwner(all, asid, mute)
      case Some(found) =>
        var p: nat :| FirstFrom(r, AGENT_PREFERENCE, asid, mute, found, p);
        if q: nat :| FirstFrom(r, AGENT_PREFERENCE, asid, mute, m, q) {
          FirstFromIsOne(r, AGENT_PREFERENCE, asid, mute, found, m, p, q);
        }
      case None =>
    } else if r.primary.Some? {
      assert all == [r.primary.value] && all[1..] == [];
    }
  }

  /** What the probe looks at is what was attached when the request took the list: at `taken`. */
  ghost predicate TakenAt(start: Runtime, asid: string, actions: seq<Action>, taken: nat, attached: seq<Manager>) {
    && taken < |actions| && actions[taken].Request? && Run(start, asid, actions[..taken]).pc.TakeAttached?
    && attached == AttachedInOrder(Run(start, asid, actions[..taken]).runtime)
  }

  lemma {:induction false} ProbesWhatItTook(start: Runtime, asid: string, actions: seq<Action>) returns (taken: nat)
    requires Run(start, asid, actions).pc.Probing?
    ensures TakenAt(start, asid, actions, taken, Run(start, asid, actions).pc.attached)
  {
    var n := |actions| - 1;
    if Run(start, asid, actions[..n]).pc.Probing? {
      taken := ProbesWhatItTook(start, asid, actions[..n]);
      assert actions[..n][..taken] == actions[..taken];
    } else {
      taken := n;
    }
  }

  /** The answer of a probe, over every interleaving: what the step `probe` finds is the first
      of the managers attached at `taken` to say that it owns the session, and the route then
      names its kind; it finds nobody exactly when there is no such manager. */
  lemma ProbeAnswersWithTheOwner(start: Runtime, asid: string, actions: seq<Action>) returns (taken: nat)
    requires actions != [] && actions[|actions| - 1].Request?
    requires Run(start, asid, actions[..|actions| - 1]).pc.Probing?
    ensures taken < |actions| && Run(start, asid, actions[..taken]).pc.TakeAttached? && actions[taken].Request?
    ensures var past := Run(start, asid, actions[..taken]).runtime;
      var after := Run(start, asid, actions);
      var mute := actions[|actions| - 1].mute;
      && (forall m :: after.pc == Done(Found(m)) <==> FirstToAnswer(past, asid, mute, m))
      && (forall m :: after.pc == Done(Found(m)) ==>
            asid in after.runtime.routes && after.runtime.routes[asid] == m.kind)
      && ((forall m :: !FirstToAnswer(past, asid, mute, m)) ==>
            after.runtime == Run(start, asid, actions[..|actions| - 1]).runtime)
  {
    var n := |actions| - 1;
    var mute := actions[n].mute;
    taken := ProbesWhatItTook(start, asid, actions[..n]);
    assert actions[..n][..taken] == actions[..taken];
    var past := Run(start, asid, actions[..taken]).runtime;
    ProbeStepExactly(Run(start, asid, actions[..n]), asid, actions[n], past);
  }

  lemma ProbeStepExactly(before: State, asid: string, a: Action, past: Runtime)
    requires a.Request? && before.pc.Probing? && before.pc.attached == AttachedInOrder(past)
    ensures var after := Step(before, asid, a);
      && (forall m :: after.pc == Done(Found(m)) <==> FirstToAnswer(past, asid, a.mute, m))
      && (forall m :: after.pc == Done(Found(m)) ==>
            after.runtime == before.runtime.(routes := before.runtime.routes[asid := m.kind]))
      && ((forall m :: !FirstToAnswer(past, asid, a.mute, m)) ==> after.runtime == before.runtime)
  {
    forall m
      ensures FirstOwner(before.pc.attached, asid, a.mute) == Some(m) <==> FirstToAnswer(past, asid, a.mute, m)
    {
      ProbeFindsFirst(past, asid, a.mute, m);
    }
  }

  /** A step of the request changes nothing of the runtime but, at a probe, the session's route. */
  lemma RequestTouchesItsRoute(before: State, asid: string, a: Action)
    requires a.Request?
    ensures var after := Step(before, asid, a).runtime;
      && after == before.runtime.(routes := after.routes)
      && after.routes - {asid} == before.runtime.routes - {asid}
      && (!before.pc.Probing? ==> after == before.runtime)
  {
  }

  /** Nobody else records a route for the session. */
  predicate NoRouteSet(asid: string, actions: seq<Action>) {
    forall k :: 0 <= k < |actions| && actions[k].SetRoute? ==> actions[k].asid != asid
  }

  /** No route to the session is known before the answer, and the answer owns it. */
  ghost predicate Unrouted(s: State, asid: string) {
    match s.pc
    case Done(answer) => !answer.OwnerNotAttached? && (answer.Found? ==> asid in answer.manager.owns)
    case SessionOwner(_, _, _) => false
    case OwnerFirst(_) => false
    case OwnerAwaitSupervisor(_) => false
    case OwnerAwaitPass(_) => false
    case OwnerWaiting(_) => false
    case OwnerSecond(_) => false
    case _ => asid !in s.runtime.routes
  }

  lemma {:induction false} FirstOwnerOwns(attached: seq<Manager>, asid: string, mute: set<string>)
    ensures FirstOwner(attached, asid, mute).Some? ==> asid in FirstOwner(attached, asid, mute).value.owns
  {
    if attached != [] {
      FirstOwnerOwns(attached[1..], asid, mute);
    }
  }

  lemma UnroutedStep(before: State, asid: string, a: Action)
    requires Unrouted(before, asid) && (a.SetRoute? ==> a.asid != asid)
    ensures Unrouted(Step(before, asid, a), asid)
  {
    if before.pc.Probing? && a.Request? {
      FirstOwnerOwns(before.pc.attached, asid, a.mute);
    }
  }

  /** So with no route recorded by others, whoever is found recognises the session. */
  lemma {:induction false} FoundOwnsTheSession(start: Runtime, asid: string, actions: seq<Action>)
    requires asid !in start.routes && NoRouteSet(asid, actions)
    ensures Unrouted(Run(start, asid, actions), asid)
    ensures var pc := Run(start, asid, actions).pc;
      pc.Done? && pc.answer.Found? ==> asid in pc.answer.manager.owns
  {
    if actions != [] {
      var n := |actions| - 1;
      FoundOwnsTheSession(start, asid, actions[..n]);
      UnroutedStep(Run(start, asid, actions[..n]), asid, actions[n]);
    }
  }

  // ---------------------------------------------------------------------------
  // Every answer has its reason.

  /** `m` is what the runtime holds for `agent`: attached under its name, else as the primary. */
  predicate IsHeldFor(r: Runtime, agent: string, m: Manager) {
    if agent in r.managers then r.managers[agent] == m else r.primary == Some(m) && m.kind == agent
  }

  /** The answer came with step `k`. */
  ghost predicate AnsweredAt(start: Runtime, asid: string, actions: seq<Action>, k: nat) {
    && k < |actions| && actions[k].Request? && !Run(start, asid, actions[..k]).pc.Done?
    && Run(start, asid, actions[..k + 1]).pc == Run(start, asid, actions).pc
  }

  lemma {:induction false} AnswerCame(start: Runtime, asid: string, actions: seq<Action>) returns (k: nat)
    requires Run(start, asid, actions).pc.Done?
    ensures AnsweredAt(start, asid, actions, k)
  {
    var n := |actions| - 1;
    if Run(start, asid, actions[..n]).pc.Done? {
      k := AnswerCame(start, asid, actions[..n]);
      assert actions[..n][..k] == actions[..k] && actions[..n][..k + 1] == actions[..k + 1];
    } else {
      k := n;
      assert actions[..n + 1] == actions;
    }
  }

  /** Why a step that does not probe answers as it does. */
  ghost predicate HasReason(before: State, answer: Answer) {
    match answer
    case Found(m) => before.pc.Probing? || exists agent :: IsHeldFor(before.runtime, agent, m)
    case OwnerNotAttached(agent) => forall m :: !IsHeldFor(before.runtime, agent, m)
    case Unknown => true
  }

  lemma StepHasReason(before: State, asid: string, a: Action)
    requires a.Request? && !before.pc.Done? && Step(before, asid, a).pc.Done?
    ensures HasReason(before, Step(before, asid, a).pc.answer)
  {
    match before.pc
    case OwnerFirst(agent) => HeldExactly(before.runtime, agent);
    case OwnerSecond(agent) => HeldExactly(before.runtime, agent);
    case SessionOwner(_, _, agent) => HeldExactly(before.runtime, agent);
    case _ =>
  }

  lemma HeldExactly(r: Runtime, agent: string)
    ensures forall m :: ManagerForAgent(r, agent) == Some(m) <==> IsHeldFor(r, agent, m)
  {
  }

  /** Every answer, over every interleaving, was true of the runtime at the step that gave it: a
      manager found without a probe was held for some agent then, and an owner reported missing
      was not. A probe's answer is that of `ProbeAnswersWithTheOwner`. */
  lemma AnswerHasReason(start: Runtime, asid: string, actions: seq<Action>) returns (k: nat)
    requires Run(start, asid, actions).pc.Done?
    ensures AnsweredAt(start, asid, actions, k)
    ensures HasReason(Run(start, asid, actions[..k]), Run(start, asid, actions).pc.answer)
  {
    k := AnswerCame(start, asid, actions);
    assert actions[..k + 1][..k] == actions[..k];
    StepHasReason(Run(start, asid, actions[..k]), asid, actions[k]);
  }

  /** And what the runtime holds for a recorded owner is found, at the first look or the second. */
  lemma HeldIsFound(before: State, asid: string, a: Action, agent: string, m: Manager)
    requires a.Request? && IsHeldFor(before.runtime, agent, m)
    requires
      || before.pc == OwnerFirst(agent) || before.pc == OwnerSecond(agent)
      || (before.pc.SessionOwner? && before.pc.agent == agent)
    ensures Step(before, asid, a) == before.(pc := Done(Found(m)))
  {
    HeldExactly(before.runtime, agent);
  }

  /** A probe that finds nobody. */
  ghost predicate VainProbe(before: State, asid: string, a: Action) {
    before.pc.Probing? && a.Request? && FirstOwner(before.pc.attached, asid, a.mute).None?
  }

  /** The request is past its first probe, and has not found the session there. */
  predicate PastProbe(pc: Pc) {
    match pc
    case ReadFinished(_) => true
    case AwaitSupervisor(_) => true
    case AwaitPass(_) => true
    case Waiting(_) => true
    case Done(answer) => answer.Unknown?
    case _ => false
  }

  predicate IsRepeat(pc: Pc) {
    match pc
    case SessionRoute(first, _) => !first
    case SessionOwner(first, _, _) => !first
    case TakeAttached(first, _) => !first
    case Probing(first, _, _) => !first
    case _ => false
  }

  lemma PastProbeStep(before: State, asid: string, a: Action)
    ensures var after := Step(before, asid, a).pc;
      PastProbe(after) || IsRepeat(after) ==> PastProbe(before.pc) || IsRepeat(before.pc) || VainProbe(before, asid, a)
  {
  }

  /** A request never answers that the session is unknown without a probe that found nobody. */
  lemma {:induction false} UnknownAfterVainProbe(start: Runtime, asid: string, actions: seq<Action>) returns (k: nat)
    requires PastProbe(Run(start, asid, actions).pc) || IsRepeat(Run(start, asid, actions).pc)
    ensures k < |actions| && VainProbe(Run(start, asid, actions[..k]), asid, actions[k])
  {
    var n := |actions| - 1;
    PastProbeStep(Run(start, asid, actions[..n]), asid, actions[n]);
    if VainProbe(Run(start, asid, actions[..n]), asid, actions[n]) {
      k := n;
    } else {
      k := UnknownAfterVainProbe(start, asid, actions[..n]);
      assert actions[..n][..k] == actions[..k];
    }
  }

  // ---------------------------------------------------------------------------
  // No recorded owner.

  /** `owner` recognises the session, answers every probe, is known, and nobody else holds its
      kind while it is attached. */
  ghost predicate Answers(start: Runtime, asid: string, actions: seq<Action>, owner: string) {
    var r := Run(start, asid, actions).runtime;
    && (owner in r.managers ==> asid in r.managers[owner].owns)
    && (actions != [] ==>
          && (actions[|actions| - 1].Request? ==> owner !in actions[|actions| - 1].mute)
          && Answers(start, asid, actions[..|actions| - 1], owner))
  }

  /** The probed managers include the owner. */
  ghost predicate Includes(attached: seq<Manager>, asid: string, owner: string) {
    exists i :: 0 <= i < |attached| && attached[i].kind == owner && asid in attached[i].owns
  }

  lemma {:induction false} AttachedIncludes(r: Runtime, agents: seq<string>, asid: string, owner: string)
    requires WellKept(r) && owner in agents && owner in r.managers && asid in r.managers[owner].owns
    ensures Includes(AttachedOf(r, agents), asid, owner)
  {
    var head := if agents[0] in r.managers then [r.managers[agents[0]]] else [];
    var all := head + AttachedOf(r, agents[1..]);
    if agents[0] == owner {
      assert all[0] == r.managers[owner];
    } else {
      AttachedIncludes(r, agents[1..], asid, owner);
      var i :| 0 <= i < |AttachedOf(r, agents[1..])| && AttachedOf(r, agents[1..])[i].kind == owner
        && asid in AttachedOf(r, agents[1..])[i].owns;
      assert all[|head| + i] == AttachedOf(r, agents[1..])[i];
    }
  }

  lemma {:induction false} IncludedOwnerAnswers(attached: seq<Manager>, asid: string, owner: string, mute: set<string>)
    requires Includes(attached, asid, owner) && owner !in mute
    ensures FirstOwner(attached, asid, mute).Some?
  {
    var i :| 0 <= i < |attached| && attached[i].kind == owner && asid in attached[i].owns;
    if i > 0 {
      assert attached[1..][i - 1] == attached[i];
      IncludedOwnerAnswers(attached[1..], asid, owner, mute);
    }
  }

  /** What is known where, on the way to an answer. */
  ghost predicate ProbesFind(s: State, asid: string, owner: string) {
    match s.pc
    case SessionRoute(first, passBefore) => (first || passBefore) && (passBefore ==> s.runtime.firstPass)
    case SessionOwner(first, passBefore, _) => (first || passBefore) && (passBefore ==> s.runtime.firstPass)
    case TakeAttached(first, passBefore) => (first || passBefore) && (passBefore ==> s.runtime.firstPass)
    case Probing(first, passBefore, attached) =>
      (first || passBefore) && (passBefore ==> Includes(attached, asid, owner))
    case ReadFinished(passBefore) => !passBefore
    case AwaitSupervisor(finished) => finished ==> s.runtime.firstPass
    case AwaitPass(finished) => finished ==> s.runtime.firstPass
    case Waiting(finished) => !finished
    case OwnerSecond(_) => s.runtime.firstPass
    case _ => true
  }

  /** The one way left to miss the owner: the pass finishes after the request has read that it
      had not, and before the wait looks at it. */
  ghost predicate SlippedBetween(before: State, a: Action) {
    a.Request? && before.pc == AwaitPass(false) && before.runtime.firstPass
  }

  /** Did the request end in the gap at any step? */
  ghost predicate EverSlipped(start: Runtime, asid: string, actions: seq<Action>) {
    actions != [] && (
      SlippedBetween(Run(start, asid, actions[..|actions| - 1]), actions[|actions| - 1])
      || EverSlipped(start, asid, actions[..|actions| - 1]))
  }

  /** One step of the argument below. */
  lemma ProbeStep(before: State, asid: string, a: Action, owner: string)
    requires WellKept(before.runtime) && IsKnownAgent(owner) && ProbesFind(before, asid, owner)
    requires before.runtime.supervising && (before.runtime.firstPass ==> owner in before.runtime.managers)
    requires owner in before.runtime.managers ==> asid in before.runtime.managers[owner].owns
    requires a.Request? ==> !a.timedOut && owner !in a.mute
    ensures var after := Step(before, asid, a);
      && ProbesFind(after, asid, owner)
      && (after.pc == Done(Unknown) <==> before.pc == Done(Unknown) || SlippedBetween(before, a))
  {
    if a.Request? {
      if before.pc.TakeAttached? && before.runtime.firstPass {
        AttachedIncludes(before.runtime, AGENT_PREFERENCE, asid, owner);
      }
      if before.pc.Probing? && Includes(before.pc.attached, asid, owner) {
        IncludedOwnerAnswers(before.pc.attached, asid, owner, a.mute);
      }
    }
  }

  /** With no recorded owner, when the pass attaches the agent that owns the session, keeps it
      and finishes before the wait ends, the request answers `Unknown` exactly when the pass
      finished in that gap. */
  lemma {:induction false} UnknownExactlyInTheGap(start: Runtime, asid: string, actions: seq<Action>, owner: string)
    requires WellKept(start) && IsKnownAgent(owner)
    requires PassAttaches(start, asid, actions, owner) && Answers(start, asid, actions, owner)
    ensures ProbesFind(Run(start, asid, actions), asid, owner)
    ensures Run(start, asid, actions).pc == Done(Unknown) <==> EverSlipped(start, asid, actions)
  {
    if actions != [] {
      var n := |actions| - 1;
      KindsStay(start, asid, actions[..n]);
      UnknownExactlyInTheGap(start, asid, actions[..n], owner);
      PassHeld(start, asid, actions[..n], owner);
      ProbeStep(Run(start, asid, actions[..n]), asid, actions[n], owner);
    }
  }

  lemma PassHeld(start: Runtime, asid: string, actions: seq<Action>, owner: string)
    requires PassAttaches(start, asid, actions, owner) && Answers(start, asid, actions, owner)
    ensures var r := Run(start, asid, actions).runtime;
      r.supervising && (r.firstPass ==> owner in r.managers) && (owner in r.managers ==> asid in r.managers[owner].owns)
  {
  }

  lemma {:induction false} NoneAttached(r: Runtime, agents: seq<string>)
    requires r.managers == map[]
    ensures AttachedOf(r, agents) == []
  {
    if agents != [] {
      NoneAttached(r, agents[1..]);
    }
  }

  /** Nothing attached, the supervisor in its first pass. */
  ghost predicate Bare(start: Runtime) {
    start.managers == map[] && start.primary.None? && start.routes == map[] && start.supervising && !start.firstPass
  }

  ghost predicate GapHolds(start: Runtime, actions: seq<Action>, runtime: Runtime, pc: Pc) {
    && Run(start, "ses_1", actions) == State(runtime, pc)
    && PassAttaches(start, "ses_1", actions, "claude") && Answers(start, "ses_1", actions, "claude")
  }

  lemma GapStep(start: Runtime, actions: seq<Action>, runtime: Runtime, pc: Pc, a: Action)
    requires GapHolds(start, actions, runtime, pc)
    requires a.Request? ==> !a.timedOut && a.mute == {}
    requires var next := Step(State(runtime, pc), "ses_1", a).runtime;
      next.supervising && (next.firstPass ==> "claude" in next.managers)
      && ("claude" in next.managers ==> "ses_1" in next.managers["claude"].owns)
    ensures var next := Step(State(runtime, pc), "ses_1", a);
      GapHolds(start, actions + [a], next.runtime, next.pc)
  {
  }

  lemma GapAsk(start: Runtime, actions: seq<Action>, pc: Pc, next: Pc) returns (longer: seq<Action>)
    requires Bare(start) && GapHolds(start, actions, start, pc)
    requires RequestStep(State(start, pc), "ses_1", false, {}) == State(start, next)
    ensures GapHolds(start, longer, start, next)
  {
    GapStep(start, actions, start, pc, Request(false, {}));
    longer := actions + [Request(false, {})];
  }

  lemma ReachTheProbe(start: Runtime) returns (actions: seq<Action>)
    requires Bare(start)
    ensures GapHolds(start, actions, start, TakeAttached(true, false))
  {
    assert GapHolds(start, [], start, ReadRoute);
    actions := GapAsk(start, [], ReadRoute, ReadPassBefore);
    actions := GapAsk(start, actions, ReadPassBefore, SessionRoute(true, false));
    actions := GapAsk(start, actions, SessionRoute(true, false), TakeAttached(true, false));
  }

  lemma ProbeNobody(start: Runtime, actions: seq<Action>) returns (longer: seq<Action>)
    requires Bare(start) && GapHolds(start, actions, start, TakeAttached(true, false))
    ensures GapHolds(start, longer, start, Probing(true, false, []))
  {
    NoneAttached(start, AGENT_PREFERENCE);
    longer := GapAsk(start, actions, TakeAttached(true, false), Probing(true, false, []));
  }

  /** The request alone, as far as the gap. */
  lemma ReachTheGap(start: Runtime) returns (actions: seq<Action>)
    requires Bare(start)
    ensures GapHolds(start, actions, start, AwaitPass(false))
  {
    actions := ReachTheProbe(start);
    actions := ProbeNobody(start, actions);
    actions := GapAsk(start, actions, Probing(true, false, []), ReadFinished(false));
    actions := GapAsk(start, actions, ReadFinished(false), AwaitSupervisor(false));
    actions := GapAsk(start, actions, AwaitSupervisor(false), AwaitPass(false));
  }

  /** The gap is real: the owner attaches and the pass finishes between the two reads, and the
      request answers `Unknown` for a session its attached owner recognises. */
  lemma OwnerMissedInTheGap() returns (start: Runtime, actions: seq<Action>)
    ensures Bare(start)
    ensures PassAttaches(start, "ses_1", actions, "claude") && Answers(start, "ses_1", actions, "claude")
    ensures "claude" in Run(start, "ses_1", actions).runtime.managers
    ensures Run(start, "ses_1", actions).pc == Done(Unknown)
  {
    start := Runtime(map[], None, map[], true, false);
    var claude := Manager(1, "claude", {"ses_1"});
    var before := ReachTheGap(start);
    GapStep(start, before, start, AwaitPass(false), Attach(claude));
    var attached := start.(managers := map["claude" := claude]);
    assert Step(State(start, AwaitPass(false)), "ses_1", Attach(claude)).runtime == attached;
    GapStep(start, before + [Attach(claude)], attached, AwaitPass(false), FinishPass);
    var finished := before + [Attach(claude)] + [FinishPass];
    GapStep(start, finished, attached.(firstPass := true), AwaitPass(false), Request(false, {}));
    actions := finished + [Request(false, {})];
  }
}
