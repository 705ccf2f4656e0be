/** The agent tokens of `runtime.rs`: minted before a service starts, settled once the start is
    known to have worked or not. */
module TokenRotation {
  import opened Wrappers

  type TokenId = nat

  datatype Binding = RuntimeOf(agent: string) | PaneOf(session: string, pane: string)

  type Live = map<TokenId, Binding>

  /** What befalls one start: whether the gateway has a token store, whether it lists and
      issues, whether the service starts, which tokens refuse to be revoked, and after how many
      revocations the gateway stops, if it stops before it is done. A start cut off before its
      outcome was known has `stopsAfter == Some(0)`, with `starts` saying whether the service
      came up all the same. */
  datatype Fate = Fate(
    wired: bool, lists: bool, issues: bool, starts: bool, stuck: set<TokenId>, stopsAfter: Option<nat>)
  {
    predicate Mints() { wired && lists && issues }
  }

  function TokensOf(live: Live, agent: string): set<TokenId> {
    set id | id in live && live[id] == RuntimeOf(agent)
  }

  /** The tokens a start sets out to revoke. */
  function Doomed(live: Live, agent: string, fate: Fate, minted: TokenId): set<TokenId> {
    if !fate.Mints() then {} else if fate.starts then TokensOf(live, agent) else {minted}
  }

  /** What a start leaves live. `minted` is the id the store issues next; `reached` are the
      tokens whose revocation the gateway got to. */
  function Launched(live: Live, agent: string, fate: Fate, minted: TokenId, reached: set<TokenId>): Live {
    if !fate.Mints() then live
    else live[minted := RuntimeOf(agent)] - (Doomed(live, agent, fate, minted) * reached - fate.stuck)
  }

  /** The token of the service that came up, if it got one. */
  function Handed(fate: Fate, minted: TokenId): Option<TokenId> {
    if fate.Mints() && fate.starts then Some(minted) else None
  }

  /** Did the gateway get to all of `doomed`? */
  ghost predicate Reaches(fate: Fate, doomed: set<TokenId>, reached: set<TokenId>) {
    && reached <= doomed
    && (if fate.stopsAfter.None? || fate.stopsAfter.value >= |doomed| then reached == doomed
        else |reached| == fate.stopsAfter.value)
  }

  class TokenStore {
    var live: Live
    var next: TokenId

    ghost predicate Valid()
      reads this
    {
      forall id :: id in live ==> id < next
    }

    constructor ()
      ensures Valid() && live == map[]
    {
      live, next := map[], 0;
    }

    method Issue(binding: Binding) returns (id: TokenId)
      requires Valid()
      modifies this
      ensures Valid() && id == old(next) && live == old(live)[id := binding] && next == id + 1
    {
      id := next;
      next := next + 1;
      live := live[id := binding];
    }

    /** Revokes one token; a stuck one stays, and that is only logged. */
    method Revoke(id: TokenId, stuck: set<TokenId>)
      requires Valid()
      modifies this`live
      ensures Valid() && live == old(live) - ({id} - stuck)
    {
      if id !in stuck {
        live := live - {id};
      }
    }

    /** The live tokens of a binding, each once. */
    method List(binding: Binding) returns (ids: seq<TokenId>)
      requires Valid()
      ensures forall id :: id in ids <==> id in live && live[id] == binding
      ensures forall i, j :: 0 <= i < j < |ids| ==> ids[i] != ids[j]
    {
      ids := [];
      var left := live.Keys;
      while left != {}
        invariant left <= live.Keys
        invariant forall id :: id in ids <==> id in live.Keys - left && live[id] == binding
        invariant forall i, j :: 0 <= i < j < |ids| ==> ids[i] != ids[j]
        decreases left
      {
        var id :| id in left;
        left := left - {id};
        if live[id] == binding {
          ids := ids + [id];
        }
      }
    }

    /** Mints a token for the agent; the ids of its live earlier ones come back. */
    method IssueAgentEnvFor(agent: string, lists: bool, issues: bool)
      returns (env: Option<(TokenId, seq<TokenId>)>)
      requires Valid()
      modifies this
      ensures Valid()
      ensures if lists && issues
        then env.Some? && env.value.0 == old(next) && live == old(live)[old(next) := RuntimeOf(agent)]
          && (forall id :: id in env.value.1 <==> id in TokensOf(old(live), agent))
          && (forall i, j :: 0 <= i < j < |env.value.1| ==> env.value.1[i] != env.value.1[j])
        else env.None? && live == old(live) && next == old(next)
    {
      if !lists {
        return None;
      }
      var previous := List(RuntimeOf(agent));
      if !issues {
        return None;
      }
      var id := Issue(RuntimeOf(agent));
      return Some((id, previous));
    }

    /** Revokes the earlier tokens of a start that worked, or the minted one of a start that
        did not, one by one until the gateway stops. */
    method SettleAgentTokens(minted: TokenId, previous: seq<TokenId>, fate: Fate) returns (ghost reached: set<TokenId>)
      requires Valid() && forall i, j :: 0 <= i < j < |previous| ==> previous[i] != previous[j]
      modifies this`live
      ensures Valid()
      ensures Reaches(fate, if fate.starts then Elements(previous) else {minted}, reached)
      ensures live == old(live) - (reached - fate.stuck)
    {
      var doomed := if fate.starts then previous else [minted];
      ElementsCount(doomed);
      assert Elements([minted]) == {minted};
      var i := 0;
      while i < |doomed| && fate.stopsAfter != Some(i)
        invariant 0 <= i <= |doomed| && (fate.stopsAfter.Some? ==> i <= fate.stopsAfter.value)
        invariant Valid()
        invariant live == old(live) - (Elements(doomed[..i]) - fate.stuck)
      {
        assert doomed[..i + 1] == doomed[..i] + [doomed[i]];
        Revoke(doomed[i], fate.stuck);
        i := i + 1;
      }
      reached := Elements(doomed[..i]);
      assert doomed[..|doomed|] == doomed;
      ElementsCount(doomed[..i]);
    }

    method LaunchWithMcp(agent: string, fate: Fate) returns (handed: Option<TokenId>, ghost reached: set<TokenId>)
      requires Valid()
      modifies this
      ensures Valid()
      ensures Reaches(fate, Doomed(old(live), agent, fate, old(next)), reached)
      ensures live == Launched(old(live), agent, fate, old(next), reached)
      ensures handed == Handed(fate, old(next))
    {
      var mcp: Option<(TokenId, seq<TokenId>)> := None;
      if fate.wired {
        mcp := IssueAgentEnvFor(agent, fate.lists, fate.issues);
      }
      reached := {};
      if mcp.Some? {
        var (minted, previous) := mcp.value;
        assert TokensOf(old(live), agent) == Elements(previous);
        reached := SettleAgentTokens(minted, previous, fate);
      }
      return if mcp.Some? && fate.starts then Some(mcp.value.0) else None, reached;
    }
  }

  function Elements(ids: seq<TokenId>): set<TokenId> {
    set id | id in ids
  }

  lemma {:induction false} ElementsCount(ids: seq<TokenId>)
    requires forall i, j :: 0 <= i < j < |ids| ==> ids[i] != ids[j]
    ensures |Elements(ids)| == |ids|
  {
    if ids != [] {
      ElementsCount(ids[..|ids| - 1]);
      assert Elements(ids) == Elements(ids[..|ids| - 1]) + {ids[|ids| - 1]};
    }
  }

  // ---------------------------------------------------------------------------
  // One start.

  /** After a start that settled with every revocation done: exactly the token of the started
      service when one was minted and it started, otherwise exactly what was live before; the
      tokens of every other binding are untouched. */
  lemma SettledStart(live: Live, agent: string, fate: Fate, minted: TokenId, reached: set<TokenId>)
    requires minted !in live && fate.stopsAfter.None? && fate.stuck == {}
    requires Reaches(fate, Doomed(live, agent, fate, minted), reached)
    ensures var after := Launched(live, agent, fate, minted, reached);
      && TokensOf(after, agent) == (if Handed(fate, minted).Some? then {minted} else TokensOf(live, agent))
      && (!fate.Mints() || !fate.starts ==> after == live)
      && forall id :: id in live && live[id] != RuntimeOf(agent) ==> id in after && after[id] == live[id]
  {
  }

  /** Whatever befalls a start, it adds at most its own token and takes away none but the
      agent's: earlier ones only if the service came up, the minted one only if it did not, and
      none that refuses to be revoked. */
  lemma AnyStart(live: Live, agent: string, fate: Fate, minted: TokenId, reached: set<TokenId>)
    requires minted !in live && Reaches(fate, Doomed(live, agent, fate, minted), reached)
    ensures var after := Launched(live, agent, fate, minted, reached);
      && (forall id :: id in after ==> if id == minted then fate.Mints() && after[id] == RuntimeOf(agent)
                                       else id in live && after[id] == live[id])
      && (forall id :: id in live && id !in after ==>
            fate.Mints() && fate.starts && live[id] == RuntimeOf(agent) && id !in fate.stuck)
      && (fate.Mints() && (fate.starts || minted in fate.stuck || fate.stopsAfter == Some(0)) ==> minted in after)
      && (fate.Mints() && !fate.starts && minted !in fate.stuck && fate.stopsAfter != Some(0) ==> minted !in after)
  {
    if fate.Mints() && !fate.starts {
      assert |{minted}| == 1;
      if fate.stopsAfter.Some? && fate.stopsAfter.value == 0 {
        assert reached == {};
      }
    }
  }

  // ---------------------------------------------------------------------------
  // Repeated starts.

  datatype Start = Start(agent: string, fate: Fate, reached: set<TokenId>)

  /** Ids are the store's: never issued twice. */
  function IdAfter(starts: seq<Start>): TokenId {
    if starts == [] then 0
    else IdAfter(starts[..|starts| - 1]) + (if starts[|starts| - 1].fate.Mints() then 1 else 0)
  }

  function LiveAfter(starts: seq<Start>): Live {
    if starts == [] then map[]
    else
      var front, last := starts[..|starts| - 1], starts[|starts| - 1];
      Launched(LiveAfter(front), last.agent, last.fate, IdAfter(front), last.reached)
  }

  /** Each start revokes as far as its fate lets it. */
  ghost predicate IsRun(starts: seq<Start>) {
    starts == [] || (
      var front, last := starts[..|starts| - 1], starts[|starts| - 1];
      && IsRun(front)
      && Reaches(last.fate, Doomed(LiveAfter(front), last.agent, last.fate, IdAfter(front)), last.reached))
  }

  /** The token of the service that runs: that of the last start that brought one up with one,
      whether or not the gateway lived to settle it. */
  function InUse(starts: seq<Start>, agent: string): Option<TokenId> {
    if starts == [] then None
    else
      var front, last := starts[..|starts| - 1], starts[|starts| - 1];
      var handed := Handed(last.fate, IdAfter(front));
      if last.agent == agent && handed.Some? then handed else InUse(front, agent)
  }

  lemma {:induction false} IdsAreBelow(starts: seq<Start>)
    ensures forall id :: id in LiveAfter(starts) ==> id < IdAfter(starts)
  {
    if starts != [] {
      IdsAreBelow(starts[..|starts| - 1]);
    }
  }

  /** Whatever fails, refuses to be revoked or is cut off between any two revocations, the
      token a running service was handed stays live until a later start of that agent brings
      one up with another. */
  lemma {:induction false} RunningServiceKeepsItsToken(starts: seq<Start>, agent: string)
    ensures var used := InUse(starts, agent);
      used.Some? ==> used.value in LiveAfter(starts) && LiveAfter(starts)[used.value] == RuntimeOf(agent)
  {
    if starts != [] {
      var front := starts[..|starts| - 1];
      IdsAreBelow(front);
      RunningServiceKeepsItsToken(front, agent);
    }
  }

  /** A start that mints, starts and revokes removes whatever earlier starts left behind, those
      cut off part way included: one token is live, the one in use. */
  lemma {:induction false} SuccessfulStartRecovers(starts: seq<Start>, agent: string, fate: Fate, reached: set<TokenId>)
    requires fate.Mints() && fate.starts && fate.stopsAfter.None? && fate.stuck == {}
    requires IsRun(starts + [Start(agent, fate, reached)])
    ensures var after := starts + [Start(agent, fate, reached)];
      && TokensOf(LiveAfter(after), agent) == {IdAfter(starts)}
      && InUse(after, agent) == Some(IdAfter(starts))
  {
    var after := starts + [Start(agent, fate, reached)];
    assert after[..|starts|] == starts;
    IdsAreBelow(starts);
    SettledStart(LiveAfter(starts), agent, fate, IdAfter(starts), reached);
  }

  /** While every start settles and revokes, an agent has at most its one token in use. */
  lemma {:induction false} SettledStartsLeaveOneToken(starts: seq<Start>, agent: string)
    requires IsRun(starts)
    requires forall i :: 0 <= i < |starts| && starts[i].agent == agent ==>
      starts[i].fate.stopsAfter.None? && starts[i].fate.stuck == {}
    ensures var used := InUse(starts, agent);
      TokensOf(LiveAfter(starts), agent) == if used.Some? then {used.value} else {}
  {
    if starts != [] {
      var front, last := starts[..|starts| - 1], starts[|starts| - 1];
      SettledStartsLeaveOneToken(front, agent);
      IdsAreBelow(front);
      if last.agent == agent {
        SettledStart(LiveAfter(front), agent, last.fate, IdAfter(front), last.reached);
      } else {
        OtherAgentsTokens(LiveAfter(front), last.agent, last.fate, IdAfter(front), last.reached, agent);
      }
    }
  }

  lemma OtherAgentsTokens(live: Live, agent: string, fate: Fate, minted: TokenId, reached: set<TokenId>, other: string)
    requires minted !in live && other != agent
    ensures TokensOf(Launched(live, agent, fate, minted, reached), other) == TokensOf(live, other)
  {
  }
}
