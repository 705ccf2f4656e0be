/** `AgentEventLog` of `agent_events.rs`: a bounded ring of transitions per session, against the
    full history it forgets. */
module EventRing {
  import opened Wrappers

  const RING_CAPACITY: nat := 200
  const U64_MAX: nat := 0xFFFF_FFFF_FFFF_FFFF

  datatype Transition = Transition(pane: string, agent: Option<string>, from: Option<string>, to: string, at: nat)

  datatype Event = Event(seqNo: nat, what: Transition)

  datatype Ring = Ring(events: seq<Event>, nextSeq: nat)

  /** The transition numbered `n` of a history, counting from one. */
  function Numbered(history: seq<Transition>, n: nat): Event
    requires 1 <= n <= |history|
  {
    Event(n, history[n - 1])
  }

  /** Transitions `from + 1` to `to` of a history, numbered. */
  function Slice(history: seq<Transition>, from: nat, to: nat): (r: seq<Event>)
    requires from <= to <= |history|
    ensures |r| == to - from && forall i :: 0 <= i < |r| ==> r[i] == Numbered(history, from + 1 + i)
  {
    seq(to - from, i requires 0 <= i < to - from => Numbered(history, from + 1 + i))
  }

  /** What the ring forgets of a history of `n` transitions. */
  function Forgotten(n: nat): nat {
    if n <= RING_CAPACITY then 0 else n - RING_CAPACITY
  }

  /** The ring of a session whose whole history is `history`. */
  function RingOf(history: seq<Transition>): Ring {
    Ring(Slice(history, Forgotten(|history|), |history|), |history|)
  }

  type History = map<string, seq<Transition>>

  function HistoryOf(history: History, session: string): seq<Transition> {
    if session in history then history[session] else []
  }

  function Newer(events: seq<Event>, since: Option<nat>): seq<Event> {
    if events == [] then []
    else
      var last := events[|events| - 1];
      Newer(events[..|events| - 1], since) + (if since.None? || last.seqNo > since.value then [last] else [])
  }

  function Wrapped(n: nat): nat {
    if n > U64_MAX then n - (U64_MAX + 1) else n
  }

  lemma SliceGrows(history: seq<Transition>, what: Transition, from: nat)
    requires from <= |history|
    ensures Slice(history + [what], from, |history| + 1)
         == Slice(history, from, |history|) + [Event(|history| + 1, what)]
  {
  }

  lemma SliceDropsFirst(history: seq<Transition>, from: nat)
    requires from < |history|
    ensures Slice(history, from, |history|)[1..] == Slice(history, from + 1, |history|)
  {
  }

  class AgentEventLog {
    var sessions: map<string, Ring>
    /** Everything ever recorded. */
    ghost var history: History

    ghost predicate Valid()
      reads this
    {
      && sessions.Keys == history.Keys
      && (forall s :: s in history ==> history[s] != [] && sessions[s] == RingOf(history[s]))
    }

    constructor ()
      ensures Valid() && history == map[]
    {
      sessions, history := map[], map[];
    }

    method Record(session: string, what: Transition) returns (event: Event)
      requires Valid()
      modifies this
      ensures Valid()
      ensures history == old(history)[session := HistoryOf(old(history), session) + [what]]
      ensures event == Event(|HistoryOf(history, session)|, what)
    {
      var ring := if session in sessions then sessions[session] else Ring([], 0);
      ghost var before := HistoryOf(history, session);
      ghost var after := before + [what];
      event := Event(ring.nextSeq + 1, what);
      assert ring == RingOf(before);
      var events := ring.events + [event];
      SliceGrows(before, what, Forgotten(|before|));
      events := DropOldest(events, after, Forgotten(|before|));
      sessions := sessions[session := Ring(events, event.seqNo)];
      history := history[session := after];
    }

    /** Drops the oldest events while there are too many; `from` have gone before. */
    method DropOldest(events: seq<Event>, ghost all: seq<Transition>, ghost from: nat) returns (kept: seq<Event>)
      requires from <= Forgotten(|all|) && events == Slice(all, from, |all|)
      ensures kept == RingOf(all).events
    {
      kept := events;
      while |kept| > RING_CAPACITY
        invariant from <= |all| - |kept| <= Forgotten(|all|)
        invariant kept == Slice(all, |all| - |kept|, |all|)
      {
        SliceDropsFirst(all, |all| - |kept|);
        kept := kept[1..];
      }
    }

    /** Everything still held after `since`, oldest first. */
    method Since(session: string, since: Option<nat>) returns (newer: seq<Event>)
      requires Valid()
      ensures var h := HistoryOf(history, session); var lost := Forgotten(|h|);
        newer == Slice(h, StartAfter(lost, |h|, since), |h|)
    {
      if session !in sessions {
        return [];
      }
      var events := sessions[session].events;
      newer := [];
      for i := 0 to |events|
        invariant newer == Newer(events[..i], since)
      {
        assert events[..i + 1][..i] == events[..i];
        if since.None? || events[i].seqNo > since.value {
          newer := newer + [events[i]];
        }
      }
      assert events[..|events|] == events;
      ghost var h := history[session];
      NewerIsSlice(h, Forgotten(|h|), |h|, since);
    }

    method LatestSeq(session: string) returns (latest: nat)
      requires Valid()
      ensures latest == |HistoryOf(history, session)|
    {
      return if session in sessions then sessions[session].nextSeq else 0;
    }

    /** Whether something after `since` is gone. Exact, but for the one value whose successor
        does not fit the counter: there it wraps, and any held event looks missed. */
    method Missed(session: string, since: Option<nat>) returns (missed: bool)
      requires Valid() && (since.Some? ==> since.value <= U64_MAX)
      ensures var h := HistoryOf(history, session);
        missed <==> since.Some? && h != [] && (since.value < Forgotten(|h|) || since.value == U64_MAX)
    {
      if session !in sessions || since.None? {
        return false;
      }
      var ring := sessions[session];
      if ring.events == [] {
        return ring.nextSeq > since.value;
      }
      return ring.events[0].seqNo > Wrapped(since.value + 1);
    }
  }

  /** Where the answer to `since` starts among transitions `from + 1` to `to`. */
  function StartAfter(from: nat, to: nat, since: Option<nat>): (start: nat)
    requires from <= to
    ensures from <= start <= to
  {
    if since.None? || since.value < from then from else if since.value > to then to else since.value
  }

  lemma SliceSnoc(history: seq<Transition>, from: nat, to: nat)
    requires from < to <= |history|
    ensures Slice(history, from, to) == Slice(history, from, to - 1) + [Numbered(history, to)]
  {
  }

  lemma NewerSnoc(events: seq<Event>, last: Event, since: Option<nat>)
    ensures Newer(events + [last], since)
         == Newer(events, since) + (if since.None? || last.seqNo > since.value then [last] else [])
  {
  }

  lemma {:induction false} NewerIsSlice(history: seq<Transition>, from: nat, to: nat, since: Option<nat>)
    requires from <= to <= |history|
    ensures Newer(Slice(history, from, to), since) == Slice(history, StartAfter(from, to, since), to)
  {
    if from < to {
      NewerIsSlice(history, from, to - 1, since);
      SliceSnoc(history, from, to);
      NewerSnoc(Slice(history, from, to - 1), Numbered(history, to), since);
      NewerStep(history, from, to, since);
    }
  }

  lemma NewerStep(history: seq<Transition>, from: nat, to: nat, since: Option<nat>)
    requires from < to <= |history|
    ensures Slice(history, StartAfter(from, to - 1, since), to - 1)
            + (if since.None? || to > since.value then [Numbered(history, to)] else [])
         == Slice(history, StartAfter(from, to, since), to)
  {
  }

  // ---------------------------------------------------------------------------
  // What a client can trust.

  /** Some recorded event after `since` is not among those answered. */
  ghost predicate Absent(history: seq<Transition>, since: nat, answered: seq<Event>) {
    exists n :: since < n <= |history| && Numbered(history, n) !in answered
  }

  function Answered(history: seq<Transition>, since: Option<nat>): seq<Event> {
    Newer(RingOf(history).events, since)
  }

  function SaysMissed(history: seq<Transition>, since: nat): bool {
    history != [] && (since < Forgotten(|history|) || since == U64_MAX)
  }

  /** `missed` answers exactly whether something is gone, for every point but the last number
      of the counter; there it is wrong as soon as anything was recorded. */
  lemma MissedIsExact(history: seq<Transition>, since: nat)
    requires since <= U64_MAX && |history| <= U64_MAX
    ensures (SaysMissed(history, since) <==> Absent(history, since, Answered(history, Some(since))))
       <==> (since < U64_MAX || history == [])
  {
    var lost := Forgotten(|history|);
    NewerIsSlice(history, lost, |history|, Some(since));
    var start := StartAfter(lost, |history|, Some(since));
    var got := Slice(history, start, |history|);
    forall n | start < n <= |history|
      ensures Numbered(history, n) in got
    {
      assert got[n - start - 1] == Numbered(history, n);
    }
    if since < lost {
      assert Numbered(history, since + 1) !in got;
    }
  }

  /** What is retained is the newest two hundred, or all there is, numbered contiguously up to
      the latest. */
  lemma RetainedAreContiguous(history: seq<Transition>)
    ensures var ring := RingOf(history);
      && |ring.events| == (if |history| <= RING_CAPACITY then |history| else RING_CAPACITY)
      && ring.nextSeq == |history|
      && (forall i :: 0 <= i < |ring.events| ==> ring.events[i].seqNo == ring.nextSeq - |ring.events| + 1 + i)
      && (forall i :: 0 <= i < |ring.events| ==> ring.events[i].what == history[ring.events[i].seqNo - 1])
  {
  }

  /** A client of one session among others: it polls with the number it was last told, or with
      nothing the first time. */
  datatype Client = Client(cursor: Option<nat>, received: seq<Event>, start: nat, told: bool)

  datatype Move = Recorded(session: string, what: Transition) | Polled

  datatype World = World(history: History, client: Client)

  function Advance(w: World, session: string, move: Move): World {
    match move
    case Recorded(s, what) => w.(history := w.history[s := HistoryOf(w.history, s) + [what]])
    case Polled =>
      var h, c := HistoryOf(w.history, session), w.client;
      var got := Answered(h, c.cursor);
      w.(client := Client(Some(|h|), c.received + got,
                          if c.cursor.None? then Forgotten(|h|) else c.start,
                          c.told || (c.cursor.Some? && SaysMissed(h, c.cursor.value))))
  }

  function Run(session: string, moves: seq<Move>): World {
    if moves == [] then World(map[], Client(None, [], 0, false))
    else Advance(Run(session, moves[..|moves| - 1]), session, moves[|moves| - 1])
  }

  lemma SliceJoins(history: seq<Transition>, a: nat, b: nat, c: nat)
    requires a <= b <= c <= |history|
    ensures Slice(history, a, b) + Slice(history, b, c) == Slice(history, a, c)
  {
  }

  lemma SliceOfLonger(history: seq<Transition>, more: seq<Transition>, a: nat, b: nat)
    requires a <= b <= |history|
    ensures Slice(history + more, a, b) == Slice(history, a, b)
  {
  }

  /** A client that always resumes from the number it was given and was never told it missed
      something has received every event since its start exactly once, in order, however the
      records of this and other sessions fall between its polls. */
  lemma {:induction false} UnmissedClientHasEverything(session: string, moves: seq<Move>)
    ensures var w := Run(session, moves); var c := w.client; var h := HistoryOf(w.history, session);
      && (c.cursor.None? ==> c.received == [])
      && (c.cursor.Some? && !c.told ==>
            c.start <= c.cursor.value <= |h| && c.received == Slice(h, c.start, c.cursor.value))
  {
    if moves != [] {
      var before, move := Run(session, moves[..|moves| - 1]), moves[|moves| - 1];
      UnmissedClientHasEverything(session, moves[..|moves| - 1]);
      var c, h := before.client, HistoryOf(before.history, session);
      match move
      case Recorded(s, what) =>
        if s == session && c.cursor.Some? && !c.told {
          SliceOfLonger(h, [what], c.start, c.cursor.value);
        }
      case Polled =>
        NewerIsSlice(h, Forgotten(|h|), |h|, c.cursor);
        if c.cursor.Some? && !Run(session, moves).client.told {
          SliceJoins(h, c.start, c.cursor.value, |h|);
          assert h == [] ==> Slice(h, 0, 0) == [];
        }
    }
  }
}
