/** The bounded maps of `runtime.rs` (`SessionRoutes`) and `message_images.rs` (`Inner`), each
    a hash map with a queue of its keys, against the plain list of entries they stand for. */
module BoundedMaps {
  import opened Wrappers

  const MAX_SESSION_ROUTES: nat := 4096
  const MAX_SERVED_IMAGES: nat := 4096
  const MAX_SESSION_ROOTS: nat := 1024

  /** Entries in the order their keys came in. */
  type Entries<V> = seq<(string, V)>

  predicate HasKey<V>(entries: Entries<V>, key: string) {
    exists i :: 0 <= i < |entries| && entries[i].0 == key
  }

  ghost predicate DistinctKeys<V>(entries: Entries<V>) {
    forall i, j :: 0 <= i < j < |entries| ==> entries[i].0 != entries[j].0
  }

  function Replaced<V>(entries: Entries<V>, key: string, value: V): (r: Entries<V>)
    ensures |r| == |entries|
    ensures forall i :: 0 <= i < |r| ==> r[i] == if entries[i].0 == key then (key, value) else entries[i]
  {
    seq(|entries|, i requires 0 <= i < |entries| => if entries[i].0 == key then (key, value) else entries[i])
  }

  /** A known key keeps its place; a new one goes last and pushes the first out of a full list. */
  function Put<V>(entries: Entries<V>, key: string, value: V, cap: nat): Entries<V> {
    if HasKey(entries, key) then Replaced(entries, key, value)
    else
      var longer := entries + [(key, value)];
      if |longer| > cap then longer[1..] else longer
  }

  function Removed<V>(entries: Entries<V>, key: string): Entries<V> {
    if entries == [] then []
    else
      var last := entries[|entries| - 1];
      Removed(entries[..|entries| - 1], key) + (if last.0 == key then [] else [last])
  }

  datatype Op<V> = Insert(key: string, value: V) | Remove(key: string)

  function Run<V>(ops: seq<Op<V>>, cap: nat): Entries<V> {
    if ops == [] then []
    else
      var before := Run(ops[..|ops| - 1], cap);
      match ops[|ops| - 1]
      case Insert(key, value) => Put(before, key, value, cap)
      case Remove(key) => Removed(before, key)
  }

  /** The value of the last operation on `key`, if that was an insert. */
  function Latest<V>(ops: seq<Op<V>>, key: string): Option<V> {
    if ops == [] then None
    else
      match ops[|ops| - 1]
      case Insert(k, value) => if k == key then Some(value) else Latest(ops[..|ops| - 1], key)
      case Remove(k) => if k == key then None else Latest(ops[..|ops| - 1], key)
  }

  function Lookup<V>(entries: Entries<V>, key: string): Option<V> {
    if entries == [] then None
    else if entries[|entries| - 1].0 == key then Some(entries[|entries| - 1].1)
    else Lookup(entries[..|entries| - 1], key)
  }

  lemma {:induction false} LookupFinds<V>(entries: Entries<V>, key: string)
    ensures Lookup(entries, key).Some? <==> HasKey(entries, key)
  {
    if entries != [] {
      var front, last := entries[..|entries| - 1], entries[|entries| - 1];
      LookupFinds(front, key);
      if HasKey(front, key) {
        var i :| 0 <= i < |front| && front[i].0 == key;
        assert entries[i].0 == key;
      }
      if HasKey(entries, key) && last.0 != key {
        var i :| 0 <= i < |entries| && entries[i].0 == key;
        assert front[i].0 == key;
      }
    }
  }

  lemma {:induction false} LookupReplaced<V>(entries: Entries<V>, key: string, value: V, other: string)
    ensures Lookup(Replaced(entries, key, value), other)
         == if other == key && HasKey(entries, key) then Some(value) else Lookup(entries, other)
  {
    LookupFinds(entries, key);
    if entries != [] {
      var front := entries[..|entries| - 1];
      assert Replaced(entries, key, value)[..|entries| - 1] == Replaced(front, key, value);
      LookupFinds(front, key);
      LookupReplaced(front, key, value, other);
    }
  }

  lemma {:induction false} LookupPastFirst<V>(entries: Entries<V>, other: string)
    requires DistinctKeys(entries) && entries != []
    ensures Lookup(entries[1..], other) == if entries[0].0 == other then None else Lookup(entries, other)
  {
    if |entries| > 1 {
      var front := entries[..|entries| - 1];
      assert entries[1..][..|entries| - 2] == front[1..];
      LookupPastFirst(front, other);
    } else {
      assert entries[..0] == [];
    }
  }

  /** What an insert does: the key has its value, the bound holds with no key twice, and the
      only key lost is the first, to a new key, when the list is full. */
  lemma PutLooksUp<V>(entries: Entries<V>, key: string, value: V, cap: nat, other: string)
    requires DistinctKeys(entries) && |entries| <= cap && cap > 0
    ensures var r := Put(entries, key, value, cap);
      && DistinctKeys(r) && |r| <= cap
      && Lookup(r, other)
         == if other == key then Some(value)
            else if !HasKey(entries, key) && |entries| == cap && entries[0].0 == other then None
            else Lookup(entries, other)
  {
    if HasKey(entries, key) {
      LookupReplaced(entries, key, value, other);
    } else {
      var longer := entries + [(key, value)];
      assert longer[..|entries|] == entries;
      if |longer| > cap {
        LookupPastFirst(longer, other);
      }
    }
  }

  lemma {:induction false} RemovedLooksUp<V>(entries: Entries<V>, key: string, other: string)
    requires DistinctKeys(entries)
    ensures var r := Removed(entries, key);
      && DistinctKeys(r) && |r| <= |entries|
      && Lookup(r, other) == if other == key then None else Lookup(entries, other)
  {
    if entries != [] {
      var front, last := entries[..|entries| - 1], entries[|entries| - 1];
      RemovedLooksUp(front, key, other);
      if last.0 != key {
        RemovedLooksUp(front, key, last.0);
        LookupFinds(front, last.0);
        LookupFinds(Removed(front, key), last.0);
        assert Removed(entries, key)[..|Removed(front, key)|] == Removed(front, key);
        forall i | 0 <= i < |front|
          ensures front[i].0 != last.0
        {
          assert entries[i] == front[i];
        }
      } else {
        assert Removed(entries, key) == Removed(front, key);
      }
    }
  }

  /** After any run: at most `cap` entries, no key twice, every retained key has its latest
      value, and the key just inserted is retained. */
  lemma {:induction false} RunIsBoundedAndLatest<V>(ops: seq<Op<V>>, cap: nat, key: string)
    requires cap > 0
    ensures var entries := Run(ops, cap);
      && |entries| <= cap && DistinctKeys(entries)
      && (Lookup(entries, key).Some? ==> Lookup(entries, key) == Latest(ops, key))
      && (ops != [] && ops[|ops| - 1].Insert? && ops[|ops| - 1].key == key ==>
            Lookup(entries, key) == Some(ops[|ops| - 1].value))
  {
    if ops != [] {
      var front := ops[..|ops| - 1];
      RunIsBoundedAndLatest(front, cap, key);
      match ops[|ops| - 1]
      case Insert(k, value) => PutLooksUp(Run(front, cap), k, value, cap, key);
      case Remove(k) => RemovedLooksUp(Run(front, cap), k, key);
    }
  }

  /** The position of the insert that brought the key in, overwrites and earlier stays aside. */
  function CameIn<V>(ops: seq<Op<V>>, cap: nat, key: string): int {
    if ops == [] then -1
    else
      var front, last := ops[..|ops| - 1], ops[|ops| - 1];
      if last.Insert? && last.key == key && !HasKey(Run(front, cap), key) then |front| else CameIn(front, cap, key)
  }

  ghost predicate Ascending<V>(entries: Entries<V>, time: string -> int) {
    forall i, j :: 0 <= i < j < |entries| ==> time(entries[i].0) < time(entries[j].0)
  }

  lemma {:induction false} RemovedIsPart<V>(entries: Entries<V>, key: string)
    ensures forall i :: 0 <= i < |Removed(entries, key)| ==> HasKey(entries, Removed(entries, key)[i].0)
  {
    if entries != [] {
      var front, last := entries[..|entries| - 1], entries[|entries| - 1];
      RemovedIsPart(front, key);
      forall i | 0 <= i < |Removed(entries, key)|
        ensures HasKey(entries, Removed(entries, key)[i].0)
      {
        if i < |Removed(front, key)| {
          var k :| 0 <= k < |front| && front[k].0 == Removed(front, key)[i].0;
          assert entries[k] == front[k];
        } else {
          assert entries[|entries| - 1] == last;
        }
      }
    }
  }

  lemma {:induction false} RemovedStaysAscending<V>(entries: Entries<V>, key: string, time: string -> int)
    requires Ascending(entries, time)
    ensures Ascending(Removed(entries, key), time)
  {
    if entries != [] {
      var front, last := entries[..|entries| - 1], entries[|entries| - 1];
      RemovedStaysAscending(front, key, time);
      RemovedIsPart(front, key);
      forall i | 0 <= i < |Removed(front, key)|
        ensures time(Removed(front, key)[i].0) < time(last.0)
      {
        var k :| 0 <= k < |front| && front[k].0 == Removed(front, key)[i].0;
        assert entries[k] == front[k];
      }
    }
  }

  lemma ReplacedStaysAscending<V>(entries: Entries<V>, key: string, value: V, time: string -> int)
    requires Ascending(entries, time)
    ensures Ascending(Replaced(entries, key, value), time)
  {
  }

  lemma AppendedStaysAscending<V>(entries: Entries<V>, key: string, value: V, time: string -> int,
                                  later: string -> int)
    requires Ascending(entries, time) && !HasKey(entries, key)
    requires forall k :: k != key ==> later(k) == time(k) < later(key)
    ensures Ascending(entries + [(key, value)], later)
    ensures Ascending((entries + [(key, value)])[1..], later)
  {
  }

  /** The entries stand in the order in which their keys came in, so the first, which a full
      list loses, is the one that has been there longest. */
  lemma {:induction false} OldestFirst<V>(ops: seq<Op<V>>, cap: nat)
    requires cap > 0
    ensures forall key :: CameIn(ops, cap, key) < |ops|
    ensures Ascending(Run(ops, cap), key => CameIn(ops, cap, key))
  {
    if ops != [] {
      var front := ops[..|ops| - 1];
      OldestFirst(front, cap);
      var before, time := Run(front, cap), (key: string) => CameIn(front, cap, key);
      var later := (key: string) => CameIn(ops, cap, key);
      match ops[|ops| - 1]
      case Insert(key, value) =>
        if HasKey(before, key) {
          ReplacedStaysAscending(before, key, value, time);
        } else {
          AppendedStaysAscending(before, key, value, time, later);
        }
      case Remove(key) => RemovedStaysAscending(before, key, time);
    }
  }

  lemma PutIsTrimmed<V>(entries: Entries<V>, key: string, value: V, cap: nat)
    requires |entries| <= cap && cap > 0
    ensures var longer := if HasKey(entries, key) then Replaced(entries, key, value) else entries + [(key, value)];
      Put(entries, key, value, cap) == longer[(if |longer| > cap then 1 else 0)..]
  {
  }

  // ---------------------------------------------------------------------------
  // A map and its queue as a list.

  ghost predicate Paired<V>(m: map<string, V>, order: seq<string>) {
    && (forall i, j :: 0 <= i < j < |order| ==> order[i] != order[j])
    && (forall key :: key in order <==> key in m)
  }

  ghost function ListOf<V>(m: map<string, V>, order: seq<string>): (r: Entries<V>)
    requires Paired(m, order)
    ensures |r| == |order| && forall i :: 0 <= i < |r| ==> r[i] == (order[i], m[order[i]])
  {
    seq(|order|, i requires 0 <= i < |order| => (order[i], m[order[i]]))
  }

  lemma {:induction false} SameSize(m: set<string>, order: seq<string>)
    requires forall i, j :: 0 <= i < j < |order| ==> order[i] != order[j]
    requires forall key :: key in order <==> key in m
    ensures |m| == |order|
  {
    if order == [] {
      assert m == {};
    } else {
      var front, last := order[..|order| - 1], order[|order| - 1];
      assert order == front + [last];
      SameSize(m - {last}, front);
    }
  }

  lemma PairedSize<V>(m: map<string, V>, order: seq<string>)
    requires Paired(m, order)
    ensures |m| == |order|
  {
    SameSize(m.Keys, order);
    assert |m| == |m.Keys|;
  }

  lemma ListHasKey<V>(m: map<string, V>, order: seq<string>, key: string)
    requires Paired(m, order)
    ensures HasKey(ListOf(m, order), key) <==> key in m
  {
  }

  /** Writing a known key, and writing a new one with its key queued, as list steps. */
  lemma PutPaired<V>(m: map<string, V>, order: seq<string>, key: string, value: V)
    requires Paired(m, order)
    ensures var queued := if key in m then order else order + [key];
      && Paired(m[key := value], queued)
      && ListOf(m[key := value], queued)
         == if key in m then Replaced(ListOf(m, order), key, value) else ListOf(m, order) + [(key, value)]
  {
  }

  /** Dropping the front of the queue and its key from the map drops the first entry. */
  lemma PopPaired<V>(m: map<string, V>, order: seq<string>)
    requires Paired(m, order) && order != []
    ensures Paired(m - {order[0]}, order[1..])
    ensures ListOf(m - {order[0]}, order[1..]) == ListOf(m, order)[1..]
  {
  }

  function Retained(order: seq<string>, key: string): (r: seq<string>)
    ensures forall k :: k in r ==> k in order && k != key
  {
    if order == [] then []
    else
      var last := order[|order| - 1];
      Retained(order[..|order| - 1], key) + (if last == key then [] else [last])
  }

  lemma {:induction false} RetainPaired<V>(m: map<string, V>, order: seq<string>, key: string)
    requires Paired(m, order)
    ensures Paired(m - {key}, Retained(order, key)) && |Retained(order, key)| <= |order|
    ensures ListOf(m - {key}, Retained(order, key)) == Removed(ListOf(m, order), key)
  {
    if order != [] {
      var front, last := order[..|order| - 1], order[|order| - 1];
      UnpushPaired(m, order);
      RetainPaired(m - {last}, front, key);
      if last == key {
        assert m - {last} - {key} == m - {key};
      } else {
        KeepsLast(m, order, key);
      }
    }
  }

  lemma KeepsLast<V>(m: map<string, V>, order: seq<string>, key: string)
    requires order != [] && Paired(m, order)
    requires var front, last := order[..|order| - 1], order[|order| - 1];
      && last != key && Paired(m - {last}, front) && Paired(m - {last} - {key}, Retained(front, key))
      && ListOf(m - {last} - {key}, Retained(front, key)) == Removed(ListOf(m - {last}, front), key)
    ensures Paired(m - {key}, Retained(order, key))
    ensures ListOf(m - {key}, Retained(order, key)) == Removed(ListOf(m, order), key)
  {
    var front, last := order[..|order| - 1], order[|order| - 1];
    UnpushPaired(m, order);
    assert (m - {last} - {key})[last := m[last]] == m - {key};
    PutPaired(m - {last} - {key}, Retained(front, key), last, m[last]);
  }

  lemma UnpushPaired<V>(m: map<string, V>, order: seq<string>)
    requires Paired(m, order) && order != []
    ensures var front, last := order[..|order| - 1], order[|order| - 1];
      && Paired(m - {last}, front)
      && ListOf(m, order)[..|order| - 1] == ListOf(m - {last}, front)
      && ListOf(m, order)[|order| - 1] == (last, m[last])
  {
  }

  class SessionRoutes {
    var routes: map<string, string>
    var order: seq<string>

    ghost predicate Valid()
      reads this
    {
      Paired(routes, order) && |order| <= MAX_SESSION_ROUTES
    }

    ghost function Contents(): Entries<string>
      reads this
      requires Valid()
    {
      ListOf(routes, order)
    }

    constructor ()
      ensures Valid() && Contents() == []
    {
      routes, order := map[], [];
    }

    method Insert(asid: string, agent: string)
      requires Valid()
      modifies this
      ensures Valid()
      ensures Contents() == Put(old(Contents()), asid, agent, MAX_SESSION_ROUTES)
    {
      routes, order := InsertMapped(routes, order, asid, agent, MAX_SESSION_ROUTES);
    }

    method Remove(asid: string)
      requires Valid()
      modifies this
      ensures Valid()
      ensures Contents() == Removed(old(Contents()), asid)
      ensures asid !in routes
    {
      RetainPaired(routes, order, asid);
      if asid in routes {
        routes := routes - {asid};
        order := RetainOthers(asid);
      } else {
        AbsentStays(routes, order, asid);
      }
    }

    method RetainOthers(asid: string) returns (left: seq<string>)
      ensures left == Retained(order, asid)
    {
      left := [];
      for i := 0 to |order|
        invariant left == Retained(order[..i], asid)
      {
        assert order[..i + 1][..i] == order[..i];
        if order[i] != asid {
          left := left + [order[i]];
        }
      }
      assert order[..|order|] == order;
    }
  }

  /** After `k` pops. */
  ghost predicate Popped<V>(next: map<string, V>, queue: seq<string>, m: map<string, V>, order: seq<string>, k: nat)
    requires Paired(m, order)
  {
    && Paired(next, queue) && k <= |order| && |queue| == |order| - k
    && ListOf(next, queue) == ListOf(m, order)[k..]
  }

  lemma PopMore<V>(next: map<string, V>, queue: seq<string>, m: map<string, V>, order: seq<string>, k: nat)
    requires Paired(m, order) && Popped(next, queue, m, order, k) && queue != []
    ensures Popped(next - {queue[0]}, queue[1..], m, order, k + 1)
    ensures |next - {queue[0]}| == |queue| - 1
  {
    PopPaired(next, queue);
    PairedSize(next - {queue[0]}, queue[1..]);
    assert ListOf(m, order)[k..][1..] == ListOf(m, order)[k + 1..];
  }

  lemma NonePopped<V>(m: map<string, V>, order: seq<string>)
    requires Paired(m, order)
    ensures Popped(m, order, m, order, 0) && |m| == |order|
  {
    assert ListOf(m, order)[0..] == ListOf(m, order);
    PairedSize(m, order);
  }

  /** Pops the queue while the map is too large. */
  method TrimByMap<V>(m: map<string, V>, order: seq<string>, cap: nat)
    returns (next: map<string, V>, queue: seq<string>)
    requires Paired(m, order)
    ensures Popped(next, queue, m, order, if |order| <= cap then 0 else |order| - cap)
  {
    next, queue := m, order;
    ghost var k := 0;
    NonePopped(m, order);
    while |next| > cap
      invariant Popped(next, queue, m, order, k) && |next| == |queue|
      invariant |queue| >= cap || k == 0
      decreases |queue|
    {
      PopMore(next, queue, m, order, k);
      var oldest := queue[0];
      queue, next, k := queue[1..], next - {oldest}, k + 1;
    }
    assert k == if |order| <= cap then 0 else |order| - cap;
  }

  /** Pops the queue while the queue is too long. */
  method TrimByQueue<V>(m: map<string, V>, order: seq<string>, cap: nat)
    returns (next: map<string, V>, queue: seq<string>)
    requires Paired(m, order)
    ensures Popped(next, queue, m, order, if |order| <= cap then 0 else |order| - cap)
  {
    next, queue := m, order;
    ghost var k := 0;
    NonePopped(m, order);
    while |queue| > cap
      invariant Popped(next, queue, m, order, k)
      invariant |queue| >= cap || k == 0
    {
      PopMore(next, queue, m, order, k);
      var oldest := queue[0];
      queue, next, k := queue[1..], next - {oldest}, k + 1;
    }
    assert k == if |order| <= cap then 0 else |order| - cap;
  }

  lemma {:induction false} NothingToRetain(order: seq<string>, key: string)
    requires key !in order
    ensures Retained(order, key) == order
  {
    if order != [] {
      NothingToRetain(order[..|order| - 1], key);
    }
  }

  lemma AbsentStays<V>(m: map<string, V>, order: seq<string>, key: string)
    requires Paired(m, order) && key !in m
    ensures m - {key} == m && Retained(order, key) == order
  {
    NothingToRetain(order, key);
  }

  datatype ServedImage = ServedImage(path: string, root: string)

  class MessageImages {
    var roots: map<string, string>
    var rootOrder: seq<string>
    var served: map<string, ServedImage>
    var servedOrder: seq<string>

    ghost predicate Valid()
      reads this
    {
      && Paired(roots, rootOrder) && |rootOrder| <= MAX_SESSION_ROOTS
      && Paired(served, servedOrder) && |servedOrder| <= MAX_SERVED_IMAGES
    }

    constructor ()
      ensures Valid() && ListOf(roots, rootOrder) == [] && ListOf(served, servedOrder) == []
    {
      roots, rootOrder, served, servedOrder := map[], [], map[], [];
    }

    /** `root` is the session's canonical directory, when it has one. */
    method RememberRoot(asid: string, root: Option<string>) returns (r: Option<string>)
      requires Valid()
      modifies this`roots, this`rootOrder
      ensures Valid() && r == root
      ensures root.None? ==> roots == old(roots) && rootOrder == old(rootOrder)
      ensures root.Some? ==>
        ListOf(roots, rootOrder) == Put(old(ListOf(roots, rootOrder)), asid, root.value, MAX_SESSION_ROOTS)
    {
      if root.None? {
        return None;
      }
      roots, rootOrder := InsertQueued(roots, rootOrder, asid, root.value, MAX_SESSION_ROOTS);
      return root;
    }

    method RememberServed(id: string, image: ServedImage)
      requires Valid()
      modifies this`served, this`servedOrder
      ensures Valid()
      ensures ListOf(served, servedOrder) == Put(old(ListOf(served, servedOrder)), id, image, MAX_SERVED_IMAGES)
    {
      served, servedOrder := InsertQueued(served, servedOrder, id, image, MAX_SERVED_IMAGES);
    }
  }

  /** An insert followed by the pops that bring it back to the bound. */
  lemma InsertIsPut<V>(m: map<string, V>, order: seq<string>, key: string, value: V, cap: nat, next: map<string, V>,
                       queue: seq<string>)
    requires Paired(m, order) && |order| <= cap && cap > 0
    requires var queued := if key in m then order else order + [key];
      && Paired(m[key := value], queued)
      && Popped(next, queue, m[key := value], queued, if |queued| <= cap then 0 else |queued| - cap)
    ensures Paired(next, queue) && |queue| <= cap
    ensures ListOf(next, queue) == Put(ListOf(m, order), key, value, cap)
  {
    PutPaired(m, order, key, value);
    ListHasKey(m, order, key);
    PutIsTrimmed(ListOf(m, order), key, value, cap);
  }

  /** The insert of the session routes: the bound is on the map, checked after every insert. */
  method InsertMapped<V>(m: map<string, V>, order: seq<string>, key: string, value: V, cap: nat)
    returns (next: map<string, V>, queue: seq<string>)
    requires Paired(m, order) && |order| <= cap && cap > 0
    ensures Paired(next, queue) && |queue| <= cap
    ensures ListOf(next, queue) == Put(ListOf(m, order), key, value, cap)
  {
    PutPaired(m, order, key, value);
    next, queue := m[key := value], if key in m then order else order + [key];
    next, queue := TrimByMap(next, queue, cap);
    InsertIsPut(m, order, key, value, cap, next, queue);
  }

  /** The insert both image maps share: the bound is on the queue, and only a new key queues. */
  method InsertQueued<V>(m: map<string, V>, order: seq<string>, key: string, value: V, cap: nat)
    returns (next: map<string, V>, queue: seq<string>)
    requires Paired(m, order) && |order| <= cap && cap > 0
    ensures Paired(next, queue) && |queue| <= cap
    ensures ListOf(next, queue) == Put(ListOf(m, order), key, value, cap)
  {
    PutPaired(m, order, key, value);
    next, queue := m[key := value], order;
    NonePopped(next, if key in m then order else order + [key]);
    if key !in m {
      queue := queue + [key];
      next, queue := TrimByQueue(next, queue, cap);
    }
    InsertIsPut(m, order, key, value, cap, next, queue);
  }
}
