/** Stable sorting, as the standard library's `sort_by` does it. */
module Sorting {
  ghost predicate IsOrder<T(!new)>(le: (T, T) -> bool) {
    && (forall a, b :: le(a, b) || le(b, a))
    && (forall a, b, c :: le(a, b) && le(b, c) ==> le(a, c))
  }

  ghost predicate Sorted<T>(xs: seq<T>, le: (T, T) -> bool) {
    forall i, j :: 0 <= i < j < |xs| ==> le(xs[i], xs[j])
  }

  /** `x` goes behind everything not above it, so equal elements keep their order. */
  function Inserted<T>(xs: seq<T>, x: T, le: (T, T) -> bool): (r: seq<T>)
    ensures |r| == |xs| + 1
  {
    if xs == [] then [x]
    else if le(xs[|xs| - 1], x) then xs + [x]
    else Inserted(xs[..|xs| - 1], x, le) + [xs[|xs| - 1]]
  }

  function SortedBy<T>(xs: seq<T>, le: (T, T) -> bool): (r: seq<T>)
    ensures |r| == |xs|
  {
    if xs == [] then [] else Inserted(SortedBy(xs[..|xs| - 1], le), xs[|xs| - 1], le)
  }

  lemma {:induction false} InsertedElements<T>(xs: seq<T>, x: T, le: (T, T) -> bool)
    ensures multiset(Inserted(xs, x, le)) == multiset(xs) + multiset{x}
  {
    if xs != [] && !le(xs[|xs| - 1], x) {
      InsertedElements(xs[..|xs| - 1], x, le);
      assert xs == xs[..|xs| - 1] + [xs[|xs| - 1]];
    }
  }

  /** Everything in an insertion was there before or is what was inserted. */
  lemma {:induction false} InsertedAt<T>(xs: seq<T>, x: T, le: (T, T) -> bool, i: nat)
    requires i <= |xs|
    ensures Inserted(xs, x, le)[i] == x || exists k :: 0 <= k < |xs| && xs[k] == Inserted(xs, x, le)[i]
  {
    if xs != [] && !le(xs[|xs| - 1], x) && i < |xs| {
      InsertedAt(xs[..|xs| - 1], x, le, i);
    }
  }

  lemma {:induction false} InsertedKeeps<T(!new)>(xs: seq<T>, x: T, le: (T, T) -> bool)
    requires IsOrder(le) && Sorted(xs, le)
    ensures Sorted(Inserted(xs, x, le), le)
  {
    if xs != [] && !le(xs[|xs| - 1], x) {
      var front, last := xs[..|xs| - 1], xs[|xs| - 1];
      InsertedKeeps(front, x, le);
      var r := Inserted(front, x, le);
      forall i | 0 <= i < |r|
        ensures le(r[i], last)
      {
        InsertedAt(front, x, le, i);
      }
    }
  }

  lemma {:induction false} SortedByIsSorted<T(!new)>(xs: seq<T>, le: (T, T) -> bool)
    requires IsOrder(le)
    ensures Sorted(SortedBy(xs, le), le)
    ensures multiset(SortedBy(xs, le)) == multiset(xs)
  {
    if xs != [] {
      var front, last := xs[..|xs| - 1], xs[|xs| - 1];
      assert xs == front + [last];
      SortedByIsSorted(front, le);
      InsertedKeeps(SortedBy(front, le), last, le);
      InsertedElements(SortedBy(front, le), last, le);
    }
  }

  lemma SameElements<T>(xs: seq<T>, ys: seq<T>)
    requires multiset(xs) == multiset(ys)
    ensures forall x :: x in xs <==> x in ys
  {
    forall x
      ensures x in xs <==> x in ys
    {
      assert x in xs <==> x in multiset(xs);
      assert x in ys <==> x in multiset(ys);
    }
  }

  lemma {:induction false} DistinctCounts<T>(xs: seq<T>, x: T)
    requires forall i, j :: 0 <= i < j < |xs| ==> xs[i] != xs[j]
    ensures multiset(xs)[x] <= 1
  {
    if xs != [] {
      var front, last := xs[..|xs| - 1], xs[|xs| - 1];
      assert xs == front + [last];
      DistinctCounts(front, x);
      if x == last {
        assert x !in front;
        assert x !in multiset(front);
      }
    }
  }

  lemma CountsDistinct<T>(xs: seq<T>, i: nat, j: nat)
    requires i < j < |xs| && multiset(xs)[xs[i]] <= 1
    ensures xs[i] != xs[j]
  {
    assert xs == xs[..j] + xs[j..];
    assert xs[i] == xs[..j][i] && xs[j] == xs[j..][0];
    assert xs[i] in multiset(xs[..j]);
    assert xs[j] in multiset(xs[j..]);
  }

  /** Sorting keeps distinct elements distinct. */
  lemma SortedByStaysDistinct<T(!new)>(xs: seq<T>, le: (T, T) -> bool)
    requires IsOrder(le) && forall i, j :: 0 <= i < j < |xs| ==> xs[i] != xs[j]
    ensures forall i, j :: 0 <= i < j < |SortedBy(xs, le)| ==> SortedBy(xs, le)[i] != SortedBy(xs, le)[j]
  {
    SortedByIsSorted(xs, le);
    var ys := SortedBy(xs, le);
    forall i, j | 0 <= i < j < |ys|
      ensures ys[i] != ys[j]
    {
      DistinctCounts(xs, ys[i]);
      CountsDistinct(ys, i, j);
    }
  }

  // ---------------------------------------------------------------------------
  // `str::cmp`

  predicate TextLe(a: string, b: string) {
    a == "" || (b != "" && (a[0] < b[0] || (a[0] == b[0] && TextLe(a[1..], b[1..]))))
  }

  lemma {:induction false} TextLeTotal(a: string, b: string)
    ensures TextLe(a, b) || TextLe(b, a)
  {
    if a != "" && b != "" && a[0] == b[0] {
      TextLeTotal(a[1..], b[1..]);
    }
  }

  lemma {:induction false} TextLeTransitive(a: string, b: string, c: string)
    requires TextLe(a, b) && TextLe(b, c)
    ensures TextLe(a, c)
  {
    if a != "" && a[0] == b[0] && b[0] == c[0] {
      TextLeTransitive(a[1..], b[1..], c[1..]);
    }
  }
}
