/**
 * Python's `sorted` / `list.sort` as a stable insertion sort over a
 * comparison `leq` ("is not greater than").
 */
module Sorting {

  ghost predicate Total<T(!new)>(leq: (T, T) -> bool) {
    forall a, b :: leq(a, b) || leq(b, a)
  }

  /** Every element is not greater than the next one. */
  predicate Sorted<T>(xs: seq<T>, leq: (T, T) -> bool) {
    forall i :: 0 < i < |xs| ==> leq(xs[i - 1], xs[i])
  }

  /** `x` placed before the first element it is not greater than. */
  function Insert<T>(x: T, xs: seq<T>, leq: (T, T) -> bool): (r: seq<T>)
    ensures |r| == |xs| + 1
    ensures multiset(r) == multiset(xs) + multiset{x}
    ensures r[0] == x || (xs != [] && r[0] == xs[0])
  {
    if xs == [] || leq(x, xs[0]) then [x] + xs
    else
      assert xs == [xs[0]] + xs[1..];
      [xs[0]] + Insert(x, xs[1..], leq)
  }

  function SortBy<T>(xs: seq<T>, leq: (T, T) -> bool): (r: seq<T>)
    ensures |r| == |xs|
    ensures multiset(r) == multiset(xs)
  {
    if xs == [] then []
    else
      assert xs == [xs[0]] + xs[1..];
      Insert(xs[0], SortBy(xs[1..], leq), leq)
  }

  lemma {:induction false} InsertSorted<T(!new)>(x: T, xs: seq<T>, leq: (T, T) -> bool)
    requires Total(leq)
    requires Sorted(xs, leq)
    ensures Sorted(Insert(x, xs, leq), leq)
  {
    if xs != [] && !leq(x, xs[0]) {
      InsertSorted(x, xs[1..], leq);
      var r := Insert(x, xs, leq);
      var t := Insert(x, xs[1..], leq);
      assert r == [xs[0]] + t;
      assert leq(xs[0], t[0]);
    }
  }

  /** The result is in order. */
  lemma {:induction false} SortSorted<T(!new)>(xs: seq<T>, leq: (T, T) -> bool)
    requires Total(leq)
    ensures Sorted(SortBy(xs, leq), leq)
  {
    if xs != [] {
      SortSorted(xs[1..], leq);
      InsertSorted(xs[0], SortBy(xs[1..], leq), leq);
    }
  }

  /** A list already in order is left as it is (the sort is stable). */
  lemma {:induction false} SortKeepsSorted<T>(xs: seq<T>, leq: (T, T) -> bool)
    requires Sorted(xs, leq)
    ensures SortBy(xs, leq) == xs
  {
    if xs != [] {
      assert Sorted(xs[1..], leq);
      SortKeepsSorted(xs[1..], leq);
      assert xs == [xs[0]] + xs[1..];
    }
  }
}
