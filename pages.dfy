/**
 * The list operations the bar performs on its notebook's page list and on
 * its list of detached gramplets: GTK's `remove_page` and `reorder_child`,
 * `page_num`, and Python's `list.remove`.
 */
module PageList {

  /** No element occurs twice: a widget is in a container at most once. */
  predicate Distinct<T(==)>(s: seq<T>) {
    forall i, j :: 0 <= i < j < |s| ==> s[i] != s[j]
  }

  /** The list without its element at `i`. */
  function RemoveAt<T>(s: seq<T>, i: nat): (r: seq<T>)
    requires i < |s|
    ensures |r| == |s| - 1
    ensures forall k :: 0 <= k < i ==> r[k] == s[k]
    ensures forall k :: i <= k < |r| ==> r[k] == s[k + 1]
  {
    s[..i] + s[i + 1..]
  }

  /**
   * The position `reorder_child` moves a child to, in a notebook of `n`
   * pages: a negative or too large position means the last page.
   */
  function Clamp(position: int, n: nat): (p: nat)
    requires n > 0
    ensures p < n
    ensures 0 <= position < n ==> p == position
    ensures !(0 <= position < n) ==> p == n - 1
  {
    if position < 0 || position > n - 1 then n - 1 else position
  }

  /** `reorder_child`: the element at `from` moved to `position`, the others keeping their order. */
  function MoveTo<T>(s: seq<T>, from: nat, position: int): seq<T>
    requires from < |s|
  {
    var p := Clamp(position, |s|);
    var rest := RemoveAt(s, from);
    rest[..p] + [s[from]] + rest[p..]
  }

  /** `page_num`: the index of the first occurrence, or -1. */
  function IndexOf<T(==)>(s: seq<T>, x: T): (r: int)
    ensures -1 <= r < |s|
    ensures r == -1 <==> x !in s
    ensures r >= 0 ==> s[r] == x && forall k :: 0 <= k < r ==> s[k] != x
  {
    if s == [] then -1
    else if s[0] == x then 0
    else
      var k := IndexOf(s[1..], x);
      if k == -1 then -1 else k + 1
  }

  /** Python's `list.remove(x)`, for an `x` in the list: its first occurrence goes. */
  function RemoveFirst<T(==)>(s: seq<T>, x: T): seq<T>
    requires x in s
  {
    RemoveAt(s, IndexOf(s, x))
  }

  /** The elements at odd positions: what stays in a list whose every element at an even position is taken out. */
  function Odds<T>(s: seq<T>): (r: seq<T>)
    ensures |r| == |s| / 2
  {
    seq(|s| / 2, k requires 0 <= k < |s| / 2 => s[2 * k + 1])
  }

  /** Moving an element keeps the same elements. */
  lemma MoveToMembers<T>(s: seq<T>, from: nat, position: int, x: T)
    requires from < |s|
    ensures x in MoveTo(s, from, position) <==> x in s
  {
    MoveToPlaces(s, from, position);
    assert x in MoveTo(s, from, position) <==> x in multiset(MoveTo(s, from, position));
    assert x in s <==> x in multiset(s);
  }

  /** The elements at even positions: the ones a walk that takes out each visited element visits. */
  function Evens<T>(s: seq<T>): (r: seq<T>)
    ensures |r| == (|s| + 1) / 2
  {
    seq((|s| + 1) / 2, k requires 0 <= k < (|s| + 1) / 2 => s[2 * k])
  }

  /** The elements at even positions and those at odd positions are, together, all of the list. */
  lemma EvensOdds<T>(s: seq<T>, x: T)
    ensures x in s <==> x in Evens(s) || x in Odds(s)
  {
    if x in s {
      var i :| 0 <= i < |s| && s[i] == x;
      if i % 2 == 0 {
        assert Evens(s)[i / 2] == x;
      } else {
        assert Odds(s)[i / 2] == x;
      }
    }
    if x in Evens(s) {
      var k :| 0 <= k < |Evens(s)| && Evens(s)[k] == x;
      assert s[2 * k] == x;
    }
    if x in Odds(s) {
      var k :| 0 <= k < |Odds(s)| && Odds(s)[k] == x;
      assert s[2 * k + 1] == x;
    }
  }

  /** In a list without repeats, no element is at both an even and an odd position. */
  lemma EvensOddsApart<T>(s: seq<T>, x: T)
    requires Distinct(s)
    ensures !(x in Evens(s) && x in Odds(s))
  {
    if x in Evens(s) {
      var k :| 0 <= k < |Evens(s)| && Evens(s)[k] == x;
      forall l | 0 <= l < |Odds(s)| ensures Odds(s)[l] != x {
        assert s[2 * l + 1] != s[2 * k];
      }
    }
  }

  /**
   * The moved element lands at the clamped position, and removing it from
   * there leaves the others in their old order: a permutation.
   */
  lemma MoveToPlaces<T>(s: seq<T>, from: nat, position: int)
    requires from < |s|
    ensures var r := MoveTo(s, from, position);
            && |r| == |s|
            && r[Clamp(position, |s|)] == s[from]
            && RemoveAt(r, Clamp(position, |s|)) == RemoveAt(s, from)
            && multiset(r) == multiset(s)
  {
    var p := Clamp(position, |s|);
    var rest := RemoveAt(s, from);
    InsertRemove(rest, p, s[from]);
    RemoveAtMultiset(s, from);
  }

  /** An element inserted at `p` is found there, and removing it gives back the list. */
  lemma InsertRemove<T>(rest: seq<T>, p: nat, x: T)
    requires p <= |rest|
    ensures var r := rest[..p] + [x] + rest[p..];
            && p < |r| && r[p] == x && RemoveAt(r, p) == rest
            && multiset(r) == multiset(rest) + multiset{x}
  {
    var r := rest[..p] + [x] + rest[p..];
    assert r[..p] == rest[..p];
    assert r[p + 1..] == rest[p..];
    assert rest[..p] + rest[p..] == rest;
  }

  /** The element removed and the rest make up the list. */
  lemma RemoveAtMultiset<T>(s: seq<T>, i: nat)
    requires i < |s|
    ensures multiset(RemoveAt(s, i)) + multiset{s[i]} == multiset(s)
  {
    assert s == s[..i] + [s[i]] + s[i + 1..];
  }

  /**
   * Taking the element at `i` out, appending it at the end, and moving it to
   * `i` again gives back the list it came from.
   */
  lemma DetachDock<T>(s: seq<T>, i: nat)
    requires i < |s|
    ensures MoveTo(RemoveAt(s, i) + [s[i]], |s| - 1, i) == s
  {
    var t := RemoveAt(s, i) + [s[i]];
    assert RemoveAt(t, |s| - 1) == RemoveAt(s, i);
    var r := MoveTo(t, |s| - 1, i);
    assert r == s[..i] + [s[i]] + s[i + 1..];
    assert s == s[..i] + [s[i]] + s[i + 1..];
  }

  /** Appending an element, moving it, and removing it from where it went gives back the list. */
  lemma DockUndock<T>(s: seq<T>, x: T, position: int)
    ensures MoveTo(s + [x], |s|, position)[Clamp(position, |s| + 1)] == x
    ensures RemoveAt(MoveTo(s + [x], |s|, position), Clamp(position, |s| + 1)) == s
  {
    MoveToPlaces(s + [x], |s|, position);
    assert RemoveAt(s + [x], |s|) == s;
  }

  /** In a list without repeats, removing one element keeps the rest without repeats, and that element gone. */
  lemma DistinctRemoveAt<T>(s: seq<T>, i: nat)
    requires Distinct(s) && i < |s|
    ensures Distinct(RemoveAt(s, i)) && s[i] !in RemoveAt(s, i)
    ensures forall x :: x in RemoveAt(s, i) <==> x in s && x != s[i]
  {
    var r := RemoveAt(s, i);
    forall x | x in s && x != s[i] ensures x in r {
      var k :| 0 <= k < |s| && s[k] == x;
      if k < i {
        assert r[k] == x;
      } else {
        assert r[k - 1] == x;
      }
    }
  }

  /** Inserting an element the list does not hold keeps it without repeats. */
  lemma DistinctInsert<T>(rest: seq<T>, p: nat, x: T)
    requires Distinct(rest) && x !in rest && p <= |rest|
    ensures Distinct(rest[..p] + [x] + rest[p..])
    ensures forall y :: y in rest[..p] + [x] + rest[p..] <==> y in rest || y == x
  {
    var r := rest[..p] + [x] + rest[p..];
    assert forall i :: 0 <= i < p ==> r[i] == rest[i];
    assert forall i :: p < i < |r| ==> r[i] == rest[i - 1];
    forall y | y in rest ensures y in r {
      var k :| 0 <= k < |rest| && rest[k] == y;
      if k < p {
        assert r[k] == y;
      } else {
        assert r[k + 1] == y;
      }
    }
  }

  /** Moving an element keeps a list without repeats without repeats, and its elements the same. */
  lemma DistinctMoveTo<T>(s: seq<T>, from: nat, position: int)
    requires Distinct(s) && from < |s|
    ensures Distinct(MoveTo(s, from, position))
    ensures forall x :: x in MoveTo(s, from, position) <==> x in s
  {
    DistinctRemoveAt(s, from);
    DistinctInsert(RemoveAt(s, from), Clamp(position, |s|), s[from]);
  }

  /** Appending an element the list does not hold keeps it without repeats. */
  lemma DistinctAppend<T>(s: seq<T>, x: T)
    requires Distinct(s) && x !in s
    ensures Distinct(s + [x])
  {
  }

  /** In a list without repeats, an element's first occurrence is its only one. */
  lemma IndexOfDistinct<T>(s: seq<T>, i: nat)
    requires Distinct(s) && i < |s|
    ensures IndexOf(s, s[i]) == i
  {
  }

  /** Removing the first occurrence of an element from a list without repeats removes it altogether. */
  lemma RemoveFirstGone<T>(s: seq<T>, x: T)
    requires Distinct(s) && x in s
    ensures Distinct(RemoveFirst(s, x)) && x !in RemoveFirst(s, x)
    ensures forall y :: y in RemoveFirst(s, x) <==> y in s && y != x
  {
    DistinctRemoveAt(s, IndexOf(s, x));
  }

  /**
   * A list walked by index up to `i` while each visited element is taken
   * out: the odd elements of the part walked over, then the rest.
   */
  function Walked<T>(s: seq<T>, i: nat): seq<T> {
    var m := if 2 * i <= |s| then 2 * i else |s|;
    Odds(s[..m]) + s[m..]
  }

  /** The walk goes on while elements remain past the index; when it stops, the odd elements are left. */
  lemma WalkedLength<T>(s: seq<T>, i: nat)
    ensures 2 * i < |s| ==> |Walked(s, i)| == |s| - i && Walked(s, i)[i] == s[2 * i]
    ensures 2 * i >= |s| ==> Walked(s, i) == Odds(s) && |Walked(s, i)| <= i
  {
    if 2 * i >= |s| {
      assert s[..|s|] == s;
      if 2 * i == |s| {
        assert s[..2 * i] == s;
      }
    }
  }

  /** Taking out the element at the walk's index moves the walk one step on. */
  /** While the walk goes on, the element at its index is the next one at an even position. */
  lemma WalkedIndex<T>(s: seq<T>, i: nat)
    requires i < |Walked(s, i)|
    ensures i < |Evens(s)| && Walked(s, i)[i] == Evens(s)[i]
  {
    WalkedLength(s, i);
  }

  /** The walk stops once its index has passed every element at an even position. */
  lemma WalkedEnd<T>(s: seq<T>, i: nat)
    requires i <= |Evens(s)| && |Walked(s, i)| <= i
    ensures i == |Evens(s)| && Walked(s, i) == Odds(s)
  {
    WalkedLength(s, i);
  }

  lemma WalkedStep<T>(s: seq<T>, i: nat)
    requires 2 * i < |s|
    ensures i < |Walked(s, i)|
    ensures RemoveAt(Walked(s, i), i) == Walked(s, i + 1)
  {
    WalkedLength(s, i);
    var w := Walked(s, i);
    assert w == Odds(s[..2 * i]) + s[2 * i..];
    assert RemoveAt(w, i) == Odds(s[..2 * i]) + s[2 * i + 1..];
    var m := if 2 * i + 2 <= |s| then 2 * i + 2 else |s|;
    if 2 * i + 2 <= |s| {
      assert Odds(s[..m]) == Odds(s[..2 * i]) + [s[2 * i + 1]];
      assert s[2 * i + 1..] == [s[2 * i + 1]] + s[m..];
    } else {
      assert Odds(s[..m]) == Odds(s[..2 * i]);
      assert s[2 * i + 1..] == [];
    }
  }
}
