/**
 * Sorting of latency sequences, standing for Go's `sort.Float64s`. The
 * reporters reassign their latency fields to `Sort(...)` of the old value.
 */
module Sorting {

  predicate Sorted(s: seq<int>) {
    forall i, j :: 0 <= i < j < |s| ==> s[i] <= s[j]
  }

  lemma SortedCons(a: int, t: seq<int>)
    requires Sorted(t) && (t != [] ==> a <= t[0])
    ensures Sorted([a] + t)
  {
    forall i, j | 0 <= i < j < |t| + 1 ensures ([a] + t)[i] <= ([a] + t)[j] {
      if i == 0 && j > 1 { assert t[0] <= t[j - 1]; }
    }
  }

  /** Insert `x` into a sorted sequence before its first larger element. */
  function Insert(x: int, s: seq<int>): (r: seq<int>)
    ensures |r| == |s| + 1
  {
    if s == [] || x <= s[0] then [x] + s
    else [s[0]] + Insert(x, s[1..])
  }

  lemma {:induction false} InsertPerm(x: int, s: seq<int>)
    ensures multiset(Insert(x, s)) == multiset(s) + multiset{x}
  {
    if s != [] && x > s[0] {
      InsertPerm(x, s[1..]);
      assert s == [s[0]] + s[1..];
    }
  }

  lemma {:induction false} InsertSorted(x: int, s: seq<int>)
    requires Sorted(s)
    ensures Sorted(Insert(x, s))
  {
    if s == [] || x <= s[0] {
      SortedCons(x, s);
    } else {
      var t := Insert(x, s[1..]);
      InsertSorted(x, s[1..]);
      assert t[0] == x || t[0] == s[1];
      SortedCons(s[0], t);
    }
  }

  /** Insertion sort: the sorted permutation of `s`. */
  function Sort(s: seq<int>): (r: seq<int>)
    ensures Sorted(r) && multiset(r) == multiset(s) && |r| == |s|
  {
    if s == [] then []
    else
      assert s == [s[0]] + s[1..];
      InsertPerm(s[0], Sort(s[1..]));
      InsertSorted(s[0], Sort(s[1..]));
      Insert(s[0], Sort(s[1..]))
  }

  /** The minimum and maximum of a non-empty sequence. */
  predicate IsMin(s: seq<int>, m: int) {
    m in s && forall x :: x in s ==> m <= x
  }

  predicate IsMax(s: seq<int>, m: int) {
    m in s && forall x :: x in s ==> x <= m
  }

  /** The first element of the sorted copy is the minimum, the last the maximum. */
  lemma SortedEnds(s: seq<int>)
    requires s != []
    ensures IsMin(s, Sort(s)[0]) && IsMax(s, Sort(s)[|s| - 1])
  {
    var r := Sort(s);
    var last := |r| - 1;
    assert r[0] in multiset(s) && r[last] in multiset(s);
    forall x | x in s ensures r[0] <= x <= r[last] {
      assert x in multiset(r);
      var k :| 0 <= k < |r| && r[k] == x;
      assert k == 0 || r[0] <= r[k];
      assert k == last || r[k] <= r[last];
    }
  }
}
