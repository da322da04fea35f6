/**
 * Counting maps, as the reporters use for `errorDist` and `statusCodeDist`:
 * a Go `map[K]int` bumped with `m[k]++` (a missing key reads as 0).
 */
module Tally {

  /** Number of occurrences of `x` in `s`. */
  function Occ<T(==)>(s: seq<T>, x: T): (n: nat)
    ensures n <= |s|
    ensures n > 0 <==> x in s
  {
    if s == [] then 0
    else (if s[0] == x then 1 else 0) + Occ(s[1..], x)
  }

  /** `m[k]++` on a Go map of counters. */
  function Bump<K(==)>(m: map<K, int>, k: K): (r: map<K, int>)
    ensures r.Keys == m.Keys + {k}
    ensures r[k] == (if k in m then m[k] else 0) + 1
    ensures forall j :: j in m && j != k ==> r[j] == m[j]
  {
    m[k := (if k in m then m[k] else 0) + 1]
  }

  /** The sum of all counters of a map. */
  ghost function Total<K>(m: map<K, int>): int
    decreases |m.Keys|
  {
    if m == map[] then 0
    else
      var k :| k in m;
      m[k] + Total(m - {k})
  }

  /** Total does not depend on which key is taken out first. */
  lemma {:induction false} TotalRemove<K>(m: map<K, int>, k: K)
    requires k in m
    ensures Total(m) == m[k] + Total(m - {k})
    decreases |m.Keys|
  {
    var j :| j in m && Total(m) == m[j] + Total(m - {j});
    if j != k {
      var mj := m - {j};
      var mk := m - {k};
      assert |mj.Keys| < |m.Keys| by { assert mj.Keys < m.Keys; }
      assert |mk.Keys| < |m.Keys| by { assert mk.Keys < m.Keys; }
      TotalRemove(mj, k);
      TotalRemove(mk, j);
      assert mj - {k} == mk - {j};
    }
  }

  /** Bumping a counter adds exactly one to the total. */
  lemma TotalBump<K>(m: map<K, int>, k: K)
    ensures Total(Bump(m, k)) == Total(m) + 1
  {
    var r := Bump(m, k);
    TotalRemove(r, k);
    assert r - {k} == m - {k};
    if k in m {
      TotalRemove(m, k);
    } else {
      assert m - {k} == m;
    }
  }

  /** The counting map of `s`, bumped element by element from the front. */
  function Tally<K(==)>(s: seq<K>): map<K, int>
  {
    if s == [] then map[] else Bump(Tally(s[..|s| - 1]), s[|s| - 1])
  }

  /** Each key of the tally counts its occurrences; the keys are the elements. */
  lemma {:induction false} TallyCounts<K>(s: seq<K>)
    ensures Tally(s).Keys == set x | x in s
    ensures forall x :: x in Tally(s) ==> Tally(s)[x] == Occ(s, x)
    ensures Total(Tally(s)) == |s|
  {
    if s != [] {
      var p, x := s[..|s| - 1], s[|s| - 1];
      assert s == p + [x];
      TallyCounts(p);
      TotalBump(Tally(p), x);
      OccLast(s);
    }
  }

  /** The map `m` with every element of `s` bumped in turn. */
  function BumpAll<K(==)>(m: map<K, int>, s: seq<K>): map<K, int>
  {
    if s == [] then m else Bump(BumpAll(m, s[..|s| - 1]), s[|s| - 1])
  }

  /** Bumping a sequence onto a map adds its occurrences to each counter and its length to the total. */
  lemma {:induction false} BumpAllCounts<K>(m: map<K, int>, s: seq<K>)
    ensures BumpAll(m, s).Keys == m.Keys + set x | x in s
    ensures forall x :: x in BumpAll(m, s) ==>
      BumpAll(m, s)[x] == (if x in m then m[x] else 0) + Occ(s, x)
    ensures Total(BumpAll(m, s)) == Total(m) + |s|
  {
    if s != [] {
      var p, x := s[..|s| - 1], s[|s| - 1];
      assert s == p + [x];
      BumpAllCounts(m, p);
      TotalBump(BumpAll(m, p), x);
      OccLast(s);
    }
  }

  /** The occurrences in `s` are those before its last element, plus that one. */
  lemma OccLast<T>(s: seq<T>)
    requires s != []
    ensures forall y :: Occ(s, y) == Occ(s[..|s| - 1], y) + (if s[|s| - 1] == y then 1 else 0)
  {
    var p, x := s[..|s| - 1], s[|s| - 1];
    assert s == p + [x];
    forall y ensures Occ(s, y) == Occ(p, y) + (if x == y then 1 else 0) {
      OccAppend(p, [x], y);
    }
  }

  /** Occurrences in a concatenation add up. */
  lemma {:induction false} OccAppend<T>(a: seq<T>, b: seq<T>, x: T)
    ensures Occ(a + b, x) == Occ(a, x) + Occ(b, x)
  {
    if a != [] {
      assert (a + b)[1..] == a[1..] + b;
      OccAppend(a[1..], b, x);
    } else {
      assert a + b == b;
    }
  }

  /**
   * Counting every element of `s` into a fresh map, one `m[x]++` per
   * element in order.
   */
  method CountAll<K(==)>(s: seq<K>) returns (m: map<K, int>)
    ensures m == Tally(s)
    ensures m.Keys == set x | x in s
    ensures forall x :: x in m ==> m[x] == Occ(s, x)
  {
    m := map[];
    var i := 0;
    while i < |s|
      invariant 0 <= i <= |s| && m == Tally(s[..i])
    {
      assert s[..i + 1][..i] == s[..i];
      m := Bump(m, s[i]);
      i := i + 1;
    }
    assert s[..i] == s;
    TallyCounts(s);
  }
}
