/**
 * The percentile walk and the histogram bucket scan shared by the two
 * reporters (requester/report.go and commands/print.go). Latencies are
 * integer nanoseconds. The two percentile walks differ only in the index
 * they test: `i*100/len` in one and `(i+1)*100/len` in the other, which is
 * the `shift` parameter below (0 or 1).
 */
module Stats {
  import opened Sorting
  import opened Tally

  /** The percentiles both reporters print. */
  const Pctls: seq<int> := [10, 25, 50, 75, 90, 95, 99]

  /** The percentage the walk assigns to latency index `i` of `n`. */
  function Pct(n: nat, shift: nat, i: nat): int
    requires n > 0
  {
    (i + shift) * 100 / n
  }

  /**
   * The first index `k` in [from, n) whose percentage `(k+shift)*100/n`
   * reaches `p`, or `n` when none does.
   */
  function FirstReaching(n: nat, shift: nat, p: int, from: nat): (k: nat)
    requires from <= n
    ensures from <= k <= n
    ensures k < n ==> Pct(n, shift, k) >= p
    ensures forall i :: from <= i < k ==> Pct(n, shift, i) < p
    decreases n - from
  {
    if from == n then n
    else if Pct(n, shift, from) >= p then from
    else FirstReaching(n, shift, p, from + 1)
  }

  /**
   * The latency index the walk assigns to each percentile of `ps`, starting
   * the scan at `from`; -1 for a percentile the walk never reaches.
   */
  function Picks(n: nat, shift: nat, ps: seq<int>, from: nat): (r: seq<int>)
    requires from <= n
    ensures |r| == |ps|
    decreases |ps|
  {
    if ps == [] then []
    else
      var k := FirstReaching(n, shift, ps[0], from);
      if k == n then seq(|ps|, _ => -1)
      else [k] + Picks(n, shift, ps[1..], k + 1)
  }

  /** `ps` are all indices in [from, n) or -1, and the indices used strictly increase. */
  predicate WellPicked(n: nat, from: nat, ps: seq<int>) {
    (forall j :: 0 <= j < |ps| ==> ps[j] == -1 || from <= ps[j] < n)
    && (forall j, k :: 0 <= j < k < |ps| && ps[k] != -1 ==> 0 <= ps[j] < ps[k])
  }

  lemma WellPickedCons(n: nat, from: nat, k: nat, r: seq<int>)
    requires from <= k < n && WellPicked(n, k + 1, r)
    ensures WellPicked(n, from, [k] + r)
  {
    var s := [k] + r;
    forall j, m | 0 <= j < m < |s| && s[m] != -1 ensures 0 <= s[j] < s[m] {
      assert s[m] == r[m - 1];
      if j > 0 { assert s[j] == r[j - 1]; }
    }
  }

  /**
   * The picks have one entry per percentile; each latency index serves at
   * most one percentile; once a percentile is not reached, no later one is.
   */
  lemma {:induction false} PicksShape(n: nat, shift: nat, ps: seq<int>, from: nat)
    requires from <= n
    ensures WellPicked(n, from, Picks(n, shift, ps, from))
    decreases |ps|
  {
    if ps != [] {
      var k := FirstReaching(n, shift, ps[0], from);
      if k < n {
        PicksShape(n, shift, ps[1..], k + 1);
        WellPickedCons(n, from, k, Picks(n, shift, ps[1..], k + 1));
      }
    }
  }

  /**
   * A reached percentile is served by the first index after the previous
   * pick whose percentage reaches it: no index in between would do.
   */
  lemma {:induction false} PicksFirst(n: nat, shift: nat, ps: seq<int>, from: nat, j: nat)
    requires from <= n && j < |ps|
    ensures var r := Picks(n, shift, ps, from);
      var lo := if j == 0 then from else r[j - 1] + 1;
      r[j] >= 0 ==>
        r[j] < n && Pct(n, shift, r[j]) >= ps[j]
        && forall i: nat :: lo <= i < r[j] ==> Pct(n, shift, i) < ps[j]
    decreases |ps|
  {
    var r := Picks(n, shift, ps, from);
    var k := FirstReaching(n, shift, ps[0], from);
    if k < n && j > 0 {
      var r' := Picks(n, shift, ps[1..], k + 1);
      assert r == [k] + r';
      PicksFirst(n, shift, ps[1..], k + 1, j - 1);
      assert r[j] == r'[j - 1] && ps[j] == ps[1..][j - 1];
      if j > 1 { assert r[j - 1] == r'[j - 2]; }
    }
  }

  /** The value the walk stores for each percentile: the latency picked or 0. */
  function PercentileValues(lats: seq<int>, shift: nat, ps: seq<int>): (data: seq<int>)
    ensures |data| == |ps|
  {
    var p := Picks(|lats|, shift, ps, 0);
    PicksShape(|lats|, shift, ps, 0);
    seq(|ps|, j requires 0 <= j < |ps| => if p[j] >= 0 then lats[p[j]] else 0)
  }

  /** One step of the walk at index `i`: it either serves the first percentile or moves on. */
  lemma PicksStep(n: nat, shift: nat, ps: seq<int>, i: nat)
    requires ps != [] && i < n
    ensures Pct(n, shift, i) >= ps[0] ==> Picks(n, shift, ps, i) == [i] + Picks(n, shift, ps[1..], i + 1)
    ensures Pct(n, shift, i) < ps[0] ==> Picks(n, shift, ps, i) == Picks(n, shift, ps, i + 1)
  {
  }

  /** Past the last index no percentile is reached. */
  lemma PicksAtEnd(n: nat, shift: nat, ps: seq<int>)
    ensures Picks(n, shift, ps, n) == seq(|ps|, _ => -1)
  {
  }

  /** One step of the walk at index `i`, stated on the picks still to come. */
  lemma WalkStep(n: nat, shift: nat, ps: seq<int>, j: nat, i: nat, all: seq<int>)
    requires j < |ps| && i < n && |all| == |ps| && Picks(n, shift, ps[j..], i) == all[j..]
    ensures Pct(n, shift, i) >= ps[j] ==> all[j] == i && Picks(n, shift, ps[j + 1..], i + 1) == all[j + 1..]
    ensures Pct(n, shift, i) < ps[j] ==> Picks(n, shift, ps[j..], i + 1) == all[j..]
  {
    PicksStep(n, shift, ps[j..], i);
    assert ps[j..][1..] == ps[j + 1..];
    assert all[j..][1..] == all[j + 1..];
  }

  /**
   * The state of the walk after scanning `i` latencies and serving `j`
   * percentiles: the picks still to come are those of the rest of the walk,
   * the served percentiles hold their latency and the others still 0.
   */
  ghost predicate Walked(lats: seq<int>, shift: nat, ps: seq<int>, all: seq<int>, data: seq<int>, i: nat, j: nat) {
    && i <= |lats| && j <= |ps| && |all| == |ps| == |data|
    && Picks(|lats|, shift, ps[j..], i) == all[j..]
    && (forall k :: 0 <= k < j ==> 0 <= all[k] < |lats| && data[k] == lats[all[k]])
    && (forall k :: j <= k < |ps| ==> data[k] == 0)
  }

  /** The walk starts with no latency scanned and every value 0. */
  lemma WalkStart(lats: seq<int>, shift: nat, ps: seq<int>)
    ensures Walked(lats, shift, ps, Picks(|lats|, shift, ps, 0), seq(|ps|, _ => 0), 0, 0)
  {
    assert ps[0..] == ps;
  }

  /** Latency `i` serves percentile `j`: its value is stored and both scans move on. */
  lemma WalkTake(lats: seq<int>, shift: nat, ps: seq<int>, all: seq<int>, data: seq<int>, i: nat, j: nat)
    requires Walked(lats, shift, ps, all, data, i, j) && i < |lats| && j < |ps|
    requires Pct(|lats|, shift, i) >= ps[j]
    ensures Walked(lats, shift, ps, all, data[j := lats[i]], i + 1, j + 1)
  {
    WalkStep(|lats|, shift, ps, j, i, all);
  }

  /** Latency `i` falls short of percentile `j`: only the latency scan moves on. */
  lemma WalkSkip(lats: seq<int>, shift: nat, ps: seq<int>, all: seq<int>, data: seq<int>, i: nat, j: nat)
    requires Walked(lats, shift, ps, all, data, i, j) && i < |lats| && j < |ps|
    requires Pct(|lats|, shift, i) < ps[j]
    ensures Walked(lats, shift, ps, all, data, i + 1, j)
  {
    WalkStep(|lats|, shift, ps, j, i, all);
  }

  /** When the walk stops, the values it stored are the specified ones. */
  lemma WalkDone(lats: seq<int>, shift: nat, ps: seq<int>, all: seq<int>, data: seq<int>, i: nat, j: nat)
    requires all == Picks(|lats|, shift, ps, 0) && Walked(lats, shift, ps, all, data, i, j)
    requires i == |lats| || j == |ps|
    ensures data == PercentileValues(lats, shift, ps)
  {
    if j < |ps| {
      PicksAtEnd(|lats|, shift, ps[j..]);
      assert forall k :: j <= k < |ps| ==> all[k] == all[j..][k - j];
    }
  }

  /**
   * The walk itself: `i` scans the latencies, `j` the percentiles; the
   * j-th percentile takes the first latency whose percentage reaches it.
   */
  method Percentiles(lats: seq<int>, shift: nat, ps: seq<int>) returns (data: seq<int>)
    ensures data == PercentileValues(lats, shift, ps)
  {
    var n := |lats|;
    data := seq(|ps|, _ => 0);
    var i, j := 0, 0;
    ghost var all := Picks(n, shift, ps, 0);
    WalkStart(lats, shift, ps);
    while i < n && j < |ps|
      invariant Walked(lats, shift, ps, all, data, i, j)
      decreases n - i
    {
      var current := Pct(n, shift, i);
      if current >= ps[j] {
        WalkTake(lats, shift, ps, all, data, i, j);
        data := data[j := lats[i]];
        j := j + 1;
      } else {
        WalkSkip(lats, shift, ps, all, data, i, j);
      }
      i := i + 1;
    }
    WalkDone(lats, shift, ps, all, data, i, j);
  }

  /** On sorted latencies the values of the reached percentiles never decrease. */
  lemma PercentilesMonotone(lats: seq<int>, shift: nat, j: nat, k: nat)
    requires Sorted(lats) && j < k < |Pctls|
    requires Picks(|lats|, shift, Pctls, 0)[k] != -1 || PercentileValues(lats, shift, Pctls)[k] != 0
    ensures PercentileValues(lats, shift, Pctls)[j] <= PercentileValues(lats, shift, Pctls)[k]
  {
    PicksShape(|lats|, shift, Pctls, 0);
  }

  /** With 100 latencies the percentage of index `i` is just `i + shift`. */
  lemma {:induction false} FirstReachingHundred(n: nat, shift: nat, p: int, from: nat)
    requires n == 100 && from <= n && shift <= 1 && p - shift < n
    ensures FirstReaching(n, shift, p, from) == if from <= p - shift then p - shift else from
    decreases n - from
  {
    if from < n {
      assert Pct(n, shift, from) == from + shift;
      if from + shift < p {
        FirstReachingHundred(n, shift, p, from + 1);
      }
    }
  }

  /** The latencies 1, 2, ..., 100 (in any time unit). */
  function OneToHundred(): (s: seq<int>)
    ensures |s| == 100 && Sorted(s)
  {
    seq(100, i => i + 1)
  }

  /**
   * With 100 latencies, strictly increasing percentiles all reachable from
   * `from` are served by index `p - shift` each.
   */
  lemma {:induction false} PicksHundred(n: nat, shift: nat, ps: seq<int>, from: nat)
    requires n == 100 && from <= n && shift <= 1
    requires forall k :: 0 <= k < |ps| ==> from + shift <= ps[k] < n + shift
    requires forall a, b :: 0 <= a < b < |ps| ==> ps[a] < ps[b]
    ensures forall k :: 0 <= k < |ps| ==> Picks(n, shift, ps, from)[k] == ps[k] - shift
    decreases |ps|
  {
    if ps != [] {
      FirstReachingHundred(n, shift, ps[0], from);
      var rest := ps[1..];
      assert forall k :: 0 <= k < |rest| ==> rest[k] == ps[k + 1];
      PicksHundred(n, shift, rest, ps[0] - shift + 1);
      var r := Picks(n, shift, ps, from);
      assert r == [ps[0] - shift] + Picks(n, shift, rest, ps[0] - shift + 1);
      forall k | 0 < k < |ps| ensures r[k] == ps[k] - shift {
        assert r[k] == Picks(n, shift, rest, ps[0] - shift + 1)[k - 1];
      }
    }
  }

  /**
   * For the latencies 1..100 the walk with `i*100/len` (shift 0) reports
   * p+1 as the p-th percentile, and the walk with `(i+1)*100/len`
   * (shift 1) reports p.
   */
  lemma HundredPercentiles(lats: seq<int>, k: nat)
    requires lats == OneToHundred() && k < |Pctls|
    ensures PercentileValues(lats, 0, Pctls)[k] == Pctls[k] + 1
    ensures PercentileValues(lats, 1, Pctls)[k] == Pctls[k]
  {
    var n := |lats|;
    forall shift: nat | shift <= 1
      ensures PercentileValues(lats, shift, Pctls)[k] == Pctls[k] - shift + 1
    {
      PicksHundred(n, shift, Pctls, 0);
      var p := Picks(n, shift, Pctls, 0);
      assert p[k] == Pctls[k] - shift;
      assert lats[p[k]] == p[k] + 1;
    }
  }

  // ------------------------------------------------------------ histogram

  /** The number of histogram buckets before the last one. */
  const BucketCount := 10

  /** A tenth of `i` times the spread `d`. */
  function Step(d: nat, i: nat): nat
  {
    d * i / BucketCount
  }

  lemma StepMono(d: nat, i: nat, j: nat)
    requires i <= j <= BucketCount
    ensures Step(d, i) <= Step(d, j) <= d
  {
    assert d * i <= d * j <= d * BucketCount;
  }

  /**
   * The 11 bucket marks: `fastest + bs*i` for i < 10 with `bs` a tenth of
   * the spread (integer arithmetic here), and `slowest` as the last mark.
   */
  function Marks(fastest: int, slowest: int): (marks: seq<int>)
    requires fastest <= slowest
    ensures |marks| == BucketCount + 1 && marks[BucketCount] == slowest
    ensures Sorted(marks) && forall k :: 0 <= k < |marks| ==> fastest <= marks[k] <= slowest
  {
    var d := slowest - fastest;
    var marks := seq(BucketCount + 1, i requires 0 <= i <= BucketCount =>
      if i < BucketCount then fastest + Step(d, i) else slowest);
    forall i, j | 0 <= i <= j <= BucketCount ensures marks[i] <= marks[j] <= slowest {
      StepMono(d, i, j);
      StepMono(d, j, BucketCount);
    }
    marks
  }

  /** The first bucket whose mark is at least `x`, or |marks| when none is. */
  function BucketOf(x: int, marks: seq<int>): (k: nat)
    ensures k <= |marks| && (k < |marks| ==> x <= marks[k])
    ensures forall j :: 0 <= j < k ==> marks[j] < x
  {
    if marks == [] then 0
    else if x <= marks[0] then 0
    else 1 + BucketOf(x, marks[1..])
  }

  /** Every latency is at most the last mark. */
  predicate Covered(lats: seq<int>, marks: seq<int>) {
    marks != [] && forall i :: 0 <= i < |lats| ==> lats[i] <= marks[|marks| - 1]
  }

  /** Sorted latencies are covered by the marks that end at their maximum, the slowest. */
  lemma SortedCovered(lats: seq<int>)
    requires lats != [] && Sorted(lats)
    ensures Covered(lats, Marks(lats[0], lats[|lats| - 1]))
  {
    var last := |lats| - 1;
    forall i | 0 <= i < |lats| ensures lats[i] <= lats[last] {
      assert i == last || lats[i] <= lats[last];
    }
  }

  /** The bucket of each latency, in order. */
  function Buckets(lats: seq<int>, marks: seq<int>): (bs: seq<int>)
    ensures |bs| == |lats|
    ensures forall i :: 0 <= i < |bs| ==> 0 <= bs[i]
    ensures Covered(lats, marks) ==> forall i :: 0 <= i < |bs| ==> bs[i] < |marks|
  {
    seq(|lats|, i requires 0 <= i < |lats| => BucketOf(lats[i], marks))
  }

  /**
   * The state of the histogram scan after `i` latencies with the bucket
   * index at `bi`: the marks before `bi` lie below the next latency,
   * `counts` tallies the buckets of the latencies counted so far (`seen`),
   * and `max` is the largest count, held by bucket `top` unless it is 0.
   */
  ghost predicate Scanned(lats: seq<int>, marks: seq<int>, counts: seq<int>, max: int, top: nat, seen: seq<int>, i: nat, bi: nat) {
    && i <= |lats| && bi < |marks| && |counts| == |marks|
    && (i < |lats| ==> forall k :: 0 <= k < bi ==> marks[k] < lats[i])
    && seen == Buckets(lats[..i], marks)
    && Tallies(counts, seen)
    && Bounded(counts, max, top)
  }

  /** `max` bounds every count and is the count of bucket `top`, unless it is 0. */
  ghost predicate Bounded(counts: seq<int>, max: int, top: nat) {
    && top < |counts|
    && (forall k :: 0 <= k < |counts| ==> 0 <= counts[k] <= max)
    && (max == 0 || counts[top] == max)
  }

  /** Counting one more in bucket `b` keeps `max` the largest count once it is raised to a count passing it. */
  lemma BoundedBump(counts: seq<int>, max: int, top: nat, b: nat)
    requires Bounded(counts, max, top) && b < |counts|
    ensures var c := counts[b] + 1; max < c ==> Bounded(counts[b := c], c, b)
    ensures var c := counts[b] + 1; max >= c ==> Bounded(counts[b := c], max, top)
  {
  }

  /** The scan starts with nothing counted. */
  lemma ScanStart(lats: seq<int>, marks: seq<int>, counts: seq<int>)
    requires marks != [] && |counts| == |marks| && forall k :: 0 <= k < |counts| ==> counts[k] == 0
    ensures Scanned(lats, marks, counts, 0, 0, [], 0, 0)
  {
    assert lats[..0] == [];
  }

  /** Latency `i` fits under the mark at `bi`: it is counted there and the largest count kept. */
  lemma ScanCount(lats: seq<int>, marks: seq<int>, counts: seq<int>, max: int, top: nat, seen: seq<int>, i: nat, bi: nat)
    requires Sorted(lats) && Scanned(lats, marks, counts, max, top, seen, i, bi)
    requires i < |lats| && lats[i] <= marks[bi]
    ensures var c := counts[bi] + 1;
      max < c ==> Scanned(lats, marks, counts[bi := c], c, bi, seen + [bi], i + 1, bi)
    ensures var c := counts[bi] + 1;
      max >= c ==> Scanned(lats, marks, counts[bi := c], max, top, seen + [bi], i + 1, bi)
  {
    CountStep(lats, marks, i, bi);
    TalliesBump(counts, seen, bi);
    BoundedBump(counts, max, top, bi);
  }

  /** Latency `i` lies above the mark at `bi`: the scan moves to the next bucket. */
  lemma ScanMove(lats: seq<int>, marks: seq<int>, counts: seq<int>, max: int, top: nat, seen: seq<int>, i: nat, bi: nat)
    requires Scanned(lats, marks, counts, max, top, seen, i, bi)
    requires i < |lats| && lats[i] > marks[bi] && bi < |marks| - 1
    ensures Scanned(lats, marks, counts, max, top, seen, i, bi + 1)
  {
  }

  /** While latencies remain, the next one fits under the current mark or a next mark exists. */
  lemma ScanGoesOn(lats: seq<int>, marks: seq<int>, counts: seq<int>, max: int, top: nat, seen: seq<int>, i: nat, bi: nat)
    requires Covered(lats, marks) && Scanned(lats, marks, counts, max, top, seen, i, bi) && i < |lats|
    ensures lats[i] <= marks[bi] || bi < |marks| - 1
  {
  }

  /**
   * The histogram scan: `bi` only moves forward, and each latency is counted
   * in the bucket under `bi` once the mark there reaches it. For sorted
   * latencies each one lands in the first bucket whose mark is at least it;
   * `max` is the largest count.
   */
  method CountBuckets(lats: seq<int>, marks: seq<int>) returns (counts: seq<int>, max: int)
    requires Sorted(lats) && Covered(lats, marks)
    ensures |counts| == |marks|
    ensures forall k :: 0 <= k < |marks| ==> counts[k] == Occ(Buckets(lats, marks), k)
    ensures forall k :: 0 <= k < |marks| ==> 0 <= counts[k] <= max
    ensures max == 0 || exists k :: 0 <= k < |marks| && counts[k] == max
  {
    var n, m := |lats|, |marks|;
    counts := seq(m, _ => 0);
    max := 0;
    ghost var top := 0;
    ghost var seen: seq<int> := [];
    var i, bi := 0, 0;
    ScanStart(lats, marks, counts);
    while i < n
      invariant Scanned(lats, marks, counts, max, top, seen, i, bi)
      decreases n - i, m - bi
    {
      ghost var i0, bi0 := i, bi;
      counts, max, top, seen, i, bi := ScanOne(lats, marks, counts, max, top, seen, i, bi);
      assert i > i0 || (i == i0 && bi > bi0);
    }
    ScanEnd(lats, marks, counts, max, top, seen, bi);
  }

  /** One turn of the histogram scan: count latency `i` in bucket `bi`, or move to the next bucket. */
  method ScanOne(lats: seq<int>, marks: seq<int>, counts0: seq<int>, max0: int, ghost top0: nat, ghost seen0: seq<int>, i0: nat, bi0: nat)
    returns (counts: seq<int>, max: int, ghost top: nat, ghost seen: seq<int>, i: nat, bi: nat)
    requires Sorted(lats) && Covered(lats, marks)
    requires Scanned(lats, marks, counts0, max0, top0, seen0, i0, bi0) && i0 < |lats|
    ensures Scanned(lats, marks, counts, max, top, seen, i, bi)
    ensures i > i0 || (i == i0 && bi > bi0)
  {
    counts, max, top, seen, i, bi := counts0, max0, top0, seen0, i0, bi0;
    ScanGoesOn(lats, marks, counts, max, top, seen, i, bi);
    if lats[i] <= marks[bi] {
      ScanCount(lats, marks, counts, max, top, seen, i, bi);
      seen := seen + [bi];
      var c := counts[bi] + 1;
      counts := counts[bi := c];
      if max < c {
        max := c;
        top := bi;
      }
      i := i + 1;
    } else if bi < |marks| - 1 {
      ScanMove(lats, marks, counts, max, top, seen, i, bi);
      bi := bi + 1;
    }
  }

  /** At the end of the scan every latency is tallied in its bucket and `max` is the largest count. */
  lemma ScanEnd(lats: seq<int>, marks: seq<int>, counts: seq<int>, max: int, top: nat, seen: seq<int>, bi: nat)
    requires Scanned(lats, marks, counts, max, top, seen, |lats|, bi)
    ensures |counts| == |marks|
    ensures forall k :: 0 <= k < |marks| ==> counts[k] == Occ(Buckets(lats, marks), k)
    ensures forall k :: 0 <= k < |marks| ==> 0 <= counts[k] <= max
    ensures max == 0 || exists k :: 0 <= k < |marks| && counts[k] == max
  {
    assert lats[..|lats|] == lats;
  }

  /** `counts[k]` is the number of entries `k` of `seen`, for every bucket. */
  ghost predicate Tallies(counts: seq<int>, seen: seq<int>) {
    forall k :: 0 <= k < |counts| ==> counts[k] == Occ(seen, k)
  }

  lemma TalliesBump(counts: seq<int>, seen: seq<int>, b: nat)
    requires Tallies(counts, seen) && b < |counts|
    ensures Tallies(counts[b := counts[b] + 1], seen + [b])
  {
    forall k | 0 <= k < |counts| ensures counts[b := counts[b] + 1][k] == Occ(seen + [b], k) {
      OccAppend(seen, [b], k);
    }
  }

  /** Counting latency `i` in bucket `bi` extends the buckets of the prefix. */
  lemma CountStep(lats: seq<int>, marks: seq<int>, i: nat, bi: nat)
    requires Sorted(lats) && i < |lats| && bi < |marks|
    requires lats[i] <= marks[bi] && forall k :: 0 <= k < bi ==> marks[k] < lats[i]
    ensures Buckets(lats[..i + 1], marks) == Buckets(lats[..i], marks) + [bi]
    ensures i + 1 < |lats| ==> forall k :: 0 <= k < bi ==> marks[k] < lats[i + 1]
  {
    assert BucketOf(lats[i], marks) == bi;
    if i + 1 < |lats| {
      assert lats[i] <= lats[i + 1];
    }
  }

  /** Sum over buckets 0..m-1 of the number of entries of `bs` in that bucket. */
  function SumCounts(bs: seq<int>, m: nat): nat
  {
    if m == 0 then 0 else SumCounts(bs, m - 1) + Occ(bs, m - 1)
  }

  lemma {:induction false} SumCountsAppend(p: seq<int>, x: int, m: nat)
    ensures SumCounts(p + [x], m) == SumCounts(p, m) + (if 0 <= x < m then 1 else 0)
  {
    if m > 0 {
      SumCountsAppend(p, x, m - 1);
      OccAppend(p, [x], m - 1);
    }
  }

  /** Counts taken over all buckets add up to the number of entries. */
  lemma {:induction false} CountsSum(bs: seq<int>, m: nat)
    requires forall i :: 0 <= i < |bs| ==> 0 <= bs[i] < m
    ensures SumCounts(bs, m) == |bs|
  {
    if bs != [] {
      var p, x := bs[..|bs| - 1], bs[|bs| - 1];
      assert bs == p + [x];
      assert forall i :: 0 <= i < |p| ==> p[i] == bs[i];
      CountsSum(p, m);
      SumCountsAppend(p, x, m);
    } else {
      SumCountsEmpty(m);
    }
  }

  lemma {:induction false} SumCountsEmpty(m: nat)
    ensures SumCounts([], m) == 0
  {
    if m > 0 { SumCountsEmpty(m - 1); }
  }

  /** The histogram of covered latencies accounts for every latency once. */
  lemma HistogramTotal(lats: seq<int>, marks: seq<int>)
    requires Covered(lats, marks)
    ensures SumCounts(Buckets(lats, marks), |marks|) == |lats|
  {
    CountsSum(Buckets(lats, marks), |marks|);
  }

  // ------------------------------------------------------------ arithmetic

  /** Multiplying by a positive factor keeps the order. */
  lemma MulLe(x: int, y: int, m: int)
    requires m > 0
    ensures x <= y ==> x * m <= y * m
  {
  }

  /** `a / m` is `k` exactly when `a` lies in [k*m, (k+1)*m). */
  lemma DivWithin(a: int, m: int, k: int)
    requires m > 0 && k * m <= a < (k + 1) * m
    ensures a / m == k
  {
    var q := a / m;
    assert q * m <= a < q * m + m;
    MulLe(k + 1, q, m);
    MulLe(q + 1, k, m);
  }
}
