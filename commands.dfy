/**
 * The summary printer of commands/print.go, on values: the fastest and
 * slowest tracking of the drain loop, the printed average and rate, the
 * speed index, the percentile lines (the `(i+1)*100/len` walk) and the
 * histogram with `#` bars truncated to `count*40/max`. Durations are
 * integer nanoseconds; float formatting is a parameter `num`.
 */
module Commands {
  import opened Text
  import opened Sorting
  import opened Tally
  import opened Stats

  /** One drained result: its status code and its duration. */
  datatype BoomResult = BoomResult(statusCode: int, duration: int)

  function Durations(rs: seq<BoomResult>): (ds: seq<int>)
    ensures |ds| == |rs| && forall i :: 0 <= i < |rs| ==> ds[i] == rs[i].duration
  {
    seq(|rs|, i requires 0 <= i < |rs| => rs[i].duration)
  }

  function Codes(rs: seq<BoomResult>): (cs: seq<int>)
    ensures |cs| == |rs| && forall i :: 0 <= i < |rs| ==> cs[i] == rs[i].statusCode
  {
    seq(|rs|, i requires 0 <= i < |rs| => rs[i].statusCode)
  }

  function Sum(ds: seq<int>): int {
    if ds == [] then 0 else Sum(ds[..|ds| - 1]) + ds[|ds| - 1]
  }

  /**
   * What Print writes: the elapsed time, slowest, fastest, average, rate,
   * speed index, the histogram text, the percentile lines and the status
   * code counts (one line per entry, in Go's map order).
   */
  datatype Summary = Summary(
    total: int, slowest: int, fastest: int, average: Quotient, rps: Quotient, speed: string,
    histogram: string, latencies: seq<Shown>, statusCodes: map<int, int>)

  // ---------------------------------------------------- fastest and slowest

  /**
   * The drain loop's `fastest`: it starts unset (0), takes the first
   * duration, then any strictly smaller one; a zero counts as unset again.
   */
  function Fastest(ds: seq<int>): int {
    if ds == [] then 0
    else
      var f := Fastest(ds[..|ds| - 1]);
      var d := ds[|ds| - 1];
      if f == 0 || d < f then d else f
  }

  /** The drain loop's `slowest`: it starts at 0 and takes any strictly larger duration. */
  function Slowest(ds: seq<int>): int {
    if ds == [] then 0
    else
      var s := Slowest(ds[..|ds| - 1]);
      var d := ds[|ds| - 1];
      if d > s then d else s
  }

  /** Over positive durations, `fastest` is the minimum. */
  lemma {:induction false} FastestIsMin(ds: seq<int>)
    requires ds != [] && forall i :: 0 <= i < |ds| ==> ds[i] > 0
    ensures IsMin(ds, Fastest(ds))
  {
    var p := ds[..|ds| - 1];
    assert ds == p + [ds[|ds| - 1]];
    if p != [] {
      FastestIsMin(p);
    }
  }

  /** `slowest` is the maximum of the durations and 0. */
  lemma {:induction false} SlowestIsMax(ds: seq<int>)
    ensures Slowest(ds) >= 0
    ensures forall i :: 0 <= i < |ds| ==> ds[i] <= Slowest(ds)
    ensures Slowest(ds) == 0 || Slowest(ds) in ds
  {
    if ds != [] {
      var p := ds[..|ds| - 1];
      assert ds == p + [ds[|ds| - 1]];
      SlowestIsMax(p);
    }
  }

  /** As written, a zero duration resets `fastest`: the next duration is taken whatever it is. */
  lemma FastestAfterZero(ds: seq<int>, d: int)
    requires Fastest(ds) == 0
    ensures Fastest(ds + [d]) == d
  {
    assert (ds + [d])[..|ds|] == ds;
  }

  // ------------------------------------------------------- average and rate

  /** A float64 quotient of two exact values: a real number, an infinity or NaN. */
  datatype Quotient = Finite(value: real) | PosInf | NegInf | NaN

  /** IEEE division of `a` by `b` (rounding aside): a zero divisor gives an infinity or NaN. */
  function Divide(a: int, b: int): (q: Quotient)
    ensures b != 0 <==> q.Finite?
    ensures b != 0 ==> q.value * (b as real) == a as real
    ensures b == 0 ==> (q == NaN <==> a == 0) && (q == PosInf <==> a > 0)
  {
    if b != 0 then Finite(a as real / b as real)
    else if a > 0 then PosInf
    else if a < 0 then NegInf
    else NaN
  }

  /** The printed average: the summed durations over `b.N`, not over the number drained. */
  function Average(ds: seq<int>, n: int): Quotient {
    Divide(Sum(ds), n)
  }

  /** The average times `b.N` is the summed durations: the mean only when `b.N` results were drained. */
  lemma AverageIsMean(ds: seq<int>, n: int)
    requires n != 0
    ensures Average(ds, n).Finite?
    ensures Average(ds, n).value * (n as real) == Sum(ds) as real
  {
  }

  /** Nanoseconds per second: `total.Seconds()` is the duration in nanoseconds over this. */
  const NanosPerSecond: int := 1_000_000_000

  /**
   * requests/second: `float64(b.N) / total.Seconds()`. With the elapsed time
   * in nanoseconds that is `b.N * 10^9` over it: the rate times the time in
   * seconds is `b.N`, and no time left at all gives an infinity or NaN.
   */
  function Rps(n: int, total: int): (q: Quotient)
    ensures total != 0 <==> q.Finite?
    ensures total != 0 ==> q.value * (total as real) == (n * NanosPerSecond) as real
    ensures total == 0 ==> (q == NaN <==> n == 0) && (q == PosInf <==> n > 0)
  {
    Divide(n * NanosPerSecond, total)
  }

  /** speedIndex: four bands of requests per second; NaN compares false everywhere. */
  function SpeedIndex(rps: Quotient): string {
    match rps
    case PosInf => "Whoa, pretty neat"
    case NegInf => "Hahahaha"
    case NaN => "Hahahaha"
    case Finite(r) =>
      if r > 500.0 then "Whoa, pretty neat"
      else if r > 100.0 then "Pretty good"
      else if r > 50.0 then "Meh"
      else "Hahahaha"
  }

  /** The rank of a band, from "Hahahaha" (0) to "Whoa, pretty neat" (3). */
  function Band(s: string): int {
    if s == "Whoa, pretty neat" then 3
    else if s == "Pretty good" then 2
    else if s == "Meh" then 1
    else 0
  }

  /** The bands are the four rps ranges, and a faster rate never gets a lower band. */
  lemma SpeedIndexBands(r: real, t: real)
    ensures Band(SpeedIndex(Finite(r))) == 3 <==> r > 500.0
    ensures Band(SpeedIndex(Finite(r))) == 2 <==> 100.0 < r <= 500.0
    ensures Band(SpeedIndex(Finite(r))) == 1 <==> 50.0 < r <= 100.0
    ensures Band(SpeedIndex(Finite(r))) == 0 <==> r <= 50.0
    ensures r <= t ==> Band(SpeedIndex(Finite(r))) <= Band(SpeedIndex(Finite(t)))
  {
  }

  /**
   * The speed index of a run of `n` requests in `total` nanoseconds, in
   * integer terms: the band is decided by comparing `n * 10^9` with 500,
   * 100 and 50 times the elapsed nanoseconds.
   */
  lemma RpsBands(n: int, total: int)
    requires total > 0
    ensures Band(SpeedIndex(Rps(n, total))) == 3 <==> n * NanosPerSecond > 500 * total
    ensures Band(SpeedIndex(Rps(n, total))) == 2 <==> 100 * total < n * NanosPerSecond <= 500 * total
    ensures Band(SpeedIndex(Rps(n, total))) == 1 <==> 50 * total < n * NanosPerSecond <= 100 * total
    ensures Band(SpeedIndex(Rps(n, total))) == 0 <==> n * NanosPerSecond <= 50 * total
  {
    var r := Rps(n, total).value;
    assert Rps(n, total) == Finite(r);
    SpeedIndexBands(r, r);
    ScaleCompare(r, n * NanosPerSecond, total, 500);
    ScaleCompare(r, n * NanosPerSecond, total, 100);
    ScaleCompare(r, n * NanosPerSecond, total, 50);
  }

  /** A rate `r` with `r * total == m` exceeds a constant `c` exactly when `m` exceeds `c * total`. */
  lemma ScaleCompare(r: real, m: int, total: int, c: int)
    requires total > 0 && r * (total as real) == m as real
    ensures r > c as real <==> m > c * total
  {
    var t := total as real;
    assert (c * total) as real == (c as real) * t;
    if r > c as real {
      assert r * t - (c as real) * t == (r - c as real) * t;
      assert (r - c as real) * t > 0.0;
    } else {
      assert (c as real) * t - r * t == (c as real - r) * t;
      assert (c as real - r) * t >= 0.0;
    }
  }

  /** A thousand requests in one second: a rate of 1000, "Whoa, pretty neat"; a thousand in a hundred seconds: 10, "Hahahaha". */
  lemma RpsSample()
    ensures Rps(1000, NanosPerSecond) == Finite(1000.0)
    ensures SpeedIndex(Rps(1000, NanosPerSecond)) == "Whoa, pretty neat"
    ensures SpeedIndex(Rps(1000, 100 * NanosPerSecond)) == "Hahahaha"
  {
  }

  // ---------------------------------------------------- latency percentiles

  /** A printed percentile line: the percentage and its latency. */
  datatype Shown = Shown(pctl: int, latency: int)

  /** The lines printed for `data`: only the entries with a positive value, in order. */
  function Positive(ps: seq<int>, data: seq<int>): seq<Shown>
    requires |ps| == |data|
  {
    if ps == [] then []
    else
      var rest := Positive(ps[..|ps| - 1], data[..|data| - 1]);
      if data[|data| - 1] > 0 then rest + [Shown(ps[|ps| - 1], data[|data| - 1])] else rest
  }

  /** A line is printed exactly for each percentile whose value is positive. */
  lemma {:induction false} PositiveExactly(ps: seq<int>, data: seq<int>, x: Shown)
    requires |ps| == |data|
    ensures x in Positive(ps, data) <==>
      exists i :: 0 <= i < |ps| && data[i] > 0 && x == Shown(ps[i], data[i])
  {
    if ps != [] {
      var n := |ps| - 1;
      PositiveExactly(ps[..n], data[..n], x);
      if exists i :: 0 <= i < |ps| && data[i] > 0 && x == Shown(ps[i], data[i]) {
        var i :| 0 <= i < |ps| && data[i] > 0 && x == Shown(ps[i], data[i]);
        if i < n {
          assert ps[..n][i] == ps[i] && data[..n][i] == data[i];
        }
      }
    }
  }

  /** printLatencies: the `(i+1)*100/len` walk, then one line per positive value. */
  method PrintLatencies(lats: seq<int>) returns (shown: seq<Shown>)
    ensures shown == Positive(Pctls, PercentileValues(lats, 1, Pctls))
  {
    var data := Percentiles(lats, 1, Pctls);
    shown := [];
    var i := 0;
    while i < |Pctls|
      invariant 0 <= i <= |Pctls| && shown == Positive(Pctls[..i], data[..i])
    {
      assert Pctls[..i + 1][..i] == Pctls[..i] && data[..i + 1][..i] == data[..i];
      if data[i] > 0 {
        shown := shown + [Shown(Pctls[i], data[i])];
      }
      i := i + 1;
    }
    assert Pctls[..i] == Pctls && data[..i] == data;
  }

  // ------------------------------------------------------------- histogram

  /** The bar length: `count*40/max` truncated, 0 when `max` is 0. */
  function BarLen(count: int, max: int): nat
    requires count >= 0
  {
    if max > 0 then count * 40 / max else 0
  }

  /** The bar: `#` repeated, empty for a zero length. */
  function Bar(count: int, max: int): (bar: string)
    requires count >= 0
    ensures |bar| == BarLen(count, max) && forall i :: 0 <= i < |bar| ==> bar[i] == '#'
  {
    var n := BarLen(count, max);
    if n > 0 then Repeat('#', n) else ""
  }

  /** Bars are at most 40 long, the largest count's bar is exactly 40, and a zero count has no bar. */
  lemma BarLenBounds(count: int, max: int)
    requires 0 <= count <= max
    ensures BarLen(count, max) <= 40
    ensures max > 0 && count == max ==> BarLen(count, max) == 40
    ensures count == 0 ==> BarLen(count, max) == 0
    ensures max > 0 ==> BarLen(count, max) * max <= count * 40 < (BarLen(count, max) + 1) * max
  {
    if max > 0 {
      var q := count * 40 / max;
      assert q * max <= count * 40;
      MulLe(count, max, 40);
      MulLe(41, q, max);
      if count == max {
        DivWithin(count * 40, max, 40);
      }
    }
  }

  /** The bucket counts of sorted latencies: marks from the fastest to the slowest. */
  function HistCounts(lats: seq<int>): (counts: seq<int>)
    requires lats != [] && Sorted(lats)
    ensures |counts| == BucketCount + 1
    ensures forall k :: 0 <= k < |counts| ==> counts[k] >= 0
  {
    var marks := Marks(lats[0], lats[|lats| - 1]);
    seq(|marks|, k requires 0 <= k < |marks| => Occ(Buckets(lats, marks), k))
  }

  /** The largest of the counts, 0 for none. */
  function MaxOf(counts: seq<int>): (m: int)
    ensures m >= 0 && forall k :: 0 <= k < |counts| ==> counts[k] <= m
    ensures m == 0 || exists k :: 0 <= k < |counts| && counts[k] == m
  {
    if counts == [] then 0
    else
      var m := MaxOf(counts[..|counts| - 1]);
      if counts[|counts| - 1] > m then counts[|counts| - 1] else m
  }

  /** Line `k` of the histogram: mark, count in brackets, then the bar. */
  function HistLine(mark: int, count: int, max: int, num: int -> string): string
    requires count >= 0
  {
    "  " + num(mark) + " [" + Itoa(count) + "]\t|" + Bar(count, max) + "\n"
  }

  /** The first `n` lines of the histogram. */
  function HistLines(marks: seq<int>, counts: seq<int>, max: int, n: nat, num: int -> string): string
    requires n <= |marks| == |counts| && forall k :: 0 <= k < |counts| ==> counts[k] >= 0
  {
    if n == 0 then [] else HistLines(marks, counts, max, n - 1, num) + HistLine(marks[n - 1], counts[n - 1], max, num)
  }

  /** The histogram of sorted latencies as printHistogram writes it. */
  function HistogramOf(lats: seq<int>, num: int -> string): string
    requires lats != [] && Sorted(lats)
  {
    var marks := Marks(lats[0], lats[|lats| - 1]);
    var counts := HistCounts(lats);
    HistLines(marks, counts, MaxOf(counts), |marks|, num)
  }

  /**
   * printHistogram: the marks, the scan that counts each latency into its
   * bucket and tracks the largest count, then one line per bucket.
   */
  method PrintHistogram(lats: seq<int>, num: int -> string) returns (out: string)
    requires lats != [] && Sorted(lats)
    ensures out == HistogramOf(lats, num)
  {
    var fastest, slowest := lats[0], lats[|lats| - 1];
    var marks := Marks(fastest, slowest);
    SortedCovered(lats);
    var counts, max := CountBuckets(lats, marks);
    assert counts == HistCounts(lats);
    assert max == MaxOf(counts) by {
      MaxOfUnique(counts, max);
    }
    out := [];
    var i := 0;
    while i < |marks|
      invariant 0 <= i <= |marks| && out == HistLines(marks, counts, max, i, num)
    {
      out := out + HistLine(marks[i], counts[i], max, num);
      i := i + 1;
    }
  }

  /** A bound reached by one of the counts is their largest. */
  lemma MaxOfUnique(counts: seq<int>, max: int)
    requires forall k :: 0 <= k < |counts| ==> 0 <= counts[k] <= max
    requires max == 0 || exists k :: 0 <= k < |counts| && counts[k] == max
    ensures max == MaxOf(counts)
  {
  }

  /** The commands histogram counts every latency once; its last mark is the slowest. */
  lemma HistogramAddsUp(lats: seq<int>)
    requires lats != [] && Sorted(lats)
    ensures SumCounts(Buckets(lats, Marks(lats[0], lats[|lats| - 1])), BucketCount + 1) == |lats|
    ensures Marks(lats[0], lats[|lats| - 1])[BucketCount] == lats[|lats| - 1]
    ensures forall k :: 0 <= k < BucketCount + 1 ==>
      HistCounts(lats)[k] == Occ(Buckets(lats, Marks(lats[0], lats[|lats| - 1])), k)
  {
    SortedCovered(lats);
    HistogramTotal(lats, Marks(lats[0], lats[|lats| - 1]));
  }

  /** Every bar of the histogram is at most 40 long and the largest bucket's is exactly 40. */
  lemma HistogramBars(lats: seq<int>)
    requires lats != [] && Sorted(lats)
    ensures var c := HistCounts(lats);
      && (forall k :: 0 <= k < |c| ==> |Bar(c[k], MaxOf(c))| <= 40)
      && (forall k :: 0 <= k < |c| && c[k] == MaxOf(c) > 0 ==> |Bar(c[k], MaxOf(c))| == 40)
      && (forall k :: 0 <= k < |c| && c[k] == 0 ==> Bar(c[k], MaxOf(c)) == "")
  {
    var c := HistCounts(lats);
    forall k | 0 <= k < |c| {
      BarLenBounds(c[k], MaxOf(c));
    }
  }
}
