/**
 * The two tables of requester/report.go's snapshot: the histogram of the
 * sorted latencies (report.histogram) and the percentile distribution
 * (report.latencies), with the functions that specify them.
 */
module ReportTables {
  import opened Sorting
  import opened Tally
  import opened Stats

  datatype LatencyDistribution = LatencyDistribution(percentage: int, latency: int)

  datatype Bucket = Bucket(mark: int, count: int)

  /**
   * report.histogram: 11 buckets whose marks spread from `fastest` to
   * `slowest`, each counting the sorted latencies of its range.
   */
  method Histogram(lats: seq<int>, fastest: int, slowest: int) returns (res: seq<Bucket>)
    requires Sorted(lats) && lats != [] && fastest == lats[0] && slowest == lats[|lats| - 1]
    ensures res == HistogramSpec(lats)
  {
    var marks := Marks(fastest, slowest);
    SortedCovered(lats);
    var counts, _ := CountBuckets(lats, marks);
    res := [];
    var i := 0;
    while i < |marks|
      invariant 0 <= i <= |marks| && |res| == i
      invariant forall k :: 0 <= k < i ==> res[k] == Bucket(marks[k], counts[k])
    {
      res := res + [Bucket(marks[i], counts[i])];
      i := i + 1;
    }
  }

  /**
   * report.latencies: one entry per percentile, zero-valued where the
   * walk stored no positive latency.
   */
  method Latencies(lats: seq<int>) returns (res: seq<LatencyDistribution>)
    ensures res == LatencySpec(lats)
  {
    var data := Percentiles(lats, 0, Pctls);
    res := [];
    var i := 0;
    while i < |Pctls|
      invariant 0 <= i <= |Pctls| && |res| == i
      invariant forall k :: 0 <= k < i ==>
        res[k] == if data[k] > 0 then LatencyDistribution(Pctls[k], data[k]) else LatencyDistribution(0, 0)
    {
      res := res + [if data[i] > 0 then LatencyDistribution(Pctls[i], data[i]) else LatencyDistribution(0, 0)];
      i := i + 1;
    }
  }

  /** The histogram of sorted latencies: one bucket per mark, counting the latencies of its range. */
  function HistogramSpec(lats: seq<int>): seq<Bucket>
    requires lats != [] && Sorted(lats)
  {
    var marks := Marks(lats[0], lats[|lats| - 1]);
    seq(|marks|, k requires 0 <= k < |marks| => Bucket(marks[k], Occ(Buckets(lats, marks), k)))
  }

  /** The latency distribution: the positive percentile values, zero-valued entries elsewhere. */
  function LatencySpec(lats: seq<int>): seq<LatencyDistribution>
  {
    var data := PercentileValues(lats, 0, Pctls);
    seq(|Pctls|, i requires 0 <= i < |Pctls| =>
      if data[i] > 0 then LatencyDistribution(Pctls[i], data[i]) else LatencyDistribution(0, 0))
  }

  /** The total count of a histogram. */
  function SumBuckets(h: seq<Bucket>): int {
    if h == [] then 0 else SumBuckets(h[..|h| - 1]) + h[|h| - 1].count
  }

  /** The histogram of sorted latencies: 11 buckets, the last at the maximum, adding up to |lats|. */
  lemma HistogramAddsUp(lats: seq<int>)
    requires lats != [] && Sorted(lats)
    ensures var h := HistogramSpec(lats);
      |h| == BucketCount + 1 && h[BucketCount].mark == lats[|lats| - 1] && SumBuckets(h) == |lats|
  {
    var marks := Marks(lats[0], lats[|lats| - 1]);
    SortedCovered(lats);
    HistogramTotal(lats, marks);
    BucketsAddUp(HistogramSpec(lats), Buckets(lats, marks));
  }

  /** A histogram whose k-th count is the number of k's in `bs` adds up to SumCounts. */
  lemma {:induction false} BucketsAddUp(h: seq<Bucket>, bs: seq<int>)
    requires forall k :: 0 <= k < |h| ==> h[k].count == Occ(bs, k)
    ensures SumBuckets(h) == SumCounts(bs, |h|)
  {
    if h != [] {
      BucketsAddUp(h[..|h| - 1], bs);
    }
  }

}
