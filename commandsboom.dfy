/**
 * The printer state of commands/print.go: the package-level `latencies`
 * slice and `statusCodeDist` map that Boom.Print fills while draining the
 * results, then sorts and prints. They are the fields of a `Boom` object
 * here; the results channel is the sequence of results still buffered in it.
 */
module CommandsBoom {
  import opened Sorting
  import opened Tally
  import opened Stats
  import opened Commands

  class Boom {
    /** `b.N`, the number of requests asked for. */
    const n: int
    var latencies: seq<int>
    var statusCodeDist: map<int, int>

    constructor (n: int)
      ensures this.n == n && latencies == [] && statusCodeDist == map[]
    {
      this.n := n;
      latencies, statusCodeDist := [], map[];
    }

    /**
     * The drain loop of Print: every result appends its duration to
     * `latencies` and bumps its status code, and the loop sums the
     * durations and tracks the fastest and the slowest.
     */
    method Drain(results: seq<BoomResult>) returns (avgTotal: int, fastest: int, slowest: int)
      modifies this`latencies, this`statusCodeDist
      ensures latencies == old(latencies) + Durations(results)
      ensures statusCodeDist == BumpAll(old(statusCodeDist), Codes(results))
      ensures avgTotal == Sum(Durations(results))
      ensures fastest == Fastest(Durations(results)) && slowest == Slowest(Durations(results))
    {
      ghost var ds, cs := Durations(results), Codes(results);
      avgTotal, fastest, slowest := 0, 0, 0;
      var i := 0;
      while i < |results|
        invariant 0 <= i <= |results|
        invariant latencies == old(latencies) + ds[..i]
        invariant statusCodeDist == BumpAll(old(statusCodeDist), cs[..i])
        invariant avgTotal == Sum(ds[..i]) && fastest == Fastest(ds[..i]) && slowest == Slowest(ds[..i])
      {
        assert ds[..i + 1][..i] == ds[..i] && cs[..i + 1][..i] == cs[..i];
        var r := results[i];
        latencies := latencies + [r.duration];
        statusCodeDist := Bump(statusCodeDist, r.statusCode);
        avgTotal := avgTotal + r.duration;
        if fastest == 0 || r.duration < fastest {
          fastest := r.duration;
        }
        if r.duration > slowest {
          slowest := r.duration;
        }
        i := i + 1;
      }
      assert ds[..i] == ds && cs[..i] == cs;
    }

    /**
     * Boom.Print: drain the buffered results, sort `latencies` in place,
     * then the summary, the histogram, the percentile lines and the status
     * codes. The histogram reads the first latency, so there must be one.
     */
    method Print(results: seq<BoomResult>, total: int, num: int -> string) returns (s: Summary)
      requires |latencies| + |results| > 0
      modifies this`latencies, this`statusCodeDist
      ensures latencies == Sort(old(latencies) + Durations(results))
      ensures statusCodeDist == BumpAll(old(statusCodeDist), Codes(results))
      ensures var ds := Durations(results); var rps := Rps(n, total);
        s == Summary(total, Slowest(ds), Fastest(ds), Average(ds, n), rps, SpeedIndex(rps),
          HistogramOf(latencies, num), Positive(Pctls, PercentileValues(latencies, 1, Pctls)),
          statusCodeDist)
    {
      var avgTotal, fastest, slowest := Drain(results);
      var rps := Rps(n, total);
      var average := Divide(avgTotal, n);
      var speed := SpeedIndex(rps);
      latencies := Sort(latencies);
      var hist := PrintHistogram(latencies, num);
      var shown := PrintLatencies(latencies);
      s := Summary(total, slowest, fastest, average, rps, speed, hist, shown, statusCodeDist);
    }
  }
}
