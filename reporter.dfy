/**
 * The reporter object of requester/report.go: runReporter's loop and
 * snapshot, updating the report's fields in place. Their specification is
 * ReportModel's fold and snapshot functions.
 */
module RequesterReport {
  import opened Wrappers
  import opened Sorting
  import opened Tally
  import opened ReportModel

  /**
   * The report of requester/report.go, updated in place by runReporter and
   * snapshot. The eight per-result slices live together in `stored`.
   */
  class Reporter {
    var numRes: int
    var errorDist: map<string, int>
    var avgTotal: int
    var avgConn: int
    var avgDelay: int
    var avgDNS: int
    var avgReq: int
    var avgRes: int
    var stored: Stored
    var sizeTotal: int
    var fastest: int
    var slowest: int

    function State(): Aggregate
      reads this
    {
      Aggregate(numRes, errorDist, Sums(avgTotal, avgConn, avgDelay, avgDNS, avgReq, avgRes),
        stored, sizeTotal)
    }

    predicate Valid()
      reads this
    {
      Parallel(stored) && sizeTotal >= 0
    }

    /** newReport: everything empty and zero. */
    constructor ()
      ensures Valid() && State() == Aggregate(0, map[], Sums(0, 0, 0, 0, 0, 0),
        Stored([], [], [], [], [], [], [], []), 0)
    {
      numRes, errorDist, sizeTotal := 0, map[], 0;
      avgTotal, avgConn, avgDelay, avgDNS, avgReq, avgRes := 0, 0, 0, 0, 0, 0;
      stored := Stored([], [], [], [], [], [], [], []);
      fastest, slowest := 0, 0;
    }

    /** One iteration of runReporter's loop. */
    method Consume(res: RequestResult)
      modifies this
      ensures State() == Absorb(old(State()), res)
      ensures fastest == old(fastest) && slowest == old(slowest)
    {
      numRes := numRes + 1;
      if res.err.Some? {
        errorDist := Bump(errorDist, res.err.value);
      } else {
        AddSuccess(res);
      }
    }

    /** The success branch: six sums, eight appends below the cap, the size. */
    method AddSuccess(res: RequestResult)
      modifies this`avgTotal, this`avgConn, this`avgDelay, this`avgDNS, this`avgReq, this`avgRes
      modifies this`stored, this`sizeTotal
      ensures Sums(avgTotal, avgConn, avgDelay, avgDNS, avgReq, avgRes)
        == AddSums(old(Sums(avgTotal, avgConn, avgDelay, avgDNS, avgReq, avgRes)), res)
      ensures stored == Store(old(stored), res)
      ensures sizeTotal == old(sizeTotal) + if res.contentLength > 0 then res.contentLength else 0
    {
      avgTotal := avgTotal + res.duration;
      avgConn := avgConn + res.connDuration;
      avgDelay := avgDelay + res.delayDuration;
      avgDNS := avgDNS + res.dnsDuration;
      avgReq := avgReq + res.reqDuration;
      avgRes := avgRes + res.resDuration;
      if |stored.resLats| < MaxRes {
        stored := Stored(
          stored.lats + [res.duration],
          stored.connLats + [res.connDuration],
          stored.dnsLats + [res.dnsDuration],
          stored.reqLats + [res.reqDuration],
          stored.delayLats + [res.delayDuration],
          stored.resLats + [res.resDuration],
          stored.statusCodes + [res.statusCode],
          stored.offsets + [res.offset]);
      }
      if res.contentLength > 0 {
        sizeTotal := sizeTotal + res.contentLength;
      }
    }

    /** runReporter: consume the results until the stream ends. */
    method RunReporter(results: seq<RequestResult>)
      requires Valid()
      modifies this
      ensures Valid() && State() == Fold(old(State()), results)
    {
      var i := 0;
      while i < |results|
        invariant 0 <= i <= |results|
        invariant State() == Fold(old(State()), results[..i])
        invariant Valid()
      {
        assert results[..i + 1][..i] == results[..i];
        Consume(results[i]);
        i := i + 1;
      }
      assert results[..i] == results;
    }

    /**
     * report.snapshot. With no stored latency the report carries only the
     * counters and sums, and nothing changes. Otherwise the slices are
     * sorted in place, `fastest` and `slowest` are the ends of the sorted
     * latencies, and the report is SnapshotOf the slices as they were.
     */
    method Snapshot() returns (snap: Report)
      requires Valid()
      modifies this`stored, this`fastest, this`slowest
      ensures old(stored.lats) == [] ==> snap == Counters(old(State())) && unchanged(this)
      ensures old(stored.lats) != [] ==> SnapshotTaken(old(State()), stored, fastest, slowest, snap)
    {
      var a := State();
      if |stored.lats| == 0 {
        snap := Counters(a);
        return;
      }
      var sorted;
      snap, sorted := TakeSnapshot(a);
      stored, fastest, slowest := sorted, snap.fastest, snap.slowest;
    }
  }

}
