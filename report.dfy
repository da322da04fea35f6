/**
 * The result aggregation of requester/report.go: a fold of per-request
 * results into counters, sums and eight parallel latency sequences (stored
 * for at most MaxRes results), and the snapshot that sorts the latencies
 * and derives the summary, the histogram and the percentile distribution.
 * Durations are integer nanoseconds.
 */
module ReportModel {
  import opened Wrappers
  import opened Sorting
  import opened Tally
  import opened Stats
  import opened ReportTables

  /** At most this many results have their latencies stored. */
  const MaxRes := 1000000

  /** One request's outcome, as the workers send it to the reporter. */
  datatype RequestResult = RequestResult(
    err: Option<string>,
    statusCode: int,
    offset: int,
    duration: int,
    connDuration: int,
    dnsDuration: int,
    reqDuration: int,
    resDuration: int,
    delayDuration: int,
    contentLength: int)

  /** The report record handed to the output templates. */
  datatype Report = Report(
    avgTotal: int, fastest: int, slowest: int,
    avgConn: int, avgDNS: int, avgReq: int, avgRes: int, avgDelay: int,
    connMax: int, connMin: int, dnsMax: int, dnsMin: int, reqMax: int, reqMin: int,
    resMax: int, resMin: int, delayMax: int, delayMin: int,
    lats: seq<int>, connLats: seq<int>, dnsLats: seq<int>, reqLats: seq<int>,
    resLats: seq<int>, delayLats: seq<int>, offsets: seq<int>, statusCodes: seq<int>,
    errorDist: map<string, int>, statusCodeDist: map<int, int>,
    sizeTotal: int, sizeReq: int, numRes: int,
    latencyDistribution: seq<LatencyDistribution>, histogram: seq<Bucket>)

  /** The six duration sums the reporter keeps. */
  datatype Sums = Sums(total: int, conn: int, delay: int, dns: int, req: int, res: int)

  /** The eight per-result sequences the reporter stores. */
  datatype Stored = Stored(
    lats: seq<int>, connLats: seq<int>, dnsLats: seq<int>, reqLats: seq<int>,
    delayLats: seq<int>, resLats: seq<int>, statusCodes: seq<int>, offsets: seq<int>)

  /** The reporter's accumulated state, as a value. */
  datatype Aggregate = Aggregate(
    numRes: int, errorDist: map<string, int>, sums: Sums, stored: Stored, sizeTotal: int)

  /** The eight stored sequences have one entry per stored result, at most MaxRes. */
  predicate Parallel(s: Stored) {
    |s.lats| == |s.connLats| == |s.dnsLats| == |s.reqLats| == |s.delayLats|
      == |s.resLats| == |s.statusCodes| == |s.offsets| <= MaxRes
  }

  /**
   * Go's `/` on int64: the quotient truncated toward zero, so its product
   * with the divisor lies between zero and the dividend, less than one
   * divisor away from it.
   */
  function Quo(x: int, d: int): (q: int)
    requires d > 0
    ensures x >= 0 ==> 0 <= q * d <= x < q * d + d
    ensures x < 0 ==> x <= q * d <= 0 && q * d < x + d
  {
    if x >= 0 then
      DivFacts(x, d);
      x / d
    else
      DivFacts(-x, d);
      NegMul((-x) / d, d);
      -((-x) / d)
  }

  /** Euclidean division of a non-negative dividend leaves a remainder below the divisor. */
  lemma DivFacts(x: int, d: int)
    requires x >= 0 && d > 0
    ensures 0 <= (x / d) * d <= x < (x / d) * d + d
  {
    var q := x / d;
    assert x == q * d + x % d;
    assert q >= 0;
    assert q * d >= 0;
  }

  lemma NegMul(q: int, d: int)
    ensures (-q) * d == -(q * d)
  {
  }

  function AddSums(s: Sums, r: RequestResult): Sums {
    Sums(s.total + r.duration, s.conn + r.connDuration, s.delay + r.delayDuration,
      s.dns + r.dnsDuration, s.req + r.reqDuration, s.res + r.resDuration)
  }

  /** Appending one result's values, unless MaxRes results are stored already. */
  function Store(s: Stored, r: RequestResult): Stored {
    if |s.resLats| < MaxRes then
      Stored(s.lats + [r.duration], s.connLats + [r.connDuration], s.dnsLats + [r.dnsDuration],
        s.reqLats + [r.reqDuration], s.delayLats + [r.delayDuration], s.resLats + [r.resDuration],
        s.statusCodes + [r.statusCode], s.offsets + [r.offset])
    else s
  }

  /** Consuming one result (the body of the loop in runReporter). */
  function Absorb(a: Aggregate, r: RequestResult): Aggregate
  {
    if r.err.Some? then a.(numRes := a.numRes + 1, errorDist := Bump(a.errorDist, r.err.value))
    else
      Aggregate(a.numRes + 1, a.errorDist, AddSums(a.sums, r), Store(a.stored, r),
        a.sizeTotal + (if r.contentLength > 0 then r.contentLength else 0))
  }

  /** Consuming a whole stream of results, in order. */
  function Fold(a: Aggregate, rs: seq<RequestResult>): Aggregate
  {
    if rs == [] then a else Absorb(Fold(a, rs[..|rs| - 1]), rs[|rs| - 1])
  }

  /** The results of a stream that carry no error, in order. */
  function Successes(rs: seq<RequestResult>): (ok: seq<RequestResult>)
    ensures |ok| <= |rs| && forall r :: r in ok ==> r in rs && r.err.None?
  {
    if rs == [] then []
    else
      var p := Successes(rs[..|rs| - 1]);
      if rs[|rs| - 1].err.None? then p + [rs[|rs| - 1]] else p
  }

  /** The error texts of a stream, in order. */
  function Errors(rs: seq<RequestResult>): (es: seq<string>)
    ensures |es| + |Successes(rs)| == |rs|
  {
    if rs == [] then []
    else
      var p := Errors(rs[..|rs| - 1]);
      if rs[|rs| - 1].err.Some? then p + [rs[|rs| - 1].err.value] else p
  }

  function SumDurations(rs: seq<RequestResult>): int
  {
    if rs == [] then 0 else SumDurations(rs[..|rs| - 1]) + rs[|rs| - 1].duration
  }

  /** The sum of the positive content lengths of a stream. */
  function SumSizes(rs: seq<RequestResult>): (s: int)
    ensures s >= 0
  {
    if rs == [] then 0
    else
      var c := rs[|rs| - 1].contentLength;
      SumSizes(rs[..|rs| - 1]) + (if c > 0 then c else 0)
  }

  function Min(a: int, b: int): int { if a <= b then a else b }

  /** Every consumed result counts once in numRes, error or not. */
  lemma {:induction false} FoldCountsAll(a: Aggregate, rs: seq<RequestResult>)
    ensures Fold(a, rs).numRes == a.numRes + |rs|
  {
    if rs != [] {
      FoldCountsAll(a, rs[..|rs| - 1]);
    }
  }

  /** The error distribution gains exactly one count per error result. */
  lemma {:induction false} FoldCountsErrors(a: Aggregate, rs: seq<RequestResult>)
    ensures Total(Fold(a, rs).errorDist) == Total(a.errorDist) + |Errors(rs)|
  {
    if rs != [] {
      var p, r := rs[..|rs| - 1], rs[|rs| - 1];
      FoldCountsErrors(a, p);
      if r.err.Some? {
        TotalBump(Fold(a, p).errorDist, r.err.value);
      }
    }
  }

  /** An error result changes nothing but numRes and the error distribution. */
  lemma ErrorOnlyCounts(a: Aggregate, r: RequestResult)
    requires r.err.Some?
    ensures var b := Absorb(a, r);
      && b.sums == a.sums && b.stored == a.stored && b.sizeTotal == a.sizeTotal
      && b.errorDist.Keys == a.errorDist.Keys + {r.err.value}
      && b.errorDist[r.err.value] == (if r.err.value in a.errorDist then a.errorDist[r.err.value] else 0) + 1
  {
  }

  /** The total duration gains every successful duration, after the cap as well. */
  lemma {:induction false} FoldSumsDurations(a: Aggregate, rs: seq<RequestResult>)
    ensures Fold(a, rs).sums.total == a.sums.total + SumDurations(Successes(rs))
  {
    if rs != [] {
      var p, r := rs[..|rs| - 1], rs[|rs| - 1];
      FoldSumsDurations(a, p);
      if r.err.None? {
        var ok := Successes(p);
        assert Successes(rs) == ok + [r];
        assert (ok + [r])[..|ok|] == ok;
      }
    }
  }

  /** The eight sequences stay parallel, and min(MaxRes, stored + successes) are stored. */
  lemma {:induction false} FoldStoresCapped(a: Aggregate, rs: seq<RequestResult>)
    requires Parallel(a.stored)
    ensures Parallel(Fold(a, rs).stored)
    ensures |Fold(a, rs).stored.lats| == Min(MaxRes, |a.stored.lats| + |Successes(rs)|)
  {
    if rs != [] {
      var p, r := rs[..|rs| - 1], rs[|rs| - 1];
      FoldStoresCapped(a, p);
      if r.err.None? {
        assert Successes(rs) == Successes(p) + [r];
      }
    }
  }

  /** sizeTotal gains exactly the positive content lengths of the successes. */
  lemma {:induction false} FoldSizes(a: Aggregate, rs: seq<RequestResult>)
    ensures Fold(a, rs).sizeTotal == a.sizeTotal + SumSizes(Successes(rs))
    ensures Fold(a, rs).sizeTotal >= a.sizeTotal
  {
    if rs != [] {
      var p, r := rs[..|rs| - 1], rs[|rs| - 1];
      FoldSizes(a, p);
      if r.err.None? {
        var ok := Successes(p);
        assert Successes(rs) == ok + [r];
        assert (ok + [r])[..|ok|] == ok;
      }
    }
  }

  /** Index `k` of all eight stored slices holds the values of the one result `r`. */
  predicate StoredAt(s: Stored, k: nat, r: RequestResult) {
    && k < |s.lats| && k < |s.connLats| && k < |s.dnsLats| && k < |s.reqLats|
    && k < |s.delayLats| && k < |s.resLats| && k < |s.statusCodes| && k < |s.offsets|
    && s.lats[k] == r.duration && s.connLats[k] == r.connDuration && s.dnsLats[k] == r.dnsDuration
    && s.reqLats[k] == r.reqDuration && s.delayLats[k] == r.delayDuration && s.resLats[k] == r.resDuration
    && s.statusCodes[k] == r.statusCode && s.offsets[k] == r.offset
  }

  /**
   * The stored entries are the stream's first successes, in order: index `k`
   * of every one of the eight slices comes from the same success, so each
   * stored position describes one request.
   */
  lemma {:induction false} FoldStoresPrefix(a: Aggregate, rs: seq<RequestResult>, k: nat)
    requires Parallel(a.stored) && |a.stored.lats| <= k < |Fold(a, rs).stored.lats|
    ensures k - |a.stored.lats| < |Successes(rs)|
    ensures StoredAt(Fold(a, rs).stored, k, Successes(rs)[k - |a.stored.lats|])
  {
    var p, r := rs[..|rs| - 1], rs[|rs| - 1];
    FoldStoresCapped(a, p);
    var f := Fold(a, p);
    if r.err.None? {
      assert Successes(rs) == Successes(p) + [r];
    }
    if k < |f.stored.lats| {
      FoldStoresPrefix(a, p, k);
      StoreKeeps(f.stored, r, k, Successes(p)[k - |a.stored.lats|]);
    } else {
      FoldStoresCapped(a, rs);
    }
  }

  /** Storing one more result keeps what the earlier indices hold. */
  lemma StoreKeeps(s: Stored, r: RequestResult, k: nat, q: RequestResult)
    requires StoredAt(s, k, q)
    ensures StoredAt(Store(s, r), k, q)
  {
  }

  /** The six latency slices sorted, the status codes and offsets left as they are. */
  function SortAll(s: Stored): Stored {
    s.(lats := Sort(s.lats), connLats := Sort(s.connLats), dnsLats := Sort(s.dnsLats),
      reqLats := Sort(s.reqLats), resLats := Sort(s.resLats), delayLats := Sort(s.delayLats))
  }

  /** Sorting keeps the slices parallel. */
  lemma SortAllParallel(s: Stored)
    requires Parallel(s)
    ensures Parallel(SortAll(s)) && Sorted(SortAll(s).lats)
  {
  }

  /** The report of a reporter holding no latency: the counters and sums, everything else empty. */
  function Counters(a: Aggregate): Report
  {
    Report(a.sums.total, 0, 0, a.sums.conn, a.sums.dns, a.sums.req, a.sums.res, a.sums.delay,
      0, 0, 0, 0, 0, 0, 0, 0, 0, 0,
      [], [], [], [], [], [], [], [],
      a.errorDist, map[], a.sizeTotal, 0, a.numRes, [], [])
  }

  /**
   * The report of a reporter holding latencies: the counters and sums, the
   * per-request size, arrival-order copies of the slices, the ends of the
   * sorted slices (as written, each "Max" stage field takes the first
   * element and each "Min" the last), the status-code tally, the histogram
   * and the distribution.
   */
  function SnapshotOf(a: Aggregate): Report
    requires Parallel(a.stored) && a.stored.lats != []
  {
    var s := a.stored;
    var n := |s.lats|;
    SortAllParallel(s);
    var t := SortAll(s);
    Report(a.sums.total, t.lats[0], t.lats[n - 1],
      a.sums.conn, a.sums.dns, a.sums.req, a.sums.res, a.sums.delay,
      t.connLats[0], t.connLats[n - 1], t.dnsLats[0], t.dnsLats[n - 1],
      t.reqLats[0], t.reqLats[n - 1], t.resLats[0], t.resLats[n - 1],
      t.delayLats[0], t.delayLats[n - 1],
      s.lats, s.connLats, s.dnsLats, s.reqLats, s.resLats, s.delayLats, s.offsets, s.statusCodes,
      a.errorDist, Tally.Tally(s.statusCodes), a.sizeTotal, Quo(a.sizeTotal, n), a.numRes,
      LatencySpec(t.lats), HistogramSpec(t.lats))
  }

  /**
   * What report.snapshot leaves behind on a reporter holding latencies: the
   * slices sorted, `fastest` and `slowest` set to the report's, and the
   * report itself.
   */
  predicate SnapshotTaken(a: Aggregate, sorted: Stored, fastest: int, slowest: int, snap: Report) {
    && Parallel(a.stored) && a.stored.lats != []
    && sorted == SortAll(a.stored) && snap == SnapshotOf(a)
    && fastest == snap.fastest && slowest == snap.slowest
  }

  /**
   * The value side of report.snapshot for a non-empty reporter: the slices
   * sorted (returned as `sorted`), the histogram and distribution of the
   * sorted latencies, the status-code count, then the report record.
   */
  method TakeSnapshot(a: Aggregate) returns (snap: Report, sorted: Stored)
    requires Parallel(a.stored) && a.stored.lats != []
    ensures Parallel(sorted) && SnapshotTaken(a, sorted, snap.fastest, snap.slowest, snap)
  {
    var s := a.stored;
    var n := |s.lats|;
    var sizeReq := Quo(a.sizeTotal, n);
    SortAllParallel(s);
    sorted := s.(lats := Sort(s.lats));
    var fastest, slowest := sorted.lats[0], sorted.lats[n - 1];
    sorted := sorted.(connLats := Sort(s.connLats), dnsLats := Sort(s.dnsLats),
      reqLats := Sort(s.reqLats), resLats := Sort(s.resLats), delayLats := Sort(s.delayLats));
    var hist := Histogram(sorted.lats, fastest, slowest);
    var ld := Latencies(sorted.lats);
    var dist := CountAll(s.statusCodes);
    snap := Report(a.sums.total, fastest, slowest,
      a.sums.conn, a.sums.dns, a.sums.req, a.sums.res, a.sums.delay,
      sorted.connLats[0], sorted.connLats[n - 1], sorted.dnsLats[0], sorted.dnsLats[n - 1],
      sorted.reqLats[0], sorted.reqLats[n - 1], sorted.resLats[0], sorted.resLats[n - 1],
      sorted.delayLats[0], sorted.delayLats[n - 1],
      s.lats, s.connLats, s.dnsLats, s.reqLats, s.resLats, s.delayLats, s.offsets, s.statusCodes,
      a.errorDist, dist, a.sizeTotal, sizeReq, a.numRes, ld, hist);
  }

  /** A report carries the reporter's counters, sums and error distribution unchanged. */
  predicate Carries(r: Report, a: Aggregate) {
    && r.numRes == a.numRes && r.errorDist == a.errorDist && r.sizeTotal == a.sizeTotal
    && r.avgTotal == a.sums.total && r.avgConn == a.sums.conn && r.avgDNS == a.sums.dns
    && r.avgReq == a.sums.req && r.avgRes == a.sums.res && r.avgDelay == a.sums.delay
  }

  /** With no latency stored, the report carries the counters and has nothing else. */
  lemma EmptySnapshot(a: Aggregate)
    ensures var r := Counters(a);
      && Carries(r, a) && r.sizeReq == 0 && r.lats == [] && r.histogram == []
      && r.latencyDistribution == [] && r.statusCodeDist == map[] && r.fastest == 0 && r.slowest == 0
  {
  }

  /** The snapshot carries the counters and sums, and holds arrival-order copies of the slices. */
  lemma SnapshotCopies(a: Aggregate)
    requires Parallel(a.stored) && a.stored.lats != []
    ensures var r := SnapshotOf(a);
      && Carries(r, a) && r.sizeReq == Quo(a.sizeTotal, |a.stored.lats|)
      && Stored(r.lats, r.connLats, r.dnsLats, r.reqLats, r.delayLats, r.resLats,
           r.statusCodes, r.offsets) == a.stored
  {
  }

  /** The snapshot's fastest and slowest latencies are the minimum and maximum stored. */
  lemma SnapshotFastestSlowest(a: Aggregate)
    requires Parallel(a.stored) && a.stored.lats != []
    ensures var r := SnapshotOf(a);
      IsMin(a.stored.lats, r.fastest) && IsMax(a.stored.lats, r.slowest)
  {
    SortedEnds(a.stored.lats);
  }

  /**
   * As written, each "Max" stage field of the snapshot is the smallest value
   * of its slice and each "Min" field the largest.
   */
  lemma SnapshotStageExtremes(a: Aggregate)
    requires Parallel(a.stored) && a.stored.lats != []
    ensures var r := SnapshotOf(a); var s := a.stored;
      && IsMin(s.connLats, r.connMax) && IsMax(s.connLats, r.connMin)
      && IsMin(s.dnsLats, r.dnsMax) && IsMax(s.dnsLats, r.dnsMin)
      && IsMin(s.reqLats, r.reqMax) && IsMax(s.reqLats, r.reqMin)
      && IsMin(s.delayLats, r.delayMax) && IsMax(s.delayLats, r.delayMin)
      && IsMin(s.resLats, r.resMax) && IsMax(s.resLats, r.resMin)
  {
    var s := a.stored;
    SortedEnds(s.connLats);
    SortedEnds(s.dnsLats);
    SortedEnds(s.reqLats);
    SortedEnds(s.delayLats);
    SortedEnds(s.resLats);
  }

  /**
   * The snapshot's status-code distribution tallies the stored codes, and
   * its counts add up to the number of stored results.
   */
  lemma SnapshotStatusCodes(a: Aggregate)
    requires Parallel(a.stored) && a.stored.lats != []
    ensures var r := SnapshotOf(a);
      && r.statusCodeDist == Tally.Tally(a.stored.statusCodes)
      && r.statusCodeDist.Keys == set c | c in a.stored.statusCodes
      && Total(r.statusCodeDist) == |a.stored.lats|
  {
    TallyCounts(a.stored.statusCodes);
  }

  /**
   * The snapshot's histogram has 11 buckets, the last at the slowest
   * latency, and its counts add up to the number of stored results.
   */
  lemma SnapshotHistogram(a: Aggregate)
    requires Parallel(a.stored) && a.stored.lats != []
    ensures var r := SnapshotOf(a);
      && |r.histogram| == BucketCount + 1 && r.histogram[BucketCount].mark == r.slowest
      && SumBuckets(r.histogram) == |a.stored.lats|
  {
    HistogramAddsUp(Sort(a.stored.lats));
  }

  /** The snapshot's distribution has one entry per percentile, each zero-valued or positive. */
  lemma SnapshotDistribution(a: Aggregate)
    requires Parallel(a.stored) && a.stored.lats != []
    ensures var r := SnapshotOf(a);
      && |r.latencyDistribution| == |Pctls|
      && forall i :: 0 <= i < |Pctls| ==>
           r.latencyDistribution[i] == LatencyDistribution(0, 0)
           || (r.latencyDistribution[i].percentage == Pctls[i] && r.latencyDistribution[i].latency > 0)
  {
  }
}
