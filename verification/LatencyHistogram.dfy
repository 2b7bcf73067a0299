/** The load generator's latency histogram (internal/load/load.go) against the true nearest-rank quantile. */
module LatencyHistogram {
  import opened Prelude

  const BUCKETS: nat := 10_000
  const STATUSES: nat := 1000
  const MICROSECOND := 1_000 // durations are in nanoseconds

  /** One request: its status, whether it failed, and its latency. */
  datatype Sample = Sample(status: int, failed: bool, latency: nat)

  function Latencies(log: seq<Sample>): (r: seq<nat>)
    ensures |r| == |log|
  {
    seq(|log|, i requires 0 <= i < |log| => log[i].latency)
  }

  // ----- widths -----

  /** The least width with which all but one bucket cover the timeout, and no less than a microsecond. */
  predicate IsWidth(width: int, timeout: int) {
    && width >= MICROSECOND
    && width * (BUCKETS - 1) >= timeout
    && (width > MICROSECOND ==> (width - 1) * (BUCKETS - 1) < timeout)
  }

  // ----- counting -----

  function Bucket(latency: nat, width: nat): (b: nat)
    requires width > 0
    ensures b < BUCKETS
  {
    Min(latency / width, BUCKETS - 1)
  }

  function CountBelow(samples: seq<nat>, limit: int): (n: nat)
    ensures n <= |samples|
  {
    if samples == [] then 0 else CountBelow(Front(samples), limit) + if Last(samples) < limit then 1 else 0
  }

  function CountInBucket(samples: seq<nat>, width: nat, b: nat): nat
    requires width > 0
  {
    if samples == [] then 0
    else CountInBucket(Front(samples), width, b) + if Bucket(Last(samples), width) == b then 1 else 0
  }

  function CountFailed(log: seq<Sample>): nat {
    if log == [] then 0 else CountFailed(Front(log)) + if Last(log).failed then 1 else 0
  }

  function CountStatus(log: seq<Sample>, status: int): nat {
    if log == [] then 0
    else CountStatus(Front(log), status) + if !Last(log).failed && Last(log).status == status then 1 else 0
  }

  function SumTo(counts: seq<nat>, n: nat): nat
    requires n <= |counts|
  {
    if n == 0 then 0 else SumTo(counts, n - 1) + counts[n - 1]
  }

  /** What one more request adds to the counts. */
  lemma CountsMore(log: seq<Sample>, sample: Sample, width: nat)
    requires width > 0
    ensures CountFailed(log + [sample]) == CountFailed(log) + if sample.failed then 1 else 0
    ensures forall s :: CountStatus(log + [sample], s) ==
              CountStatus(log, s) + if !sample.failed && sample.status == s then 1 else 0
    ensures forall b :: CountInBucket(Latencies(log + [sample]), width, b) ==
              CountInBucket(Latencies(log), width, b) + if Bucket(sample.latency, width) == b then 1 else 0
  {
    assert Front(log + [sample]) == log;
    assert Latencies(log + [sample]) == Latencies(log) + [sample.latency];
    assert Front(Latencies(log) + [sample.latency]) == Latencies(log);
  }

  // ----- quantiles -----

  /** The target of the p-th percentile. */
  function Rank(total: nat, p: nat): nat {
    (total * p + 99) / 100
  }

  /** v is the nearest-rank p-th percentile: less than p percent lie below it, at least p percent up to it. */
  predicate NearestRank(samples: seq<nat>, p: nat, v: nat) {
    v in samples && 100 * CountBelow(samples, v) < p * |samples| <= 100 * CountBelow(samples, v + 1)
  }

  /** A count reaches the target exactly when it is p percent of the total. */
  lemma ReachesRank(total: nat, p: nat, n: int)
    ensures n >= Rank(total, p) <==> 100 * n >= p * total
  {
    var x := total * p;
    assert x == p * total && x + 99 == 100 * Rank(total, p) + (x + 99) % 100;
  }

  /** The first bucket from i on at which the running sum reaches the target, or the last bucket. */
  function FirstReaching(counts: seq<nat>, target: nat, i: nat): (n: nat)
    requires i < |counts|
    ensures i <= n < |counts|
    ensures forall k :: i < k <= n ==> SumTo(counts, k) < target
    ensures n < |counts| - 1 ==> SumTo(counts, n + 1) >= target
    decreases |counts| - i
  {
    if i == |counts| - 1 || SumTo(counts, i + 1) >= target then i else FirstReaching(counts, target, i + 1)
  }

  function Quantile(counts: seq<nat>, width: nat, total: nat, p: nat): nat
    requires counts != []
  {
    if total == 0 then 0 else (FirstReaching(counts, Rank(total, p), 0) + 1) * width
  }

  /** q is the upper edge of the bucket, one width wide, around the percentile, or the last edge when it lies beyond. */
  ghost predicate Reports(q: nat, samples: seq<nat>, width: nat, p: nat) {
    && (samples == [] ==> q == 0)
    && forall v: nat :: NearestRank(samples, p, v) ==>
         if v < BUCKETS * width then q - width <= v < q else q == BUCKETS * width
  }

  // ----- the metrics object -----

  datatype Summary = Summary(requests: nat, errors: nat, statusCodes: map<int, nat>, p50: nat, p95: nat, p99: nat)

  class Metrics {
    var requests: nat
    var errors: nat
    const statusCodes: array<nat>
    const latencies: array<nat>
    const bucketWidth: nat
    ghost var log: seq<Sample> // every recorded request

    ghost predicate Valid()
      reads this, statusCodes, latencies
    {
      && statusCodes != latencies && statusCodes.Length == STATUSES && latencies.Length == BUCKETS && bucketWidth > 0
      && requests == |log|
      && errors == CountFailed(log)
      && (forall s :: 0 < s < STATUSES ==> statusCodes[s] == CountStatus(log, s))
      && statusCodes[0] == 0
      && (forall b :: 0 <= b < BUCKETS ==> latencies[b] == CountInBucket(Latencies(log), bucketWidth, b))
    }

    /** newMetrics; the timeout is positive in every valid configuration. */
    constructor (timeout: nat)
      requires timeout > 0
      ensures Valid() && log == [] && fresh(statusCodes) && fresh(latencies)
      ensures IsWidth(bucketWidth, timeout)
    {
      var width := timeout / (BUCKETS - 1);
      if timeout % (BUCKETS - 1) != 0 {
        width := width + 1;
      }
      if width < MICROSECOND {
        width := MICROSECOND;
      }
      bucketWidth := width;
      requests, errors, log := 0, 0, [];
      statusCodes := new nat[STATUSES](_ => 0);
      latencies := new nat[BUCKETS](_ => 0);
    }

    method Record(status: int, failed: bool, latency: nat)
      requires Valid()
      modifies this, statusCodes, latencies
      ensures Valid() && log == old(log) + [Sample(status, failed, latency)]
    {
      ghost var sample := Sample(status, failed, latency);
      CountsMore(log, sample, bucketWidth);
      requests := requests + 1;
      if failed {
        errors := errors + 1;
      } else if status > 0 && status < statusCodes.Length {
        statusCodes[status] := statusCodes[status] + 1;
      }
      var bucket := latency / bucketWidth;
      if bucket >= latencies.Length {
        bucket := latencies.Length - 1;
      }
      latencies[bucket] := latencies[bucket] + 1;
      log := log + [sample];
    }

    method QuantileOf(total: nat, percentile: nat) returns (q: nat)
      requires Valid()
      ensures q == Quantile(latencies[..], bucketWidth, total, percentile)
    {
      if total == 0 {
        return 0;
      }
      var target := (total * percentile + 99) / 100;
      var seen := 0;
      var index := 0;
      while index < latencies.Length
        invariant 0 <= index <= latencies.Length
        invariant seen == SumTo(latencies[..], index)
        invariant index < latencies.Length ==>
          FirstReaching(latencies[..], target, 0) == FirstReaching(latencies[..], target, index)
        invariant index == latencies.Length ==> FirstReaching(latencies[..], target, 0) == index - 1
      {
        seen := seen + latencies[index];
        if seen >= target {
          return (index + 1) * bucketWidth;
        }
        index := index + 1;
      }
      return latencies.Length * bucketWidth;
    }

    /** result, without the elapsed time. */
    method Result() returns (r: Summary)
      requires Valid()
      ensures r.requests == |log| && r.errors == CountFailed(log)
      ensures r.statusCodes == map s | 0 < s < STATUSES && CountStatus(log, s) > 0 :: CountStatus(log, s)
      ensures bucketWidth > 0 && Counts(latencies[..], Latencies(log), bucketWidth)
      ensures Reports(r.p50, Latencies(log), bucketWidth, 50)
      ensures Reports(r.p95, Latencies(log), bucketWidth, 95)
      ensures Reports(r.p99, Latencies(log), bucketWidth, 99)
    {
      var codes: map<int, nat> := map[];
      var status := 0;
      while status < statusCodes.Length
        invariant 0 <= status <= statusCodes.Length
        invariant codes == map s | 0 < s < status && CountStatus(log, s) > 0 :: CountStatus(log, s)
      {
        var count := statusCodes[status];
        if count > 0 {
          codes := codes[status := count];
        }
        status := status + 1;
      }
      var p50 := QuantileOf(requests, 50);
      var p95 := QuantileOf(requests, 95);
      var p99 := QuantileOf(requests, 99);
      QuantileReports(latencies[..], Latencies(log), bucketWidth, 50);
      QuantileReports(latencies[..], Latencies(log), bucketWidth, 95);
      QuantileReports(latencies[..], Latencies(log), bucketWidth, 99);
      return Summary(requests, errors, codes, p50, p95, p99);
    }
  }

  // ----- the histogram and the samples -----

  ghost predicate Counts(counts: seq<nat>, samples: seq<nat>, width: nat)
    requires width > 0
  {
    |counts| == BUCKETS && forall b :: 0 <= b < BUCKETS ==> counts[b] == CountInBucket(samples, width, b)
  }

  lemma BucketEdges(latency: nat, width: nat)
    requires width > 0
    ensures Bucket(latency, width) * width <= latency
    ensures Bucket(latency, width) < BUCKETS - 1 ==> latency < (Bucket(latency, width) + 1) * width
    ensures latency < BUCKETS * width ==> latency < (Bucket(latency, width) + 1) * width
  {
    var d := latency / width;
    assert latency == d * width + latency % width;
    assert (d + 1) * width == d * width + width;
    if d > BUCKETS - 1 {
      MulMonotone(BUCKETS - 1, d, width);
      MulMonotone(BUCKETS, d, width);
    }
  }

  lemma MulMonotone(a: nat, b: nat, w: nat)
    requires a <= b
    ensures a * w <= b * w
  {
  }

  /** The bucket of a latency is the one whose edges enclose it. */
  lemma BucketIs(latency: nat, width: nat, b: nat)
    requires width > 0 && b < BUCKETS - 1
    ensures Bucket(latency, width) == b <==> b * width <= latency < (b + 1) * width
    ensures Bucket(latency, width) == BUCKETS - 1 <==> (BUCKETS - 1) * width <= latency
  {
    var c := Bucket(latency, width);
    BucketEdges(latency, width);
    if c < b {
      MulMonotone(c + 1, b, width);
    } else if c > b {
      MulMonotone(b + 1, c, width);
    }
    if c < BUCKETS - 1 {
      MulMonotone(c + 1, BUCKETS - 1, width);
    }
  }

  lemma {:induction false} CountMonotone(samples: seq<nat>, a: int, b: int)
    requires a <= b
    ensures CountBelow(samples, a) <= CountBelow(samples, b)
  {
    if samples != [] {
      CountMonotone(Front(samples), a, b);
    }
  }

  lemma {:induction false} InBucket(samples: seq<nat>, width: nat, b: nat)
    requires width > 0 && b < BUCKETS - 1
    ensures CountBelow(samples, b * width) + CountInBucket(samples, width, b) == CountBelow(samples, (b + 1) * width)
  {
    if samples != [] {
      InBucket(Front(samples), width, b);
      BucketIs(Last(samples), width, b);
      MulMonotone(b, b + 1, width);
    }
  }

  lemma {:induction false} InLastBucket(samples: seq<nat>, width: nat)
    requires width > 0
    ensures CountBelow(samples, (BUCKETS - 1) * width) + CountInBucket(samples, width, BUCKETS - 1) == |samples|
  {
    if samples != [] {
      InLastBucket(Front(samples), width);
      BucketIs(Last(samples), width, 0);
    }
  }

  /** The running sum up to a bucket counts the samples below its lower edge; over all buckets, every sample. */
  lemma {:induction false} RunningSum(counts: seq<nat>, samples: seq<nat>, width: nat, n: nat)
    requires width > 0 && Counts(counts, samples, width) && n <= BUCKETS
    ensures SumTo(counts, n) == if n < BUCKETS then CountBelow(samples, n * width) else |samples|
    decreases n
  {
    if n == 0 {
      NoneBelowZero(samples);
    } else {
      RunningSum(counts, samples, width, n - 1);
      if n < BUCKETS {
        InBucket(samples, width, n - 1);
      } else {
        InLastBucket(samples, width);
      }
    }
  }

  lemma {:induction false} NoneBelowZero(samples: seq<nat>)
    ensures CountBelow(samples, 0) == 0
  {
    if samples != [] {
      NoneBelowZero(Front(samples));
    }
  }

  /** Before the bucket of the nearest-rank sample the running sum has not reached the rank. */
  lemma NotBefore(counts: seq<nat>, samples: seq<nat>, width: nat, p: nat, v: nat, n: nat)
    requires width > 0 && Counts(counts, samples, width) && NearestRank(samples, p, v) && n < Bucket(v, width)
    ensures SumTo(counts, n + 1) < Rank(|samples|, p)
  {
    BucketEdges(v, width);
    RunningSum(counts, samples, width, n + 1);
    MulMonotone(n + 1, Bucket(v, width), width);
    CountMonotone(samples, (n + 1) * width, v);
    ReachesRank(|samples|, p, SumTo(counts, n + 1));
  }

  /** At that bucket it has. */
  lemma NotAfterwards(counts: seq<nat>, samples: seq<nat>, width: nat, p: nat, v: nat)
    requires width > 0 && Counts(counts, samples, width) && NearestRank(samples, p, v)
    ensures SumTo(counts, Bucket(v, width) + 1) >= Rank(|samples|, p)
  {
    BucketEdges(v, width);
    RunningSum(counts, samples, width, Bucket(v, width) + 1);
    if Bucket(v, width) < BUCKETS - 1 {
      CountMonotone(samples, v + 1, (Bucket(v, width) + 1) * width);
    }
    ReachesRank(|samples|, p, SumTo(counts, Bucket(v, width) + 1));
  }

  /** quantile finds the bucket of the nearest-rank sample. */
  lemma FindsBucket(counts: seq<nat>, samples: seq<nat>, width: nat, p: nat, v: nat)
    requires width > 0 && Counts(counts, samples, width) && NearestRank(samples, p, v)
    ensures FirstReaching(counts, Rank(|samples|, p), 0) == Bucket(v, width)
  {
    var n := FirstReaching(counts, Rank(|samples|, p), 0);
    if n < Bucket(v, width) {
      NotBefore(counts, samples, width, p, v, n);
    } else {
      NotAfterwards(counts, samples, width, p, v);
    }
  }

  lemma QuantileEdge(counts: seq<nat>, samples: seq<nat>, width: nat, p: nat, v: nat)
    requires width > 0 && Counts(counts, samples, width) && NearestRank(samples, p, v)
    ensures var q := Quantile(counts, width, |samples|, p);
            && q == (Bucket(v, width) + 1) * width
            && (if v < BUCKETS * width then q - width <= v < q else q == BUCKETS * width)
  {
    FindsBucket(counts, samples, width, p, v);
    BucketEdges(v, width);
    assert (Bucket(v, width) + 1) * width == Bucket(v, width) * width + width;
    if v >= BUCKETS * width {
      MulMonotone(BUCKETS - 1, BUCKETS, width);
      BucketIs(v, width, 0);
    }
  }

  lemma QuantileReports(counts: seq<nat>, samples: seq<nat>, width: nat, p: nat)
    requires width > 0 && Counts(counts, samples, width)
    ensures Reports(Quantile(counts, width, |samples|, p), samples, width, p)
  {
    forall v: nat | NearestRank(samples, p, v)
      ensures var q := Quantile(counts, width, |samples|, p);
              if v < BUCKETS * width then q - width <= v < q else q == BUCKETS * width
    {
      QuantileEdge(counts, samples, width, p, v);
    }
  }

  /**
   The reported quantile is the upper edge of the bucket of the true nearest-rank quantile, so it exceeds it by at most
   one width exactly when the true one was not clamped, and no latency up to the timeout is.
   */
  lemma QuantileAgrees(counts: seq<nat>, samples: seq<nat>, timeout: nat, width: nat, p: nat, v: nat)
    requires IsWidth(width, timeout) && Counts(counts, samples, width) && NearestRank(samples, p, v)
    ensures
      var q := Quantile(counts, width, |samples|, p);
      && q == (Bucket(v, width) + 1) * width
      && (q - width <= v < q <==> v < BUCKETS * width)
      && (v <= timeout ==> q - width <= v < q)
  {
    QuantileEdge(counts, samples, width, p, v);
    assert BUCKETS * width == width * (BUCKETS - 1) + width;
  }

  /** A latency up to the timeout is recorded in the bucket it belongs to, never clamped into the last one. */
  lemma NotClamped(latency: nat, timeout: nat, width: nat)
    requires IsWidth(width, timeout) && latency <= timeout
    ensures Bucket(latency, width) == latency / width
  {
    var d := latency / width;
    assert latency == d * width + latency % width;
    assert BUCKETS * width == width * (BUCKETS - 1) + width;
    if d >= BUCKETS {
      MulMonotone(BUCKETS, d, width);
    }
  }

  // ----- nearest-rank quantiles exist, and there is only one -----

  lemma {:induction false} CountsMember(samples: seq<nat>, v: nat)
    requires CountBelow(samples, v) < CountBelow(samples, v + 1)
    ensures v in samples
  {
    if Last(samples) != v {
      CountsMember(Front(samples), v);
    }
  }

  lemma {:induction false} AllBelow(samples: seq<nat>) returns (limit: nat)
    ensures CountBelow(samples, limit) == |samples|
  {
    if samples == [] {
      return 0;
    }
    var l := AllBelow(Front(samples));
    limit := Max(l, Last(samples) + 1);
    CountMonotone(Front(samples), l, limit);
  }

  lemma {:induction false} DescendToRank(samples: seq<nat>, rank: nat, limit: nat) returns (v: nat)
    requires 0 < rank <= CountBelow(samples, limit)
    ensures CountBelow(samples, v) < rank <= CountBelow(samples, v + 1)
    decreases limit
  {
    if limit == 0 {
      NoneBelowZero(samples);
      assert false;
    } else if CountBelow(samples, limit - 1) < rank {
      return limit - 1;
    } else {
      v := DescendToRank(samples, rank, limit - 1);
    }
  }

  lemma RankInRange(total: nat, p: nat)
    requires total > 0 && 1 <= p <= 100
    ensures 0 < Rank(total, p) <= total
  {
    MulMonotone(1, p, total);
    MulMonotone(p, 100, total);
    ReachesRank(total, p, 0);
    ReachesRank(total, p, total);
  }

  lemma NearestRankExists(samples: seq<nat>, p: nat) returns (v: nat)
    requires samples != [] && 1 <= p <= 100
    ensures NearestRank(samples, p, v)
  {
    var limit := AllBelow(samples);
    RankInRange(|samples|, p);
    v := DescendToRank(samples, Rank(|samples|, p), limit);
    CountsMember(samples, v);
    ReachesRank(|samples|, p, CountBelow(samples, v));
    ReachesRank(|samples|, p, CountBelow(samples, v + 1));
  }

  lemma NearestRankNotLess(samples: seq<nat>, p: nat, a: nat, b: nat)
    requires NearestRank(samples, p, a) && NearestRank(samples, p, b)
    ensures a >= b
  {
    if a < b {
      CountMonotone(samples, a + 1, b);
    }
  }

  lemma NearestRankUnique(samples: seq<nat>, p: nat)
    requires samples != [] && 1 <= p <= 100
    ensures exists v: nat :: NearestRank(samples, p, v)
    ensures forall v: nat, w: nat :: NearestRank(samples, p, v) && NearestRank(samples, p, w) ==> v == w
  {
    var v := NearestRankExists(samples, p);
    forall a: nat, b: nat | NearestRank(samples, p, a) && NearestRank(samples, p, b) ensures a == b {
      NearestRankNotLess(samples, p, a, b);
      NearestRankNotLess(samples, p, b, a);
    }
  }

  /** A higher percentile never reports a smaller latency, whatever was recorded. */
  lemma QuantileMonotone(counts: seq<nat>, width: nat, total: nat, p: nat, r: nat)
    requires counts != [] && p <= r
    ensures Quantile(counts, width, total, p) <= Quantile(counts, width, total, r)
  {
    if total > 0 {
      MulMonotone(p, r, total);
      var n := FirstReaching(counts, Rank(total, p), 0);
      var m := FirstReaching(counts, Rank(total, r), 0);
      MulMonotone(n + 1, m + 1, width);
    }
  }

  // ----- conservation -----

  function StatusCounts(log: seq<Sample>): (r: seq<nat>)
    ensures |r| == STATUSES
  {
    seq(STATUSES, s => if s == 0 then 0 else CountStatus(log, s))
  }

  predicate Classified(sample: Sample) {
    sample.failed || 0 < sample.status < STATUSES
  }

  lemma {:induction false} SumBump(a: seq<nat>, b: seq<nat>, k: nat, n: nat)
    requires |a| == |b| && n <= |a| && k < |a|
    requires b[k] == a[k] + 1 && forall i :: 0 <= i < |a| && i != k ==> a[i] == b[i]
    ensures SumTo(b, n) == SumTo(a, n) + if k < n then 1 else 0
    decreases n
  {
    if n > 0 {
      SumBump(a, b, k, n - 1);
    }
  }

  function CountUnclassified(log: seq<Sample>): nat {
    if log == [] then 0 else CountUnclassified(Front(log)) + if Classified(Last(log)) then 0 else 1
  }

  /** Errors and status counts together are all requests but the unclassified ones. */
  lemma {:induction false} RequestsSplit(log: seq<Sample>)
    ensures CountFailed(log) + SumTo(StatusCounts(log), STATUSES) == |log| - CountUnclassified(log)
    decreases |log|
  {
    if log == [] {
      AllZero(StatusCounts(log), STATUSES);
    } else {
      RequestsSplit(Front(log));
      if Last(log).failed || !Classified(Last(log)) {
        assert StatusCounts(log) == StatusCounts(Front(log));
      } else {
        SumBump(StatusCounts(Front(log)), StatusCounts(log), Last(log).status, STATUSES);
      }
    }
  }

  lemma {:induction false} UnclassifiedNone(log: seq<Sample>)
    ensures CountUnclassified(log) == 0 <==> forall i :: 0 <= i < |log| ==> Classified(log[i])
  {
    if log != [] {
      UnclassifiedNone(Front(log));
      assert log == Front(log) + [Last(log)];
    }
  }

  /**
   Every request is counted once, as an error or under its status, if and only if each failed or had a status from 1 to
   999.
   */
  lemma RequestsConserved(log: seq<Sample>)
    ensures CountFailed(log) + SumTo(StatusCounts(log), STATUSES) == |log|
            <==> forall i :: 0 <= i < |log| ==> Classified(log[i])
  {
    RequestsSplit(log);
    UnclassifiedNone(log);
  }

  lemma {:induction false} AllZero(counts: seq<nat>, n: nat)
    requires n <= |counts| && forall i :: 0 <= i < |counts| ==> counts[i] == 0
    ensures SumTo(counts, n) == 0
    decreases n
  {
    if n > 0 {
      AllZero(counts, n - 1);
    }
  }
}
