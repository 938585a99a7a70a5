/** The server's counters and its query-latency histogram. */
module Metrics {
  import opened Sequences

  datatype RejectionReason =
    | Unauthenticated
    | TenantForbidden
    | InvalidJson
    | PayloadTooLarge
    | EventCountTooLarge
    | FieldTooLarge
    | InvalidFeedback

  /** The feedback counters; `rejected` has one cell per reason. */
  datatype Counters = Counters(
    ingested: nat, replayed: nat, rateLimited: nat, storeErrors: nat, rejected: RejectionReason -> nat)

  const ZERO_COUNTERS := Counters(0, 0, 0, 0, (r: RejectionReason) => 0)

  function Bump(cells: RejectionReason -> nat, reason: RejectionReason): RejectionReason -> nat {
    (r: RejectionReason) => if r == reason then cells(r) + 1 else cells(r)
  }

  /** The sum of all seven rejection cells. */
  function TotalRejected(cells: RejectionReason -> nat): nat {
    cells(Unauthenticated) + cells(TenantForbidden) + cells(InvalidJson) + cells(PayloadTooLarge)
    + cells(EventCountTooLarge) + cells(FieldTooLarge) + cells(InvalidFeedback)
  }

  const BUCKET_COUNT: nat := 7

  const BOUNDS_MS: seq<nat> := [1, 5, 10, 25, 50, 100]

  /** The bucket midpoints, truncated to whole milliseconds. */
  const MIDPOINTS_MS: seq<nat> := [0, 3, 7, 17, 37, 75, 150]

  predicate InBucket(ms: nat, i: nat) {
    && i < BUCKET_COUNT
    && (0 < i ==> ms > BOUNDS_MS[i - 1])
    && (i < |BOUNDS_MS| ==> ms <= BOUNDS_MS[i])
  }

  ghost function Bucket(i: nat): nat -> bool { (ms: nat) => InBucket(ms, i) }

  ghost function AtMost(bound: nat): nat -> bool { (ms: nat) => ms <= bound }

  class Metrics {
    var counters: Counters
    var queryTotal: nat
    const latencyBuckets: array<nat>
    ghost var latencies: seq<nat>

    /** Every bucket counts the recorded latencies that fall into it. */
    ghost predicate Valid()
      reads this, latencyBuckets
    {
      && latencyBuckets.Length == BUCKET_COUNT
      && queryTotal == |latencies|
      && forall i: nat :: i < BUCKET_COUNT ==> latencyBuckets[i] == |Filter(Bucket(i), latencies)|
    }

    constructor ()
      ensures Valid() && fresh(latencyBuckets)
      ensures counters == ZERO_COUNTERS && latencies == []
    {
      counters := ZERO_COUNTERS;
      queryTotal := 0;
      latencyBuckets := new nat[BUCKET_COUNT](i => 0);
      latencies := [];
    }

    method AddIngested(n: nat)
      modifies this`counters
      ensures counters == old(counters).(ingested := old(counters).ingested + n)
    {
      counters := counters.(ingested := counters.ingested + n);
    }

    method AddReplayed(n: nat)
      modifies this`counters
      ensures counters == old(counters).(replayed := old(counters).replayed + n)
    {
      counters := counters.(replayed := counters.replayed + n);
    }

    method RecordRateLimited()
      modifies this`counters
      ensures counters == old(counters).(rateLimited := old(counters).rateLimited + 1)
    {
      counters := counters.(rateLimited := counters.rateLimited + 1);
    }

    method RecordStoreError()
      modifies this`counters
      ensures counters == old(counters).(storeErrors := old(counters).storeErrors + 1)
    {
      counters := counters.(storeErrors := counters.storeErrors + 1);
    }

    method RecordRejected(reason: RejectionReason)
      modifies this`counters
      ensures counters == old(counters).(rejected := Bump(old(counters).rejected, reason))
    {
      counters := counters.(rejected := Bump(counters.rejected, reason));
    }

    method RecordQueryLatencyMs(ms: nat)
      requires Valid()
      modifies this`queryTotal, this`latencies, latencyBuckets
      ensures Valid() && latencies == old(latencies) + [ms]
    {
      queryTotal := queryTotal + 1;
      var i := 0;
      while i < |BOUNDS_MS| && ms > BOUNDS_MS[i]
        invariant i <= |BOUNDS_MS|
        invariant 0 < i ==> ms > BOUNDS_MS[i - 1]
      {
        i := i + 1;
      }
      OneBucket(ms, i);
      latencyBuckets[i] := latencyBuckets[i] + 1;
      latencies := latencies + [ms];
      forall j: nat | j < BUCKET_COUNT ensures latencyBuckets[j] == |Filter(Bucket(j), latencies)| {
        FilterPush(Bucket(j), old(latencies), ms);
      }
    }

    /** The histogram lines: `_count`, `_sum`, and the cumulative value of each bound with
        `+Inf` last. */
    method RenderHistogram() returns (count: nat, sum: nat, cumulative: seq<nat>)
      requires Valid()
      ensures count == |latencies| && sum == SumBy(MidpointOf, latencies)
      ensures |cumulative| == BUCKET_COUNT && IsCumulative(latencies, cumulative)
    {
      count := queryTotal;
      sum := QueryLatencyMsSum();
      cumulative := [];
      var cum := 0;
      for i := 0 to |BOUNDS_MS|
        invariant |cumulative| == i && cum == Below(latencies, i)
        invariant IsCumulative(latencies, cumulative)
      {
        Cumulate(latencies, i);
        cum := cum + latencyBuckets[i];
        cumulative := cumulative + [cum];
      }
      Cumulate(latencies, |BOUNDS_MS|);
      cum := cum + latencyBuckets[BUCKET_COUNT - 1];
      cumulative := cumulative + [cum];
    }

    method QueryLatencyMsSum() returns (sum: nat)
      requires Valid()
      ensures sum == SumBy(MidpointOf, latencies)
    {
      sum := 0;
      for i := 0 to BUCKET_COUNT
        invariant sum == MidpointSum(latencies, i)
      {
        sum := sum + MIDPOINTS_MS[i] * latencyBuckets[i];
      }
      MidpointSumIsSum(latencies);
    }
  }

  lemma OneBucket(ms: nat, i: nat)
    requires i <= |BOUNDS_MS| && (0 < i ==> ms > BOUNDS_MS[i - 1]) && (i < |BOUNDS_MS| ==> ms <= BOUNDS_MS[i])
    ensures forall j: nat :: InBucket(ms, j) <==> j == i
  {
  }

  /** The bucket that a latency falls into. */
  function BucketOf(ms: nat): (i: nat)
    ensures InBucket(ms, i)
  {
    if ms <= 1 then 0 else if ms <= 5 then 1 else if ms <= 10 then 2 else if ms <= 25 then 3
    else if ms <= 50 then 4 else if ms <= 100 then 5 else 6
  }

  function MidpointOf(ms: nat): int { MIDPOINTS_MS[BucketOf(ms)] }

  /** The latencies in the first `i` buckets: all up to the bound of the last of them, and
      simply all once every bucket is in. */
  ghost function Below(latencies: seq<nat>, i: nat): nat
    requires i <= BUCKET_COUNT
  {
    if i == 0 then 0
    else if i <= |BOUNDS_MS| then |Filter(AtMost(BOUNDS_MS[i - 1]), latencies)|
    else |latencies|
  }

  ghost predicate IsCumulative(latencies: seq<nat>, values: seq<nat>) {
    |values| <= BUCKET_COUNT && forall i :: 0 <= i < |values| ==> values[i] == Below(latencies, i + 1)
  }

  /** Passing one more bucket adds the latencies of that bucket. */
  lemma {:induction false} Cumulate(latencies: seq<nat>, i: nat)
    requires i < BUCKET_COUNT
    ensures Below(latencies, i) + |Filter(Bucket(i), latencies)| == Below(latencies, i + 1)
  {
    if latencies != [] {
      var front, last := latencies[..|latencies| - 1], latencies[|latencies| - 1];
      Cumulate(front, i);
      FrontLast(latencies);
      FilterPush(Bucket(i), front, last);
      BelowPush(front, last, i);
      BelowPush(front, last, i + 1);
      BucketIsGap(last, i);
    }
  }

  /** The latency falls into one of the first `i` buckets. */
  predicate UpTo(ms: nat, i: nat)
    requires i <= BUCKET_COUNT
  {
    0 < i && (i <= |BOUNDS_MS| ==> ms <= BOUNDS_MS[i - 1])
  }

  lemma BucketIsGap(ms: nat, i: nat)
    requires i < BUCKET_COUNT
    ensures InBucket(ms, i) <==> UpTo(ms, i + 1) && !UpTo(ms, i)
    ensures UpTo(ms, i) ==> UpTo(ms, i + 1)
  {
  }

  lemma BelowPush(latencies: seq<nat>, ms: nat, i: nat)
    requires i <= BUCKET_COUNT
    ensures Below(latencies + [ms], i) ==
            Below(latencies, i) + if UpTo(ms, i) then 1 else 0
  {
    if 0 < i <= |BOUNDS_MS| {
      FilterPush(AtMost(BOUNDS_MS[i - 1]), latencies, ms);
    }
  }

  /** What the latencies of one bucket add to the rendered sum. */
  ghost function BucketSum(latencies: seq<nat>, i: nat): nat
    requires i < BUCKET_COUNT
  {
    MIDPOINTS_MS[i] * |Filter(Bucket(i), latencies)|
  }

  ghost function BucketSums(latencies: seq<nat>): nat -> int {
    (i: nat) => if i < BUCKET_COUNT then BucketSum(latencies, i) else 0
  }

  ghost function IndexSum(f: nat -> int, n: nat): int {
    if n == 0 then 0 else IndexSum(f, n - 1) + f(n - 1)
  }

  /** The sum over the first `n` buckets. */
  ghost function MidpointSum(latencies: seq<nat>, n: nat): int { IndexSum(BucketSums(latencies), n) }

  lemma {:induction false} RaiseIndex(f: nat -> int, g: nat -> int, n: nat, k: nat, amount: int)
    requires forall i :: 0 <= i < n ==> g(i) == f(i) + if i == k then amount else 0
    ensures IndexSum(g, n) == IndexSum(f, n) + if k < n then amount else 0
  {
    if n > 0 {
      RaiseIndex(f, g, n - 1, k, amount);
    }
  }

  lemma MulSucc(m: nat, k: nat)
    ensures m * (k + 1) == m * k + m
  {
  }

  lemma BucketSumPush(latencies: seq<nat>, ms: nat, i: nat)
    requires i < BUCKET_COUNT
    ensures BucketSum(latencies + [ms], i) == BucketSum(latencies, i) + if i == BucketOf(ms) then MidpointOf(ms) else 0
  {
    FilterPush(Bucket(i), latencies, ms);
    OneBucket(ms, BucketOf(ms));
    MulSucc(MIDPOINTS_MS[i], |Filter(Bucket(i), latencies)|);
  }

  lemma MidpointSumPush(latencies: seq<nat>, ms: nat)
    ensures MidpointSum(latencies + [ms], BUCKET_COUNT) == MidpointSum(latencies, BUCKET_COUNT) + MidpointOf(ms)
  {
    var f, g := BucketSums(latencies), BucketSums(latencies + [ms]);
    forall i: nat | i < BUCKET_COUNT ensures g(i) == f(i) + if i == BucketOf(ms) then MidpointOf(ms) else 0 {
      BucketSumPush(latencies, ms, i);
    }
    RaiseIndex(f, g, BUCKET_COUNT, BucketOf(ms), MidpointOf(ms));
    assert BucketOf(ms) < BUCKET_COUNT;
  }

  lemma {:induction false} MidpointSumIsSum(latencies: seq<nat>)
    ensures MidpointSum(latencies, BUCKET_COUNT) == SumBy(MidpointOf, latencies)
  {
    if latencies == [] {
      NoLatencies(BUCKET_COUNT);
    } else {
      var front, last := latencies[..|latencies| - 1], latencies[|latencies| - 1];
      MidpointSumIsSum(front);
      MidpointSumPush(front, last);
      FrontLast(latencies);
    }
  }

  lemma {:induction false} NoLatencies(n: nat)
    requires n <= BUCKET_COUNT
    ensures MidpointSum([], n) == 0
  {
    if n > 0 {
      NoLatencies(n - 1);
      assert BucketSum([], n - 1) == MIDPOINTS_MS[n - 1] * 0;
    }
  }

  function Itself(ms: nat): int { ms }

  /** If no latency exceeds the last bound, the rendered sum is off by at most 25 per query. */
  lemma {:induction false} SumIsClose(latencies: seq<nat>)
    requires forall ms :: ms in latencies ==> ms <= 100
    ensures -25 * |latencies| <= SumBy(MidpointOf, latencies) - SumBy(Itself, latencies) <= 25 * |latencies|
  {
    if latencies != [] {
      var front, last := latencies[..|latencies| - 1], latencies[|latencies| - 1];
      FrontLast(latencies);
      assert last in latencies && forall ms :: ms in front ==> ms in latencies;
      SumIsClose(front);
      assert -25 <= MidpointOf(last) - last <= 25;
    }
  }

  /** The midpoint of each latency; past the last bound it is 150. */
  lemma MidpointIs(ms: nat)
    ensures MidpointOf(ms) == if ms <= 1 then 0 else if ms <= 5 then 3 else if ms <= 10 then 7 else if ms <= 25 then 17
                              else if ms <= 50 then 37 else if ms <= 100 then 75 else 150
  {
  }

  ghost function UpToMs(latencies: seq<nat>, bound: nat): nat { |Filter(AtMost(bound), latencies)| }

  /** The rendered sum by how many latencies lie up to each bound; every latency above 100 ms
      counts as 150. */
  lemma {:induction false} SumByBounds(latencies: seq<nat>)
    ensures SumBy(MidpointOf, latencies) ==
            3 * (UpToMs(latencies, 5) - UpToMs(latencies, 1)) + 7 * (UpToMs(latencies, 10) - UpToMs(latencies, 5))
            + 17 * (UpToMs(latencies, 25) - UpToMs(latencies, 10)) + 37 * (UpToMs(latencies, 50) - UpToMs(latencies, 25))
            + 75 * (UpToMs(latencies, 100) - UpToMs(latencies, 50)) + 150 * (|latencies| - UpToMs(latencies, 100))
  {
    if latencies != [] {
      var front, last := latencies[..|latencies| - 1], latencies[|latencies| - 1];
      FrontLast(latencies);
      SumByBounds(front);
      MidpointIs(last);
      forall bound ensures UpToMs(latencies, bound) == UpToMs(front, bound) + if last <= bound then 1 else 0 {
        FilterPush(AtMost(bound), front, last);
      }
    }
  }

  /** The seven rendered values count the latencies of up to 1, 5, 10, 25, 50 and 100 ms, and
      all of them. */
  lemma CumulativeIs(latencies: seq<nat>, values: seq<nat>)
    requires |values| == BUCKET_COUNT && IsCumulative(latencies, values)
    ensures values == [UpToMs(latencies, 1), UpToMs(latencies, 5), UpToMs(latencies, 10), UpToMs(latencies, 25),
                       UpToMs(latencies, 50), UpToMs(latencies, 100), |latencies|]
  {
    assert forall i :: 0 <= i < 7 ==> values[i] == Below(latencies, i + 1);
  }

  /** Cumulative values never decrease from one bound to the next. */
  lemma {:induction false} CumulativeMonotone(latencies: seq<nat>, low: nat, high: nat)
    requires low <= high
    ensures |Filter(AtMost(low), latencies)| <= |Filter(AtMost(high), latencies)| <= |latencies|
  {
    if latencies != [] {
      CumulativeMonotone(latencies[..|latencies| - 1], low, high);
    }
  }
}
