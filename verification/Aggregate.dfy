// src/analytics.rs: aggregating authentication facts over canonical buckets.

module Aggregate {
  import opened Numbers
  import opened Histogram
  import opened Buckets

  // The summed facts of a bucket: attempts, successes, failures, denials, active accounts, latency count,
  // latency sum, and then the twelve cumulative counts.
  const COLUMNS: nat := 19
  const CUMULATIVE: nat := 7

  function AuthColumn(b: TelemetryBucket, c: nat): nat {
    MetricColumn(b.authentication, c)
  }

  function MetricColumn(authentication: Option<AuthenticationMetrics>, c: nat): nat {
    if authentication.None? then 0
    else
      var m := authentication.value;
      if c == 0 then m.attempts
      else if c == 1 then m.successes
      else if c == 2 then m.failures
      else if c == 3 then m.denials
      else if c == 4 then m.activeAccounts
      else if m.latency.None? then 0
      else if c == 5 then m.latency.value.count
      else if c == 6 then m.latency.value.sum
      else if c - CUMULATIVE < |m.latency.value.cumulative| then m.latency.value.cumulative[c - CUMULATIVE]
      else 0
  }

  function Column(c: nat): TelemetryBucket -> nat {
    b => AuthColumn(b, c)
  }

  function Total(bs: seq<TelemetryBucket>, c: nat): nat {
    Sum(bs, Column(c))
  }

  predicate CarriesAuthentication(bs: seq<TelemetryBucket>) {
    exists i :: 0 <= i < |bs| && bs[i].authentication.Some?
  }

  datatype Rollup = Rollup(
    attempts: nat, successes: nat, failures: nat, denials: nat, rateNumerator: nat, rateDenominator: nat,
    activeAccounts: nat, profile: i32, latencyCount: nat, latencySum: nat, cumulative: seq<nat>, p95: Option<nat>)

  function CumulativeTotals(bs: seq<TelemetryBucket>): seq<nat> {
    if CarriesAuthentication(bs) then seq<nat>(12, i requires 0 <= i < 12 => Total(bs, CUMULATIVE + i)) else []
  }

  // What the aggregate means: every field is the total of that field over the buckets.
  function RollupOf(bs: seq<TelemetryBucket>): Rollup {
    var counts := CumulativeTotals(bs);
    Rollup(Total(bs, 0), Total(bs, 1), Total(bs, 2), Total(bs, 3), Total(bs, 1), Total(bs, 0), Total(bs, 4),
           PROFILE_INTERACTIVE, Total(bs, 5), Total(bs, 6), counts,
           QuantileUpperBound(INTERACTIVE_BOUNDS, counts, 95, 100))
  }

  ghost predicate AllValid(bs: seq<TelemetryBucket>) {
    forall i :: 0 <= i < |bs| ==> ValidBucket(bs[i])
  }

  lemma MembersAreValid(some: seq<TelemetryBucket>, bs: seq<TelemetryBucket>)
    requires AllValid(bs) && forall i :: 0 <= i < |some| ==> some[i] in bs
    ensures AllValid(some)
  {
  }

  ghost predicate TotalsFit(bs: seq<TelemetryBucket>) {
    forall c :: 0 <= c < COLUMNS ==> Total(bs, c) <= U64_MAX
  }

  datatype Result<+T> = Ok(value: T) | Rejected | Overflowed

  lemma TotalStep(bs: seq<TelemetryBucket>, n: nat, c: nat)
    requires n < |bs|
    ensures Total(bs[..n + 1], c) == Total(bs[..n], c) + AuthColumn(bs[n], c)
    ensures Total(bs[..n + 1], c) <= Total(bs, c)
  {
    SumStep(bs, n, Column(c));
    SumOfPrefix(bs, n + 1, Column(c));
  }

  lemma CarriesStep(bs: seq<TelemetryBucket>, n: nat)
    requires n < |bs|
    ensures CarriesAuthentication(bs[..n + 1]) <==> CarriesAuthentication(bs[..n]) || bs[n].authentication.Some?
  {
    assert forall j :: 0 <= j < n ==> bs[..n + 1][j] == bs[..n][j];
    assert bs[..n + 1][n] == bs[n];
  }

  lemma {:induction false} NothingCarried(bs: seq<TelemetryBucket>, c: nat)
    requires !CarriesAuthentication(bs)
    ensures Total(bs, c) == 0
  {
    if bs != [] {
      CarriesStep(bs, |bs| - 1);
      assert bs[..|bs|] == bs;
      NothingCarried(bs[..|bs| - 1], c);
    }
  }

  // The running totals of the loop: the seven scalars, the profile seen and the cumulative counts.
  datatype Accumulator = Accumulator(scalars: seq<u64>, profile: Option<i32>, counts: seq<u64>)

  ghost predicate ScalarsHold(scalars: seq<nat>, bs: seq<TelemetryBucket>) {
    |scalars| == 7 && forall c :: 0 <= c < 7 ==> scalars[c] == Total(bs, c)
  }

  ghost predicate CountsHold(counts: seq<nat>, bs: seq<TelemetryBucket>) {
    |counts| == 12 && forall i :: 0 <= i < 12 ==> counts[i] == Total(bs, CUMULATIVE + i)
  }

  ghost predicate Represents(acc: Accumulator, bs: seq<TelemetryBucket>) {
    && ScalarsHold(acc.scalars, bs)
    && acc.profile == (if CarriesAuthentication(bs) then Some(PROFILE_INTERACTIVE) else None)
    && acc.counts == CumulativeTotals(bs)
  }

  // The scalars and the counts that one bucket adds.
  function Facts(m: AuthenticationMetrics, h: LatencyHistogram): seq<u64> {
    [m.attempts, m.successes, m.failures, m.denials, m.activeAccounts, h.count, h.sum]
  }

  method AddMetrics(acc: Accumulator, ghost bs: seq<TelemetryBucket>, b: TelemetryBucket) returns (r: Option<Accumulator>)
    requires Represents(acc, bs) && b.authentication.Some? && ValidAuthentication(b.authentication.value)
    ensures r.Some? <==> TotalsFit(bs + [b])
    ensures r.Some? ==> Represents(r.value, bs + [b])
  {
    var m := b.authentication.value;
    var histogram := m.latency.value;
    var counts := acc.counts;
    if acc.profile.None? {
      counts := seq(|histogram.cumulative|, _ => 0);
    }
    CountsResized(counts, bs);
    MetricsAdvance(acc.scalars, counts, bs, b);
    var scalars := AddChecked(acc.scalars, Facts(m, histogram));
    if scalars.None? { return None; }
    var sums := AddChecked(counts, histogram.cumulative);
    if sums.None? { return None; }
    ExtendTotals(bs, b);
    return Some(Accumulator(scalars.value, Some(histogram.profile), sums.value));
  }

  lemma CountsResized(counts: seq<nat>, bs: seq<TelemetryBucket>)
    requires |counts| == 12
    requires if CarriesAuthentication(bs) then counts == CumulativeTotals(bs)
             else forall i :: 0 <= i < 12 ==> counts[i] == 0
    ensures CountsHold(counts, bs)
  {
    forall c | !CarriesAuthentication(bs) ensures Total(bs, c) == 0 {
      NothingCarried(bs, c);
    }
  }

  lemma MetricsAdvance(scalars: seq<nat>, counts: seq<nat>, bs: seq<TelemetryBucket>, b: TelemetryBucket)
    requires ScalarsHold(scalars, bs) && CountsHold(counts, bs)
    requires b.authentication.Some? && b.authentication.value.latency.Some?
    requires |b.authentication.value.latency.value.cumulative| == 12
    ensures var m, h := b.authentication.value, b.authentication.value.latency.value;
            && ScalarsHold(AddColumns(scalars, Facts(m, h)), bs + [b])
            && CountsHold(AddColumns(counts, h.cumulative), bs + [b])
            && (TotalsFit(bs + [b])
                <==> (forall c :: 0 <= c < 7 ==> AddColumns(scalars, Facts(m, h))[c] <= U64_MAX)
                     && (forall i :: 0 <= i < 12 ==> AddColumns(counts, h.cumulative)[i] <= U64_MAX))
  {
    var m, h := b.authentication.value, b.authentication.value.latency.value;
    ExtendTotals(bs, b);
    var s, t := AddColumns(scalars, Facts(m, h)), AddColumns(counts, h.cumulative);
    assert forall c :: 0 <= c < 7 ==> Facts(m, h)[c] == AuthColumn(b, c);
    assert forall i :: 0 <= i < 12 ==> h.cumulative[i] == AuthColumn(b, CUMULATIVE + i);
    FitsByParts(s, t, bs + [b]);
  }

  lemma FitsByParts(scalars: seq<nat>, counts: seq<nat>, bs: seq<TelemetryBucket>)
    requires ScalarsHold(scalars, bs) && CountsHold(counts, bs)
    ensures TotalsFit(bs) <==> (forall c :: 0 <= c < 7 ==> scalars[c] <= U64_MAX)
                               && (forall i :: 0 <= i < 12 ==> counts[i] <= U64_MAX)
  {
    assert forall c :: CUMULATIVE <= c < COLUMNS ==> Total(bs, c) == counts[c - CUMULATIVE];
  }

  lemma ExtendTotals(bs: seq<TelemetryBucket>, b: TelemetryBucket)
    ensures forall c :: Total(bs + [b], c) == Total(bs, c) + AuthColumn(b, c)
    ensures CarriesAuthentication(bs + [b]) <==> CarriesAuthentication(bs) || b.authentication.Some?
  {
    assert (bs + [b])[..|bs|] == bs && (bs + [b])[..|bs| + 1] == bs + [b];
    forall c ensures Total(bs + [b], c) == Total(bs, c) + AuthColumn(b, c) {
      TotalStep(bs + [b], |bs|, c);
    }
    CarriesStep(bs + [b], |bs|);
  }

  method Accumulate(acc: Accumulator, ghost bs: seq<TelemetryBucket>, b: TelemetryBucket) returns (r: Result<Accumulator>)
    requires Represents(acc, bs) && TotalsFit(bs)
    ensures r.Ok? <==> ValidBucket(b) && TotalsFit(bs + [b])
    ensures r.Ok? ==> Represents(r.value, bs + [b])
    ensures r.Rejected? ==> !ValidBucket(b)
    ensures r.Overflowed? ==> !TotalsFit(bs + [b])
  {
    var verdict := ValidateBucket(b);
    if verdict != Valid { return Rejected; }
    if b.authentication.None? {
      ExtendTotals(bs, b);
      return Ok(acc);
    }
    var next := AddMetrics(acc, bs, b);
    return if next.Some? then Ok(next.value) else Overflowed;
  }

  // Succeeds exactly when every bucket is valid and every field total fits 64 bits.
  method AggregateAuthentication(bs: seq<TelemetryBucket>) returns (r: Result<Rollup>)
    ensures r.Ok? <==> AllValid(bs) && TotalsFit(bs)
    ensures r.Ok? ==> r.value == RollupOf(bs)
    ensures r.Rejected? ==> !AllValid(bs)
    ensures r.Overflowed? ==> !TotalsFit(bs)
  {
    var acc := Accumulator([0, 0, 0, 0, 0, 0, 0], None, []);
    for n := 0 to |bs|
      invariant (forall i :: 0 <= i < n ==> ValidBucket(bs[i]))
      invariant TotalsFit(bs[..n]) && Represents(acc, bs[..n])
    {
      assert bs[..n + 1] == bs[..n] + [bs[n]];
      var next := Accumulate(acc, bs[..n], bs[n]);
      if next.Rejected? { return Rejected; }
      if next.Overflowed? {
        PrefixFits(bs, n + 1);
        return Overflowed;
      }
      acc := next.value;
    }
    assert bs[..|bs|] == bs;
    FinishedRollup(acc, bs);
    return Ok(Finish(acc));
  }

  function Finish(acc: Accumulator): Rollup
    requires |acc.scalars| == 7
  {
    var profile := if acc.profile.Some? then acc.profile.value else PROFILE_INTERACTIVE;
    var s := acc.scalars;
    Rollup(s[0], s[1], s[2], s[3], s[1], s[0], s[4], profile, s[5], s[6], acc.counts,
           QuantileUpperBound(Bounds(profile), acc.counts, 95, 100))
  }

  lemma FinishedRollup(acc: Accumulator, bs: seq<TelemetryBucket>)
    requires Represents(acc, bs)
    ensures Finish(acc) == RollupOf(bs)
  {
  }

  lemma PrefixFits(bs: seq<TelemetryBucket>, n: nat)
    requires n <= |bs|
    ensures TotalsFit(bs) ==> TotalsFit(bs[..n])
  {
    forall c | 0 <= c < COLUMNS
      ensures Total(bs[..n], c) <= Total(bs, c)
    {
      SumOfPrefix(bs, n, Column(c));
    }
  }

  // ------------------------------------------------------------ order and grouping do not matter

  lemma OrderDoesNotMatter(bs: seq<TelemetryBucket>, cs: seq<TelemetryBucket>)
    requires multiset(bs) == multiset(cs)
    ensures AllValid(bs) <==> AllValid(cs)
    ensures TotalsFit(bs) <==> TotalsFit(cs)
    ensures RollupOf(bs) == RollupOf(cs)
  {
    SameMembers(bs, cs);
    SameMembers(cs, bs);
    forall c ensures Total(bs, c) == Total(cs, c) {
      SumIgnoresOrder(bs, cs, Column(c));
    }
    assert CumulativeTotals(bs) == CumulativeTotals(cs);
  }

  lemma SameMembers(bs: seq<TelemetryBucket>, cs: seq<TelemetryBucket>)
    requires multiset(bs) == multiset(cs)
    ensures AllValid(bs) ==> AllValid(cs)
    ensures CarriesAuthentication(bs) ==> CarriesAuthentication(cs)
  {
    forall i | 0 <= i < |cs|
      ensures exists j :: 0 <= j < |bs| && bs[j] == cs[i]
    {
      assert cs[i] in multiset(bs);
    }
    if CarriesAuthentication(bs) {
      var i :| 0 <= i < |bs| && bs[i].authentication.Some?;
      assert bs[i] in multiset(cs);
    }
  }

  function MergeCounts(a: seq<nat>, b: seq<nat>): seq<nat> {
    if a == [] then b else if b == [] then a else if |a| == |b| then AddColumns(a, b) else []
  }

  // Merging two aggregates: counters add, histograms merge, the percentile is taken afterwards.
  function MergeRollups(a: Rollup, b: Rollup): Rollup {
    var counts := MergeCounts(a.cumulative, b.cumulative);
    Rollup(a.attempts + b.attempts, a.successes + b.successes, a.failures + b.failures, a.denials + b.denials,
           a.rateNumerator + b.rateNumerator, a.rateDenominator + b.rateDenominator,
           a.activeAccounts + b.activeAccounts, a.profile, a.latencyCount + b.latencyCount,
           a.latencySum + b.latencySum, counts, QuantileUpperBound(INTERACTIVE_BOUNDS, counts, 95, 100))
  }

  lemma GroupingDoesNotMatter(bs: seq<TelemetryBucket>, cs: seq<TelemetryBucket>)
    ensures RollupOf(bs + cs) == MergeRollups(RollupOf(bs), RollupOf(cs))
  {
    TotalsOfConcat(bs, cs);
    CountsOfConcat(bs, cs);
  }

  lemma TotalsOfConcat(bs: seq<TelemetryBucket>, cs: seq<TelemetryBucket>)
    ensures forall c :: Total(bs + cs, c) == Total(bs, c) + Total(cs, c)
  {
    forall c ensures Total(bs + cs, c) == Total(bs, c) + Total(cs, c) {
      SumOfConcat(bs, cs, Column(c));
    }
  }

  lemma {:induction false} CarriesOfConcat(bs: seq<TelemetryBucket>, cs: seq<TelemetryBucket>)
    ensures CarriesAuthentication(bs + cs) <==> CarriesAuthentication(bs) || CarriesAuthentication(cs)
  {
    assert forall i :: 0 <= i < |bs| ==> (bs + cs)[i] == bs[i];
    assert forall i :: 0 <= i < |cs| ==> (bs + cs)[|bs| + i] == cs[i];
  }

  lemma CountsOfConcat(bs: seq<TelemetryBucket>, cs: seq<TelemetryBucket>)
    ensures CumulativeTotals(bs + cs) == MergeCounts(CumulativeTotals(bs), CumulativeTotals(cs))
  {
    TotalsOfConcat(bs, cs);
    CarriesOfConcat(bs, cs);
    var a, b, both := CumulativeTotals(bs), CumulativeTotals(cs), CumulativeTotals(bs + cs);
    if !CarriesAuthentication(bs) {
      forall c ensures Total(bs, c) == 0 {
        NothingCarried(bs, c);
      }
      assert both == b;
    } else if !CarriesAuthentication(cs) {
      forall c ensures Total(cs, c) == 0 {
        NothingCarried(cs, c);
      }
      assert both == a;
    } else {
      assert both == AddColumns(a, b);
    }
  }

  // ------------------------------------------------------------ what every aggregate keeps

  lemma {:induction false} OutcomesAddUp(bs: seq<TelemetryBucket>)
    requires AllValid(bs)
    ensures Total(bs, 0) == Total(bs, 1) + Total(bs, 2) + Total(bs, 3)
    ensures Total(bs, 5) == Total(bs, 0) && Total(bs, CUMULATIVE + 11) == Total(bs, 5)
  {
    if bs != [] {
      OutcomesAddUp(bs[..|bs| - 1]);
      assert ValidBucket(bs[|bs| - 1]);
    }
  }

  lemma ColumnsMonotone(b: TelemetryBucket, i: nat, j: nat)
    requires ValidBucket(b) && i < j < 12
    ensures AuthColumn(b, CUMULATIVE + i) <= AuthColumn(b, CUMULATIVE + j)
  {
  }

  lemma TotalsMonotone(bs: seq<TelemetryBucket>, i: nat, j: nat)
    requires AllValid(bs) && i < j < 12
    ensures Total(bs, CUMULATIVE + i) <= Total(bs, CUMULATIVE + j)
  {
    forall k | 0 <= k < |bs|
      ensures Column(CUMULATIVE + i)(bs[k]) <= Column(CUMULATIVE + j)(bs[k])
    {
      ColumnsMonotone(bs[k], i, j);
    }
    SumMonotone(bs, Column(CUMULATIVE + i), Column(CUMULATIVE + j));
  }

  lemma CumulativeStaysMonotone(bs: seq<TelemetryBucket>)
    requires AllValid(bs)
    ensures NonDecreasing(CumulativeTotals(bs))
    ensures CarriesAuthentication(bs) ==> |CumulativeTotals(bs)| == 12 && CumulativeTotals(bs)[11] == Total(bs, 5)
  {
    OutcomesAddUp(bs);
    var counts := CumulativeTotals(bs);
    forall i, j | 0 <= i < j < |counts|
      ensures counts[i] <= counts[j]
    {
      TotalsMonotone(bs, i, j);
    }
  }

  // No field of a valid bucket exceeds the latency sum allowed for a full bucket.
  lemma ColumnBound(b: TelemetryBucket, c: nat)
    requires ValidBucket(b) && c < COLUMNS
    ensures AuthColumn(b, c) <= MAX_COUNTER * MILLISECONDS_PER_DAY
  {
    if b.authentication.Some? {
      var m := b.authentication.value;
      var counters := [m.attempts, m.successes, m.failures, m.denials, m.activeAccounts];
      assert counters[0] <= MAX_COUNTER && counters[1] <= MAX_COUNTER && counters[2] <= MAX_COUNTER
          && counters[3] <= MAX_COUNTER && counters[4] <= MAX_COUNTER;
      var counts := m.latency.value.cumulative;
      if CUMULATIVE <= c < COLUMNS - 1 {
        assert counts[c - CUMULATIVE] <= counts[11];
      }
    }
  }

  const SAFE_BUCKETS: nat := 213

  lemma FewBucketsNeverOverflow(bs: seq<TelemetryBucket>)
    requires AllValid(bs) && |bs| <= SAFE_BUCKETS
    ensures TotalsFit(bs)
  {
    forall c | 0 <= c < COLUMNS
      ensures Total(bs, c) <= U64_MAX
    {
      forall i | 0 <= i < |bs|
        ensures Column(c)(bs[i]) <= MAX_COUNTER * MILLISECONDS_PER_DAY
      {
        ColumnBound(bs[i], c);
      }
      SumBounded(bs, Column(c), MAX_COUNTER * MILLISECONDS_PER_DAY);
      assert |bs| * (MAX_COUNTER * MILLISECONDS_PER_DAY) <= SAFE_BUCKETS * (MAX_COUNTER * MILLISECONDS_PER_DAY);
    }
  }

  // The slowest full bucket the contract admits.
  function SlowBucket(): TelemetryBucket {
    TelemetryBucket("r", 1, 0, 300, 1, 0, 0, SCHEMA_V1, true,
      Some(AuthenticationMetrics(MAX_COUNTER, MAX_COUNTER, 0, 0, 0,
        Some(LatencyHistogram(PROFILE_INTERACTIVE, MAX_COUNTER, MAX_COUNTER * MILLISECONDS_PER_DAY,
          [0, 0, 0, 0, 0, 0, 0, 0, 0, 0, 0, MAX_COUNTER], [])),
        [FlowCount(1, MAX_COUNTER, MAX_COUNTER, 0, 0, [])], [], [])),
      None, None, None, None, None, None, [])
  }

  lemma SlowBucketIsValid()
    ensures ValidBucket(SlowBucket())
  {
    var flow := SlowBucket().authentication.value.flows[0];
    SumOfOne(flow, (f: FlowCount) => f.attempts);
    SumOfOne(flow, (f: FlowCount) => f.successes);
    SumOfOne(flow, (f: FlowCount) => f.failures);
    SumOfOne(flow, (f: FlowCount) => f.denials);
  }

  // One bucket more can overflow, so the bound is the best possible.
  lemma OneMoreCanOverflow()
    ensures var bs := seq(SAFE_BUCKETS + 1, _ => SlowBucket());
            AllValid(bs) && Total(bs, 6) > U64_MAX
  {
    SlowBucketIsValid();
    SumOfCopies(SlowBucket(), SAFE_BUCKETS + 1, 6);
  }

  lemma {:induction false} SumOfCopies(b: TelemetryBucket, n: nat, c: nat)
    ensures Total(seq(n, _ => b), c) == n * AuthColumn(b, c)
  {
    if n > 0 {
      SumOfCopies(b, n - 1, c);
      assert seq(n, _ => b)[..n - 1] == seq(n - 1, _ => b);
    }
  }

  // ------------------------------------------------------------ the percentile of the raw latencies

  // Every bucket's histogram counts the latencies observed in it; `None` when it carries no authentication.
  ghost predicate Observed(bs: seq<TelemetryBucket>, latencies: seq<seq<nat>>) {
    && |latencies| == |bs|
    && forall i :: 0 <= i < |bs| ==>
         if bs[i].authentication.None? then latencies[i] == []
         else bs[i].authentication.value.latency.Some?
              && bs[i].authentication.value.latency.value.cumulative == Cumulative(INTERACTIVE_BOUNDS, latencies[i])
  }

  function Flatten(latencies: seq<seq<nat>>): seq<nat> {
    if latencies == [] then [] else Flatten(latencies[..|latencies| - 1]) + latencies[|latencies| - 1]
  }

  lemma {:induction false} TotalsAreTheUnion(bs: seq<TelemetryBucket>, latencies: seq<seq<nat>>, i: nat)
    requires Observed(bs, latencies) && i < 12
    ensures Total(bs, CUMULATIVE + i) == Cumulative(INTERACTIVE_BOUNDS, Flatten(latencies))[i]
  {
    if bs == [] {
      assert Cumulative(INTERACTIVE_BOUNDS, Flatten(latencies))[i] == 0;
    } else {
      var n := |bs| - 1;
      TotalsAreTheUnion(bs[..n], latencies[..n], i);
      MergeIsUnion(INTERACTIVE_BOUNDS, Flatten(latencies[..n]), latencies[n]);
      assert AuthColumn(bs[n], CUMULATIVE + i) == Cumulative(INTERACTIVE_BOUNDS, latencies[n])[i];
    }
  }

  // End to end: the reported bound is the bucket edge of the 95th percentile of all raw latencies.
  lemma ReportedP95(bs: seq<TelemetryBucket>, latencies: seq<seq<nat>>)
    requires Observed(bs, latencies)
    requires |Flatten(latencies)| * 95 + 99 <= U64_MAX
    ensures Flatten(latencies) == [] ==> RollupOf(bs).p95 == None
    ensures Flatten(latencies) != [] ==>
              IsEdgeOf(INTERACTIVE_BOUNDS, RollupOf(bs).p95, Percentile(Flatten(latencies), 95, 100))
  {
    var all := Flatten(latencies);
    forall i | 0 <= i < 12
      ensures Total(bs, CUMULATIVE + i) == Cumulative(INTERACTIVE_BOUNDS, all)[i]
    {
      TotalsAreTheUnion(bs, latencies, i);
    }
    InteractiveIncreasing();
    QuantileIsThePercentilesEdge(INTERACTIVE_BOUNDS, all, 95, 100);
    if CarriesAuthentication(bs) {
      assert CumulativeTotals(bs) == Cumulative(INTERACTIVE_BOUNDS, all);
    } else {
      NothingCarried(bs, CUMULATIVE + 11);
    }
  }
}
