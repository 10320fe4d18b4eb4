// Ranges, series and overviews: src/analytics_rpc.rs (the fleet's) and src/metrics_rpc.rs (a realm's own).

module Series {
  import opened Numbers
  import opened Buckets
  import opened Aggregate

  // ------------------------------------------------------------ ranges

  const MAX_RANGE_MILLISECONDS: int := 2_419_200_000
  const MAX_FUTURE_SKEW_MILLISECONDS: int := 300_000
  const WEEK_MILLISECONDS: int := 604_800_000
  const I64_MAX: int := 0x7FFF_FFFF_FFFF_FFFF

  function Align(value: nat, step: nat): nat
    requires step > 0
  {
    ModAtMost(value, step);
    value - value % step
  }

  predicate Multiple(m: nat, step: nat)
    requires step > 0
  {
    m % step == 0
  }

  lemma AlignIsBelow(value: nat, step: nat)
    requires step > 0
    ensures Multiple(Align(value, step), step) && Align(value, step) <= value < Align(value, step) + step
  {
    var q := value / step;
    assert Align(value, step) == q * step;
    UniqueRemainder(q * step, q, 0, step);
  }

  // No multiple of the step lies between an instant and its alignment.
  lemma AlignIsGreatest(value: nat, step: nat, m: nat)
    requires step > 0 && Multiple(m, step) && m <= value
    ensures m <= Align(value, step)
  {
    var q, p := value / step, m / step;
    assert m == p * step && value == q * step + value % step;
    MulMonotone(q + 1, p, step);
    MulMonotone(p, q, step);
    assert (q + 1) * step == q * step + step;
  }

  lemma AlignMonotone(a: nat, b: nat, step: nat)
    requires step > 0 && a <= b
    ensures Align(a, step) <= Align(b, step)
  {
    AlignIsBelow(a, step);
    AlignIsGreatest(b, step, Align(a, step));
  }

  datatype Range = Range(starts: nat, ends: nat, step: nat, granularity: i32)

  const FIVE_MINUTES: i32 := 1
  const ONE_HOUR: i32 := 2
  const ONE_DAY: i32 := 3

  function StepOf(granularity: i32): nat {
    if granularity == FIVE_MINUTES then 300_000 else if granularity == ONE_HOUR then 3_600_000 else 86_400_000
  }

  function EffectiveRange(starts: i64, ends: i64, granularity: i32, now: nat): Option<Range> {
    var duration := ends as int - starts;
    if duration > I64_MAX || duration <= 0 || duration > MAX_RANGE_MILLISECONDS then None
    else if starts < 0 || ends > Min(now + MAX_FUTURE_SKEW_MILLISECONDS, I64_MAX) then None
    else if granularity < 0 || granularity > ONE_DAY then None
    else
      var chosen := if granularity != 0 then granularity else if duration <= WEEK_MILLISECONDS then FIVE_MINUTES else ONE_HOUR;
      var step := StepOf(chosen);
      Some(Range(Align(starts, step), Align(Min(ends + step - 1, I64_MAX), step), step, chosen))
  }

  ghost predicate Covers(from: nat, to: nat, starts: nat, ends: nat, step: nat)
    requires step > 0
  {
    Multiple(from, step) && Multiple(to, step) && from <= starts && ends <= to
  }

  // The effective range is the smallest step-aligned range that covers the request.
  lemma RangeIsTheSmallestCover(starts: i64, ends: i64, granularity: i32, now: nat, r: Range)
    requires EffectiveRange(starts, ends, granularity, now) == Some(r) && now + 86_700_000 <= I64_MAX
    ensures r.step > 0 && Covers(r.starts, r.ends, starts, ends, r.step)
    ensures forall from: nat, to: nat :: Covers(from, to, starts, ends, r.step) ==> from <= r.starts && r.ends <= to
  {
    AlignIsBelow(starts, r.step);
    AlignIsBelow(ends + r.step - 1, r.step);
    forall from: nat, to: nat | Covers(from, to, starts, ends, r.step)
      ensures from <= r.starts && r.ends <= to
    {
      AlignIsGreatest(starts, r.step, from);
      if to < r.ends {
        NextMultiple(to, r.ends, r.step);
      }
    }
  }

  // Which ranges are answered, and at which granularity: the one asked for, or else five minutes for up to a week and an
  // hour beyond, so that there are never more than two thousand and seventeen points.
  lemma RangeIsGivenExactly(starts: i64, ends: i64, granularity: i32, now: nat, r: Option<Range>)
    requires r == EffectiveRange(starts, ends, granularity, now) && now + 86_700_000 <= I64_MAX
    ensures r.Some? <==> 0 <= starts < ends && ends - starts <= 28 * 86_400_000 && ends <= now + 300_000
                         && (granularity == 0 || granularity == FIVE_MINUTES || granularity == ONE_HOUR || granularity == ONE_DAY)
    ensures r.Some? && granularity != 0 ==> r.value.granularity == granularity
    ensures r.Some? && granularity == 0 ==>
              r.value.granularity == if ends - starts <= 7 * 86_400_000 then FIVE_MINUTES else ONE_HOUR
    ensures r.Some? ==> r.value.step == if r.value.granularity == FIVE_MINUTES then 300_000
                                        else if r.value.granularity == ONE_HOUR then 3_600_000 else 86_400_000
    ensures r.Some? && granularity == 0 ==> r.value.ends - r.value.starts <= 2_017 * r.value.step
  {
    if r.Some? {
      AlignIsBelow(starts, r.value.step);
      AlignIsBelow(ends + r.value.step - 1, r.value.step);
      if granularity == 0 {
        RangeIsTheSmallestCover(starts, ends, granularity, now, r.value);
        PointsBounded(starts, ends, r.value);
      }
    }
  }

  lemma PointsBounded(starts: nat, ends: nat, r: Range)
    requires (r.step == 300_000 && ends - starts <= 2_016 * r.step) || (r.step == 3_600_000 && ends - starts <= 672 * r.step)
    requires starts < ends && r.starts == Align(starts, r.step) && r.ends == Align(ends + r.step - 1, r.step)
    ensures r.ends - r.starts <= 2_017 * r.step
  {
    if r.step == 300_000 {
      assert r.starts == 300_000 * (starts / 300_000) && r.ends == 300_000 * ((ends + 299_999) / 300_000);
    } else {
      assert r.starts == 3_600_000 * (starts / 3_600_000) && r.ends == 3_600_000 * ((ends + 3_599_999) / 3_600_000);
    }
  }

  lemma NextMultiple(a: nat, b: nat, step: nat)
    requires step > 0 && Multiple(a, step) && Multiple(b, step) && a < b
    ensures a + step <= b
  {
    var p, q := a / step, b / step;
    assert a == p * step && b == q * step;
    MulMonotone(q, p, step);
    MulMonotone(p + 1, q, step);
    assert (p + 1) * step == p * step + step;
  }

  // ------------------------------------------------------------ grouping

  function KeyOf(b: TelemetryBucket, step: nat): int
    requires step > 0
  {
    b.start - b.start % step
  }

  // The records of one point, in order.
  function Those(records: seq<TelemetryBucket>, step: nat, key: int): seq<TelemetryBucket>
    requires step > 0
  {
    if records == [] then []
    else
      var rest, b := Those(records[..|records| - 1], step, key), records[|records| - 1];
      if KeyOf(b, step) == key then rest + [b] else rest
  }

  // The key of a record is the window it starts in.
  lemma KeyIsTheWindow(b: TelemetryBucket, step: nat, key: nat)
    requires step > 0 && b.start >= 0 && Multiple(key, step)
    ensures KeyOf(b, step) == key <==> key <= b.start < key + step
  {
    AlignIsBelow(b.start, step);
    if key <= b.start < key + step {
      AlignIsGreatest(b.start, step, key);
      if key < Align(b.start, step) {
        NextMultiple(key, Align(b.start, step), step);
      }
    }
  }

  // So a point has exactly the records that start in its window.
  lemma {:induction false} ThoseExactly(records: seq<TelemetryBucket>, step: nat, key: nat, b: TelemetryBucket)
    requires step > 0 && Multiple(key, step) && b.start >= 0
    ensures b in Those(records, step, key) <==> b in records && key <= b.start < key + step
  {
    if records != [] {
      var init, last := records[..|records| - 1], records[|records| - 1];
      assert records == init + [last];
      ThoseExactly(init, step, key, b);
      KeyIsTheWindow(b, step, key);
    }
  }

  ghost predicate Increasing(keys: seq<int>) {
    forall i, j :: 0 <= i < j < |keys| ==> keys[i] < keys[j]
  }

  // An ordered map keeps its keys in order.
  function InsertKey(keys: seq<int>, key: int): seq<int> {
    if keys == [] || key < keys[0] then [key] + keys
    else if key == keys[0] then keys
    else [keys[0]] + InsertKey(keys[1..], key)
  }

  lemma {:induction false} InsertKeyKeeps(keys: seq<int>, key: int)
    requires Increasing(keys)
    ensures Increasing(InsertKey(keys, key)) && forall k :: k in InsertKey(keys, key) <==> k in keys || k == key
  {
    if keys != [] {
      assert keys == [keys[0]] + keys[1..];
      if key > keys[0] {
        InsertKeyKeeps(keys[1..], key);
        assert forall k :: k in InsertKey(keys[1..], key) ==> keys[0] < k;
      }
    }
  }

  method Group(records: seq<TelemetryBucket>, step: nat) returns (groups: map<int, seq<TelemetryBucket>>, keys: seq<int>)
    requires step > 0
    ensures Increasing(keys) && forall key :: key in keys <==> key in groups
    ensures forall key :: key in groups <==> Those(records, step, key) != []
    ensures forall key :: key in groups ==> groups[key] == Those(records, step, key)
  {
    groups, keys := map[], [];
    for i := 0 to |records|
      invariant Increasing(keys) && forall key :: key in keys <==> key in groups
      invariant forall key :: key in groups <==> Those(records[..i], step, key) != []
      invariant forall key :: key in groups ==> groups[key] == Those(records[..i], step, key)
    {
      var key := KeyOf(records[i], step);
      var before := if key in groups then groups[key] else [];
      assert records[..i + 1][..i] == records[..i];
      assert before == Those(records[..i], step, key);
      groups := groups[key := before + [records[i]]];
      InsertKeyKeeps(keys, key);
      keys := InsertKey(keys, key);
    }
    assert records[..|records|] == records;
  }

  // ------------------------------------------------------------ every record in exactly one point

  ghost predicate Distinct(keys: seq<int>) {
    forall i, j :: 0 <= i < j < |keys| ==> keys[i] != keys[j]
  }

  function GroupTotal(records: seq<TelemetryBucket>, step: nat, f: TelemetryBucket -> nat): int -> nat
    requires step > 0
  {
    (key: int) => Sum(Those(records, step, key), f)
  }

  function At(key: int, value: nat): int -> nat {
    (k: int) => if k == key then value else 0
  }

  lemma {:induction false} SumAt(keys: seq<int>, key: int, value: nat)
    requires Distinct(keys)
    ensures Sum(keys, At(key, value)) == if key in keys then value else 0
  {
    if keys != [] {
      var init, last := keys[..|keys| - 1], keys[|keys| - 1];
      assert keys == init + [last];
      SumAt(init, key, value);
    }
  }

  lemma ThoseStep(records: seq<TelemetryBucket>, b: TelemetryBucket, step: nat, key: int, f: TelemetryBucket -> nat)
    requires step > 0
    ensures Sum(Those(records + [b], step, key), f) == Sum(Those(records, step, key), f) + At(KeyOf(b, step), f(b))(key)
  {
    assert (records + [b])[..|records|] == records;
    var those := Those(records, step, key);
    assert (those + [b])[..|those|] == those;
  }

  lemma {:induction false} ZeroEverywhere(keys: seq<int>, step: nat, f: TelemetryBucket -> nat)
    requires step > 0
    ensures Sum(keys, GroupTotal([], step, f)) == 0
  {
    if keys != [] {
      ZeroEverywhere(keys[..|keys| - 1], step, f);
    }
  }

  // Whatever is added up, the points together have what the records have.
  lemma {:induction false} PointsAddUp(records: seq<TelemetryBucket>, step: nat, keys: seq<int>, f: TelemetryBucket -> nat)
    requires step > 0 && Distinct(keys) && forall i :: 0 <= i < |records| ==> KeyOf(records[i], step) in keys
    ensures Sum(keys, GroupTotal(records, step, f)) == Sum(records, f)
  {
    if records == [] {
      ZeroEverywhere(keys, step, f);
    } else {
      var init, b := records[..|records| - 1], records[|records| - 1];
      PointsAddUp(init, step, keys, f);
      assert records == init + [b];
      forall i | 0 <= i < |keys|
        ensures GroupTotal(records, step, f)(keys[i]) == GroupTotal(init, step, f)(keys[i]) + At(KeyOf(b, step), f(b))(keys[i])
      {
        ThoseStep(init, b, step, keys[i], f);
      }
      SumAdds(keys, GroupTotal(init, step, f), At(KeyOf(b, step), f(b)), GroupTotal(records, step, f));
      SumAt(keys, KeyOf(b, step), f(b));
    }
  }

  // ------------------------------------------------------------ metrics

  datatype Metric =
    | Attempts | Successes | Failures | Denials | SuccessRate | P95
    | RegistrationsCompleted | SessionsCreated | ServiceAccountCalls | WebhookFailures

  // What a metric counts in one bucket.
  function Counted(metric: Metric): TelemetryBucket -> nat {
    match metric
    case Attempts => Column(0)
    case Successes | SuccessRate => Column(1)
    case Failures => Column(2)
    case Denials => Column(3)
    case P95 => (b: TelemetryBucket) => 0
    case RegistrationsCompleted => (b: TelemetryBucket) => if b.registration.Some? then b.registration.value.completed else 0
    case SessionsCreated => (b: TelemetryBucket) => if b.sessions.Some? then b.sessions.value.created else 0
    case ServiceAccountCalls => (b: TelemetryBucket) => if b.serviceAccounts.Some? then b.serviceAccounts.value.calls else 0
    case WebhookFailures => (b: TelemetryBucket) => if b.webhooks.Some? then b.webhooks.value.failures else 0
  }

  function Deliveries(): TelemetryBucket -> nat {
    (b: TelemetryBucket) => if b.webhooks.Some? then b.webhooks.value.deliveries else 0
  }

  predicate OfFamily(metric: Metric) {
    metric.RegistrationsCompleted? || metric.SessionsCreated? || metric.ServiceAccountCalls? || metric.WebhookFailures?
  }

  // Checked addition of one number per record.
  method FamilySum(records: seq<TelemetryBucket>, f: TelemetryBucket -> nat) returns (r: Option<u64>)
    ensures r == if Sum(records, f) <= U64_MAX then Some(Sum(records, f)) else None
  {
    var total: nat := 0;
    for i := 0 to |records|
      invariant total == Sum(records[..i], f) <= U64_MAX
    {
      SumStep(records, i, f);
      SumOfPrefix(records, i + 1, f);
      total := total + f(records[i]);
      if total > U64_MAX {
        return None;
      }
    }
    assert records[..|records|] == records;
    return Some(total);
  }

  // `bound` is the value of a percentile point.
  datatype Point = Point(starts: int, numerator: nat, denominator: nat, available: bool, bound: Option<nat>)

  ghost predicate PointSucceeds(records: seq<TelemetryBucket>, metric: Metric) {
    AllValid(records) && TotalsFit(records) && (OfFamily(metric) ==> Sum(records, Counted(metric)) <= U64_MAX)
  }

  function PointOf(starts: int, records: seq<TelemetryBucket>, metric: Metric): Point {
    Point(starts, Sum(records, Counted(metric)), if metric.SuccessRate? then Total(records, 0) else 0,
          (metric.SuccessRate? ==> Total(records, 0) > 0) && (metric.P95? ==> RollupOf(records).p95.Some?),
          if metric.P95? then RollupOf(records).p95 else None)
  }

  method MetricPoint(starts: int, metric: Metric, records: seq<TelemetryBucket>) returns (r: Option<Point>)
    ensures r.Some? <==> PointSucceeds(records, metric)
    ensures r.Some? ==> r.value == PointOf(starts, records, metric)
  {
    var a := AggregateAuthentication(records);
    if !a.Ok? {
      return None;
    }
    match metric
    case Attempts => r := Some(Point(starts, a.value.attempts, 0, true, None));
    case Successes => r := Some(Point(starts, a.value.successes, 0, true, None));
    case Failures => r := Some(Point(starts, a.value.failures, 0, true, None));
    case Denials => r := Some(Point(starts, a.value.denials, 0, true, None));
    case SuccessRate => r := Some(Point(starts, a.value.successes, a.value.attempts, a.value.attempts > 0, None));
    case P95 =>
      ZeroSum(records, Counted(P95));
      r := Some(Point(starts, 0, 0, a.value.p95.Some?, a.value.p95));
    case _ =>
      var n := FamilySum(records, Counted(metric));
      r := if n.None? then None else Some(Point(starts, n.value, 0, true, None));
  }

  // ------------------------------------------------------------ the overview

  datatype Overview = Overview(
    authentication: Rollup, registrations: nat, sessions: nat, serviceCalls: nat, deliveries: nat, webhookFailures: nat)

  ghost predicate OverviewSucceeds(records: seq<TelemetryBucket>) {
    && AllValid(records) && TotalsFit(records) && Sum(records, Deliveries()) <= U64_MAX
    && forall metric: Metric :: OfFamily(metric) ==> Sum(records, Counted(metric)) <= U64_MAX
  }

  // Each sum is checked as it is made.
  method GetOverview(records: seq<TelemetryBucket>) returns (r: Option<Overview>)
    ensures r.Some? <==> OverviewSucceeds(records)
    ensures r.Some? ==>
              r.value == Overview(RollupOf(records), Sum(records, Counted(RegistrationsCompleted)),
                                  Sum(records, Counted(SessionsCreated)), Sum(records, Counted(ServiceAccountCalls)),
                                  Sum(records, Deliveries()), Sum(records, Counted(WebhookFailures)))
  {
    var a := AggregateAuthentication(records);
    if !a.Ok? {
      return None;
    }
    var registrations := FamilySum(records, Counted(RegistrationsCompleted));
    var sessions := FamilySum(records, Counted(SessionsCreated));
    var calls := FamilySum(records, Counted(ServiceAccountCalls));
    var deliveries := FamilySum(records, Deliveries());
    var failures := FamilySum(records, Counted(WebhookFailures));
    if registrations.None? || sessions.None? || calls.None? || deliveries.None? || failures.None? {
      return None;
    }
    return Some(Overview(a.value, registrations.value, sessions.value, calls.value, deliveries.value, failures.value));
  }

  // ------------------------------------------------------------ a series

  // One point for each window that has a record, in order; the series fails if one of them does.
  method QuerySeries(records: seq<TelemetryBucket>, step: nat, metric: Metric) returns (points: Option<seq<Point>>, keys: seq<int>)
    requires step > 0
    ensures Increasing(keys) && forall k :: k in keys <==> Those(records, step, k) != []
    ensures points.Some? <==> forall k :: k in keys ==> PointSucceeds(Those(records, step, k), metric)
    ensures points.Some? ==> |points.value| == |keys|
    ensures points.Some? ==>
              forall i :: 0 <= i < |keys| ==> points.value[i] == PointOf(keys[i], Those(records, step, keys[i]), metric)
  {
    var groups;
    groups, keys := Group(records, step);
    var result: seq<Point> := [];
    for i := 0 to |keys|
      invariant |result| == i && forall j :: 0 <= j < i ==> PointSucceeds(Those(records, step, keys[j]), metric)
      invariant forall j :: 0 <= j < i ==> result[j] == PointOf(keys[j], Those(records, step, keys[j]), metric)
    {
      assert keys[i] in keys;
      var p := MetricPoint(keys[i], metric, groups[keys[i]]);
      if p.None? {
        return None, keys;
      }
      result := result + [p.value];
    }
    return Some(result), keys;
  }

  // ------------------------------------------------------------ series and overview agree

  lemma {:induction false} ThoseAreRecords(records: seq<TelemetryBucket>, step: nat, key: int)
    requires step > 0
    ensures forall i :: 0 <= i < |Those(records, step, key)| ==> Those(records, step, key)[i] in records
    ensures forall f: TelemetryBucket -> nat :: Sum(Those(records, step, key), f) <= Sum(records, f)
  {
    if records != [] {
      var init, b := records[..|records| - 1], records[|records| - 1];
      ThoseAreRecords(init, step, key);
      assert records == init + [b];
      forall f: TelemetryBucket -> nat
        ensures Sum(Those(records, step, key), f) <= Sum(records, f)
      {
        ThoseStep(init, b, step, key, f);
      }
    }
  }

  lemma {:induction false} EveryRecordHasAPoint(records: seq<TelemetryBucket>, step: nat, i: nat)
    requires step > 0 && i < |records|
    ensures Those(records, step, KeyOf(records[i], step)) != []
  {
    if i < |records| - 1 {
      EveryRecordHasAPoint(records[..|records| - 1], step, i);
    }
  }

  // Whenever the overview can be given, every series can, and its numerators add up to the overview's number.
  lemma SeriesAgreesWithOverview(records: seq<TelemetryBucket>, step: nat, keys: seq<int>, metric: Metric)
    requires step > 0 && OverviewSucceeds(records)
    requires Increasing(keys) && forall k :: k in keys <==> Those(records, step, k) != []
    ensures forall k :: PointSucceeds(Those(records, step, k), metric)
    ensures Sum(keys, GroupTotal(records, step, Counted(metric))) == Sum(records, Counted(metric))
    ensures forall k :: PointOf(k, Those(records, step, k), metric).numerator == GroupTotal(records, step, Counted(metric))(k)
  {
    forall k
      ensures PointSucceeds(Those(records, step, k), metric)
    {
      ThoseAreRecords(records, step, k);
      MembersAreValid(Those(records, step, k), records);
      forall c | 0 <= c < COLUMNS
        ensures Total(Those(records, step, k), c) <= Total(records, c)
      {
      }
    }
    forall i | 0 <= i < |records|
      ensures KeyOf(records[i], step) in keys
    {
      EveryRecordHasAPoint(records, step, i);
    }
    PointsAddUp(records, step, keys, Counted(metric));
  }

  // ------------------------------------------------------------ a realm's own series

  // The windows of a query, each once: the grid that the buckets are put on.
  method Grid(starts: nat, ends: nat, width: nat) returns (keys: seq<nat>)
    requires width > 0
    ensures forall i, j :: 0 <= i < j < |keys| ==> keys[i] < keys[j]
    ensures forall k: nat :: k in keys <==> Multiple(k, width) && Align(starts, width) <= k < ends
  {
    keys := [];
    AlignIsBelow(starts, width);
    var next := Align(starts, width);
    while next < ends
      invariant Multiple(next, width) && next >= Align(starts, width)
      invariant forall i :: 0 <= i < |keys| ==> keys[i] < next
      invariant forall i, j :: 0 <= i < j < |keys| ==> keys[i] < keys[j]
      invariant forall k: nat :: k in keys <==> Multiple(k, width) && Align(starts, width) <= k < next && k < ends
    {
      ghost var before := keys;
      keys := keys + [next];
      ModOfSum(next, width, width);
      UniqueRemainder(width, 1, 0, width);
      forall k: nat
        ensures k in keys <==> Multiple(k, width) && Align(starts, width) <= k < next + width && k < ends
      {
        if Multiple(k, width) && next < k {
          NextMultiple(next, k, width);
        }
        assert k in keys <==> k in before || k == next;
      }
      next := next + width;
    }
  }

  // The store returns the five-minute buckets from the window of `starts` to that of `ends - 1`; a delivery counts when
  // it was made inside the range. Neither falls outside the grid.
  lemma InRangeIsOnTheGrid(starts: nat, ends: nat, width: nat, at: nat)
    requires starts < ends && width > 0 && Multiple(width, BUCKET_WIDTH_SECONDS)
    requires starts <= at < ends
             || (Multiple(at, BUCKET_WIDTH_SECONDS)
                 && Align(starts, BUCKET_WIDTH_SECONDS) <= at <= Align(ends - 1, BUCKET_WIDTH_SECONDS))
    ensures Multiple(Align(at, width), width) && Align(starts, width) <= Align(at, width) < ends
  {
    AlignIsBelow(at, width);
    AlignIsBelow(ends - 1, BUCKET_WIDTH_SECONDS);
    if starts <= at {
      AlignMonotone(starts, at, width);
    } else {
      AlignIsBelow(starts, width);
      MultipleOfMultiple(Align(starts, width), width);
      AlignIsGreatest(starts, BUCKET_WIDTH_SECONDS, Align(starts, width));
      AlignIsGreatest(at, width, Align(starts, width));
    }
  }

  lemma MultipleOfMultiple(m: nat, width: nat)
    requires width > 0 && Multiple(m, width) && Multiple(width, BUCKET_WIDTH_SECONDS)
    ensures Multiple(m, BUCKET_WIDTH_SECONDS)
  {
    var p, q := m / width, width / BUCKET_WIDTH_SECONDS;
    assert m == p * width && width == q * BUCKET_WIDTH_SECONDS;
    assert m == (p * q) * BUCKET_WIDTH_SECONDS;
    UniqueRemainder(m, p * q, 0, BUCKET_WIDTH_SECONDS);
  }
}
