// The V1 telemetry bucket and its contract: src/analytics.rs.
//
// An open protobuf enum is the i32 on the wire; a value is known when the schema names it.
// `unknown` holds the unknown wire fields of a message.

module Buckets {
  import opened Numbers
  import opened Histogram

  const MAX_COUNTER: nat := 1_000_000_000
  const MILLISECONDS_PER_DAY: nat := 86_400_000
  const BUCKET_WIDTH_SECONDS: nat := 300
  const BUCKET_WIDTH_MILLISECONDS: nat := 300_000

  const UNSPECIFIED: i32 := 0
  const SCHEMA_V1: i32 := 1
  const PROFILE_INTERACTIVE: i32 := 1
  const PROFILE_DELIVERY: i32 := 2
  const SERVING_HEALTHY: i32 := 1

  predicate KnownSchema(v: i32) { 0 <= v <= 1 }
  predicate KnownProfile(v: i32) { 0 <= v <= 2 }
  predicate KnownFlow(v: i32) { 0 <= v <= 3 }
  predicate KnownFailureClass(v: i32) { 0 <= v <= 9 }
  predicate KnownServingState(v: i32) { 0 <= v <= 3 }

  function Bounds(profile: i32): seq<nat> {
    if profile == PROFILE_INTERACTIVE then INTERACTIVE_BOUNDS
    else if profile == PROFILE_DELIVERY then DELIVERY_BOUNDS
    else []
  }

  type Unknown = seq<nat>

  datatype LatencyHistogram = LatencyHistogram(
    profile: i32, count: u64, sum: u64, cumulative: seq<u64>, unknown: Unknown)
  datatype FlowCount = FlowCount(
    flow: i32, attempts: u64, successes: u64, failures: u64, denials: u64, unknown: Unknown)
  datatype FailureCount = FailureCount(failureClass: i32, count: u64, unknown: Unknown)
  datatype AuthenticationMetrics = AuthenticationMetrics(
    attempts: u64, successes: u64, failures: u64, denials: u64, activeAccounts: u64,
    latency: Option<LatencyHistogram>, flows: seq<FlowCount>, failureClasses: seq<FailureCount>, unknown: Unknown)
  datatype RegistrationMetrics = RegistrationMetrics(
    optionsStarted: u64, ceremoniesOpened: u64, responsesReturned: u64, completed: u64, expired: u64,
    unknown: Unknown)
  datatype SessionTokenMetrics = SessionTokenMetrics(
    created: u64, revoked: u64, userTokens: u64, serviceTokens: u64, unknown: Unknown)
  datatype ServiceAccountMetrics = ServiceAccountMetrics(
    calls: u64, successes: u64, failures: u64, denials: u64, rotations: u64, unknown: Unknown)
  datatype WebhookMetrics = WebhookMetrics(
    deliveries: u64, successes: u64, failures: u64, backlog: u64, latency: Option<LatencyHistogram>,
    unknown: Unknown)
  datatype PlatformMetrics = PlatformMetrics(
    apiRequests: u64, apiErrors: u64, apiLatency: Option<LatencyHistogram>,
    storeOperations: u64, storeErrors: u64, storeLatency: Option<LatencyHistogram>, unknown: Unknown)
  datatype RealmHealthMetrics = RealmHealthMetrics(
    servingState: i32, backupAge: u64, signingKeyAge: u64, connectorLag: u64, unknown: Unknown)

  datatype TelemetryBucket = TelemetryBucket(
    realmId: string, assignmentEpoch: u64, start: i64, width: u32, revision: u64,
    firstSequence: u64, lastSequence: u64, schema: i32, closed: bool,
    authentication: Option<AuthenticationMetrics>, registration: Option<RegistrationMetrics>,
    sessions: Option<SessionTokenMetrics>, serviceAccounts: Option<ServiceAccountMetrics>,
    webhooks: Option<WebhookMetrics>, platform: Option<PlatformMetrics>, realmHealth: Option<RealmHealthMetrics>,
    unknown: Unknown)

  // ------------------------------------------------------------ the contract

  predicate Small(values: seq<nat>) {
    forall i :: 0 <= i < |values| ==> values[i] <= MAX_COUNTER
  }

  predicate IdentifierByte(c: char) {
    'a' <= c <= 'z' || 'A' <= c <= 'Z' || '0' <= c <= '9' || c == '-' || c == '_'
  }

  predicate ValidRealmId(id: string) {
    1 <= |id| <= 64 && forall i :: 0 <= i < |id| ==> IdentifierByte(id[i])
  }

  const LOWER := "abcdefghijklmnopqrstuvwxyz"
  const UPPER := "ABCDEFGHIJKLMNOPQRSTUVWXYZ"
  const OTHERS := "0123456789-_"

  lemma LowerAre(c: char)
    ensures c in LOWER <==> 'a' <= c <= 'z'
  {
    if 'a' <= c <= 'z' {
      assert LOWER[c as int - 'a' as int] == c;
    }
  }

  lemma UpperAre(c: char)
    ensures c in UPPER <==> 'A' <= c <= 'Z'
  {
    if 'A' <= c <= 'Z' {
      assert UPPER[c as int - 'A' as int] == c;
    }
  }

  lemma OthersAre(c: char)
    ensures c in OTHERS <==> '0' <= c <= '9' || c == '-' || c == '_'
  {
    if '0' <= c <= '9' {
      assert OTHERS[c as int - '0' as int] == c;
    }
    assert OTHERS[10] == '-' && OTHERS[11] == '_';
  }

  // Realms are named with up to sixty-four letters, digits, hyphens and underscores.
  lemma RealmIdsAre(id: string)
    ensures ValidRealmId(id) <==>
            1 <= |id| <= 64 && forall i :: 0 <= i < |id| ==> id[i] in LOWER || id[i] in UPPER || id[i] in OTHERS
  {
    forall i | 0 <= i < |id|
      ensures IdentifierByte(id[i]) <==> id[i] in LOWER || id[i] in UPPER || id[i] in OTHERS
    {
      LowerAre(id[i]);
      UpperAre(id[i]);
      OthersAre(id[i]);
    }
  }

  predicate ValidStart(start: int) {
    start >= 0 && start % BUCKET_WIDTH_MILLISECONDS == 0
  }

  predicate ValidSequences(first: nat, last: nat) {
    (first == 0 && last == 0) || 0 < first <= last
  }

  predicate NonDecreasing(counts: seq<nat>) {
    forall i, j :: 0 <= i < j < |counts| ==> counts[i] <= counts[j]
  }

  ghost predicate ValidHistogram(h: Option<LatencyHistogram>, profile: i32, expected: nat) {
    && h.Some? && h.value.unknown == [] && h.value.profile == profile
    && h.value.count == expected <= MAX_COUNTER
    && |h.value.cumulative| == |Bounds(profile)| + 1
    && NonDecreasing(h.value.cumulative)
    && h.value.cumulative[|Bounds(profile)|] == expected
    && h.value.sum <= expected * MILLISECONDS_PER_DAY
  }

  predicate ValidFlow(f: FlowCount) {
    && f.unknown == [] && KnownFlow(f.flow) && f.flow != UNSPECIFIED
    && Small([f.attempts, f.successes, f.failures, f.denials])
    && f.attempts == f.successes + f.failures + f.denials
  }

  predicate ValidFailure(f: FailureCount) {
    f.unknown == [] && KnownFailureClass(f.failureClass) && f.failureClass != UNSPECIFIED && f.count <= MAX_COUNTER
  }

  ghost predicate FlowsDistinct(flows: seq<FlowCount>) {
    forall i, j :: 0 <= i < j < |flows| ==> flows[i].flow != flows[j].flow
  }

  ghost predicate ClassesDistinct(failures: seq<FailureCount>) {
    forall i, j :: 0 <= i < j < |failures| ==> failures[i].failureClass != failures[j].failureClass
  }

  function FlowTotals(flows: seq<FlowCount>): seq<nat> {
    [Sum(flows, (f: FlowCount) => f.attempts), Sum(flows, (f: FlowCount) => f.successes),
     Sum(flows, (f: FlowCount) => f.failures), Sum(flows, (f: FlowCount) => f.denials)]
  }

  function FailureTotal(failures: seq<FailureCount>): nat {
    Sum(failures, (f: FailureCount) => f.count)
  }

  ghost predicate ValidAuthentication(m: AuthenticationMetrics) {
    && m.unknown == []
    && Small([m.attempts, m.successes, m.failures, m.denials, m.activeAccounts])
    && m.attempts == m.successes + m.failures + m.denials
    && ValidHistogram(m.latency, PROFILE_INTERACTIVE, m.attempts)
    && (forall i :: 0 <= i < |m.flows| ==> ValidFlow(m.flows[i])) && FlowsDistinct(m.flows)
    && FlowTotals(m.flows) == [m.attempts, m.successes, m.failures, m.denials]
    && (forall i :: 0 <= i < |m.failureClasses| ==> ValidFailure(m.failureClasses[i]))
    && ClassesDistinct(m.failureClasses)
    && FailureTotal(m.failureClasses) == m.failures + m.denials
  }

  ghost predicate ValidRegistration(m: RegistrationMetrics) {
    && m.unknown == []
    && Small([m.optionsStarted, m.ceremoniesOpened, m.responsesReturned, m.completed, m.expired])
    && m.optionsStarted >= m.ceremoniesOpened >= m.responsesReturned >= m.completed
  }

  ghost predicate ValidSessions(m: SessionTokenMetrics) {
    m.unknown == [] && Small([m.created, m.revoked, m.userTokens, m.serviceTokens])
  }

  ghost predicate ValidServiceAccounts(m: ServiceAccountMetrics) {
    && m.unknown == [] && Small([m.calls, m.successes, m.failures, m.denials, m.rotations])
    && m.calls == m.successes + m.failures + m.denials
  }

  ghost predicate ValidWebhooks(m: WebhookMetrics) {
    && m.unknown == [] && Small([m.deliveries, m.successes, m.failures, m.backlog])
    && m.deliveries == m.successes + m.failures
    && ValidHistogram(m.latency, PROFILE_DELIVERY, m.deliveries)
  }

  ghost predicate ValidPlatform(m: PlatformMetrics) {
    && m.unknown == [] && Small([m.apiRequests, m.apiErrors, m.storeOperations, m.storeErrors])
    && m.apiErrors <= m.apiRequests && m.storeErrors <= m.storeOperations
    && ValidHistogram(m.apiLatency, PROFILE_INTERACTIVE, m.apiRequests)
    && ValidHistogram(m.storeLatency, PROFILE_INTERACTIVE, m.storeOperations)
  }

  ghost predicate ValidRealmHealth(m: RealmHealthMetrics) {
    && m.unknown == [] && KnownServingState(m.servingState) && m.servingState != UNSPECIFIED
    && Small([m.backupAge, m.signingKeyAge, m.connectorLag])
  }

  ghost predicate ValidHeader(b: TelemetryBucket) {
    && b.unknown == [] && ValidRealmId(b.realmId) && b.assignmentEpoch > 0
    && ValidStart(b.start) && b.width == BUCKET_WIDTH_SECONDS && b.revision > 0
    && ValidSequences(b.firstSequence, b.lastSequence)
    && b.schema == SCHEMA_V1 && b.closed
  }

  predicate HasFamily(b: TelemetryBucket) {
    || b.authentication.Some? || b.registration.Some? || b.sessions.Some? || b.serviceAccounts.Some?
    || b.webhooks.Some? || b.platform.Some? || b.realmHealth.Some?
  }

  ghost predicate ValidCounterFamilies(b: TelemetryBucket) {
    && (b.registration.Some? ==> ValidRegistration(b.registration.value))
    && (b.sessions.Some? ==> ValidSessions(b.sessions.value))
    && (b.serviceAccounts.Some? ==> ValidServiceAccounts(b.serviceAccounts.value))
  }

  ghost predicate ValidPlatformFamilies(b: TelemetryBucket) {
    && (b.webhooks.Some? ==> ValidWebhooks(b.webhooks.value))
    && (b.platform.Some? ==> ValidPlatform(b.platform.value))
    && (b.realmHealth.Some? ==> ValidRealmHealth(b.realmHealth.value))
  }

  ghost predicate ValidBucket(b: TelemetryBucket) {
    && ValidHeader(b) && HasFamily(b)
    && (b.authentication.Some? ==> ValidAuthentication(b.authentication.value))
    && ValidCounterFamilies(b) && ValidPlatformFamilies(b)
  }

  // ------------------------------------------------------------ the validator

  datatype Verdict = Valid | Invalid | Overflow

  function CheckedAdd(a: u64, b: u64): (r: Option<u64>)
    ensures r.None? <==> a > U64_MAX - b
    ensures r.Some? ==> r.value - a == b
  {
    if a + b <= U64_MAX then Some(a + b) else None
  }

  function PartsTotal(parts: seq<u64>): nat {
    Sum(parts, (part: u64) => part)
  }

  lemma TotalOfTwo(a: u64, b: u64)
    ensures PartsTotal([a, b]) == a + b
  {
    assert [a, b] == [a] + [b];
    SumOfConcat([a], [b], (part: u64) => part);
    SumOfOne(a, (part: u64) => part);
    SumOfOne(b, (part: u64) => part);
  }

  lemma TotalOfThree(a: u64, b: u64, c: u64)
    ensures PartsTotal([a, b, c]) == a + b + c
  {
    TotalOfTwo(a, b);
    assert [a, b, c] == [a, b] + [c];
    SumOfConcat([a, b], [c], (part: u64) => part);
    SumOfOne(c, (part: u64) => part);
  }

  // The running sum overflows exactly when the whole one does.
  method RequireSum(total: u64, parts: seq<u64>) returns (v: Verdict)
    ensures v == if PartsTotal(parts) > U64_MAX then Overflow else if total == PartsTotal(parts) then Valid else Invalid
  {
    var sum: u64 := 0;
    for i := 0 to |parts|
      invariant sum == PartsTotal(parts[..i])
    {
      SumStep(parts, i, (part: u64) => part);
      SumOfPrefix(parts, i + 1, (part: u64) => part);
      var next := CheckedAdd(sum, parts[i]);
      if next.None? { return Overflow; }
      sum := next.value;
    }
    assert parts[..|parts|] == parts;
    return if total == sum then Valid else Invalid;
  }

  method ValidateHistogram(h: Option<LatencyHistogram>, profile: i32, expected: u64) returns (v: Verdict)
    requires profile == PROFILE_INTERACTIVE || profile == PROFILE_DELIVERY
    ensures v == if ValidHistogram(h, profile, expected) then Valid else Invalid
  {
    if h.None? { return Invalid; }
    var histogram := h.value;
    if histogram.unknown != [] || histogram.profile != profile { return Invalid; }
    if histogram.count > MAX_COUNTER || histogram.count != expected { return Invalid; }
    var counts := histogram.cumulative;
    if |counts| != |Bounds(profile)| + 1 { return Invalid; }
    var previous: u64 := 0;
    for i := 0 to |counts|
      invariant previous == if i == 0 then 0 else counts[i - 1]
      invariant forall j, k :: 0 <= j < k < i ==> counts[j] <= counts[k]
      invariant forall j :: 0 <= j < i ==> counts[j] <= previous
    {
      assert NonDecreasing(counts) ==> counts[i] <= counts[|counts| - 1];
      if counts[i] > MAX_COUNTER || counts[i] < previous || counts[i] > histogram.count {
        return Invalid;
      }
      previous := counts[i];
    }
    if previous != histogram.count { return Invalid; }
    if histogram.sum > histogram.count * MILLISECONDS_PER_DAY { return Invalid; }
    return Valid;
  }

  // A set of small numbers has few members, so no breakdown can be long.
  lemma {:induction false} DistinctIsShort(xs: seq<int>, limit: nat)
    requires forall i :: 0 <= i < |xs| ==> 1 <= xs[i] <= limit
    requires forall i, j :: 0 <= i < j < |xs| ==> xs[i] != xs[j]
    ensures |xs| <= limit
  {
    if xs == [] {
    } else if limit in xs {
      var i :| 0 <= i < |xs| && xs[i] == limit;
      var rest := xs[..i] + xs[i + 1..];
      assert forall j :: 0 <= j < |rest| ==> rest[j] == if j < i then xs[j] else xs[j + 1];
      DistinctIsShort(rest, limit - 1);
    } else {
      assert xs[0] < limit;
      DistinctIsShort(xs, limit - 1);
    }
  }

  lemma FlowsAreShort(flows: seq<FlowCount>)
    requires forall i :: 0 <= i < |flows| ==> ValidFlow(flows[i])
    requires FlowsDistinct(flows)
    ensures |flows| <= 3
    ensures forall i :: 0 <= i < 4 ==> FlowTotals(flows)[i] <= 3 * MAX_COUNTER
  {
    DistinctIsShort(seq(|flows|, i requires 0 <= i < |flows| => flows[i].flow), 3);
    forall i | 0 <= i < |flows|
      ensures flows[i].attempts <= MAX_COUNTER && flows[i].successes <= MAX_COUNTER
           && flows[i].failures <= MAX_COUNTER && flows[i].denials <= MAX_COUNTER
    {
      var row := [flows[i].attempts, flows[i].successes, flows[i].failures, flows[i].denials];
      assert ValidFlow(flows[i]);
      assert row[0] <= MAX_COUNTER && row[1] <= MAX_COUNTER && row[2] <= MAX_COUNTER && row[3] <= MAX_COUNTER;
    }
    SumBounded(flows, (f: FlowCount) => f.attempts, MAX_COUNTER);
    SumBounded(flows, (f: FlowCount) => f.successes, MAX_COUNTER);
    SumBounded(flows, (f: FlowCount) => f.failures, MAX_COUNTER);
    SumBounded(flows, (f: FlowCount) => f.denials, MAX_COUNTER);
  }

  lemma FailuresAreShort(failures: seq<FailureCount>)
    requires forall i :: 0 <= i < |failures| ==> ValidFailure(failures[i])
    requires ClassesDistinct(failures)
    ensures |failures| <= 9 && FailureTotal(failures) <= 9 * MAX_COUNTER
  {
    DistinctIsShort(seq(|failures|, i requires 0 <= i < |failures| => failures[i].failureClass), 9);
    forall i | 0 <= i < |failures|
      ensures failures[i].count <= MAX_COUNTER
    {
      assert ValidFailure(failures[i]);
    }
    SumBounded(failures, (f: FailureCount) => f.count, MAX_COUNTER);
  }

  // A zip of checked additions onto the accumulator.
  method AddChecked(totals: seq<u64>, values: seq<u64>) returns (r: Option<seq<u64>>)
    requires |totals| == |values|
    ensures r.Some? <==> forall j :: 0 <= j < |values| ==> AddColumns(totals, values)[j] <= U64_MAX
    ensures r.Some? ==> r.value == AddColumns(totals, values)
  {
    var sums := totals;
    for i := 0 to |values|
      invariant |sums| == |totals|
      invariant forall j :: 0 <= j < i ==> sums[j] == totals[j] + values[j] <= U64_MAX
      invariant forall j :: i <= j < |values| ==> sums[j] == totals[j]
    {
      var sum := CheckedAdd(sums[i], values[i]);
      if sum.None? {
        assert AddColumns(totals, values)[i] > U64_MAX;
        return None;
      }
      sums := sums[i := sum.value];
    }
    return Some(sums);
  }

  function FlowKinds(flows: seq<FlowCount>): set<i32> {
    set i | 0 <= i < |flows| :: flows[i].flow
  }

  method ValidateFlow(f: FlowCount) returns (v: Verdict)
    ensures v == if ValidFlow(f) then Valid else Invalid
  {
    if f.unknown != [] || !KnownFlow(f.flow) || f.flow == UNSPECIFIED { return Invalid; }
    var counters := [f.attempts, f.successes, f.failures, f.denials];
    if !Small(counters) { return Invalid; }
    assert counters[1] <= MAX_COUNTER && counters[2] <= MAX_COUNTER && counters[3] <= MAX_COUNTER;
    TotalOfThree(f.successes, f.failures, f.denials);
    v := RequireSum(f.attempts, [f.successes, f.failures, f.denials]);
  }

  method ValidateFlows(flows: seq<FlowCount>, expected: seq<u64>) returns (v: Verdict)
    requires |expected| == 4
    ensures v == if (forall i :: 0 <= i < |flows| ==> ValidFlow(flows[i])) && FlowsDistinct(flows)
                    && FlowTotals(flows) == expected
                 then Valid else Invalid
  {
    var kinds: set<i32> := {};
    var totals: seq<u64> := [0, 0, 0, 0];
    for i := 0 to |flows|
      invariant forall j :: 0 <= j < i ==> ValidFlow(flows[j])
      invariant FlowsDistinct(flows[..i]) && kinds == FlowKinds(flows[..i])
      invariant FlowTotals(flows[..i]) == totals
    {
      var f := flows[i];
      v := ValidateFlow(f);
      if v != Valid { return; }
      if f.flow in kinds {
        var j :| 0 <= j < i && flows[..i][j].flow == f.flow;
        assert flows[j].flow == flows[i].flow;
        return Invalid;
      }
      KindsStep(flows, i);
      kinds := kinds + {f.flow};
      TotalsStep(flows, i);
      FlowsAreShort(flows[..i + 1]);
      var values: seq<u64> := [f.attempts, f.successes, f.failures, f.denials];
      assert forall j :: 0 <= j < 4 ==> AddColumns(totals, values)[j] <= U64_MAX;
      var sums := AddChecked(totals, values);
      if sums.None? { return Overflow; }
      totals := sums.value;
    }
    assert flows[..|flows|] == flows;
    return if totals == expected then Valid else Invalid;
  }

  lemma KindsStep(flows: seq<FlowCount>, i: nat)
    requires i < |flows| && FlowsDistinct(flows[..i]) && flows[i].flow !in FlowKinds(flows[..i])
    ensures FlowsDistinct(flows[..i + 1])
    ensures FlowKinds(flows[..i + 1]) == FlowKinds(flows[..i]) + {flows[i].flow}
  {
    var shorter, longer := flows[..i], flows[..i + 1];
    assert forall j :: 0 <= j < i ==> longer[j] == shorter[j] && shorter[j].flow in FlowKinds(shorter);
    assert longer[i] == flows[i];
  }

  lemma TotalsStep(flows: seq<FlowCount>, i: nat)
    requires i < |flows|
    ensures var f, before := flows[i], FlowTotals(flows[..i]);
            FlowTotals(flows[..i + 1]) == AddColumns(before, [f.attempts, f.successes, f.failures, f.denials])
  {
    SumStep(flows, i, (f: FlowCount) => f.attempts);
    SumStep(flows, i, (f: FlowCount) => f.successes);
    SumStep(flows, i, (f: FlowCount) => f.failures);
    SumStep(flows, i, (f: FlowCount) => f.denials);
  }

  function FailureKinds(failures: seq<FailureCount>): set<i32> {
    set i | 0 <= i < |failures| :: failures[i].failureClass
  }

  method ValidateFailures(failures: seq<FailureCount>, expected: u64) returns (v: Verdict)
    ensures v == if (forall i :: 0 <= i < |failures| ==> ValidFailure(failures[i])) && ClassesDistinct(failures)
                    && FailureTotal(failures) == expected
                 then Valid else Invalid
  {
    var classes: set<i32> := {};
    var total: u64 := 0;
    for i := 0 to |failures|
      invariant forall j :: 0 <= j < i ==> ValidFailure(failures[j])
      invariant ClassesDistinct(failures[..i]) && classes == FailureKinds(failures[..i])
      invariant FailureTotal(failures[..i]) == total
    {
      var f := failures[i];
      if !ValidFailure(f) { return Invalid; }
      if f.failureClass in classes {
        var j :| 0 <= j < i && failures[..i][j].failureClass == f.failureClass;
        assert failures[j].failureClass == failures[i].failureClass;
        return Invalid;
      }
      ClassesStep(failures, i);
      classes := classes + {f.failureClass};
      SumStep(failures, i, (f: FailureCount) => f.count);
      FailuresAreShort(failures[..i + 1]);
      var sum := CheckedAdd(total, f.count);
      if sum.None? { return Overflow; }
      total := sum.value;
    }
    assert failures[..|failures|] == failures;
    return if total == expected then Valid else Invalid;
  }

  lemma ClassesStep(failures: seq<FailureCount>, i: nat)
    requires i < |failures| && ClassesDistinct(failures[..i])
    requires failures[i].failureClass !in FailureKinds(failures[..i])
    ensures ClassesDistinct(failures[..i + 1])
    ensures FailureKinds(failures[..i + 1]) == FailureKinds(failures[..i]) + {failures[i].failureClass}
  {
    var shorter, longer := failures[..i], failures[..i + 1];
    assert forall j :: 0 <= j < i ==> longer[j] == shorter[j] && shorter[j].failureClass in FailureKinds(shorter);
    assert longer[i] == failures[i];
  }

  method ValidateAuthentication(m: AuthenticationMetrics) returns (v: Verdict)
    ensures v == if ValidAuthentication(m) then Valid else Invalid
  {
    if m.unknown != [] { return Invalid; }
    var counters := [m.attempts, m.successes, m.failures, m.denials, m.activeAccounts];
    if !Small(counters) { return Invalid; }
    assert counters[1] <= MAX_COUNTER && counters[2] <= MAX_COUNTER && counters[3] <= MAX_COUNTER;
    TotalOfThree(m.successes, m.failures, m.denials);
    v := RequireSum(m.attempts, [m.successes, m.failures, m.denials]);
    if v != Valid { return; }
    v := ValidateHistogram(m.latency, PROFILE_INTERACTIVE, m.attempts);
    if v != Valid { return; }
    v := ValidateFlows(m.flows, [m.attempts, m.successes, m.failures, m.denials]);
    if v != Valid { return; }
    var rejected := CheckedAdd(m.failures, m.denials);
    if rejected.None? { return Overflow; }
    v := ValidateFailures(m.failureClasses, rejected.value);
  }

  method ValidateServiceAccounts(m: ServiceAccountMetrics) returns (v: Verdict)
    ensures v == if ValidServiceAccounts(m) then Valid else Invalid
  {
    if m.unknown != [] { return Invalid; }
    var counters := [m.calls, m.successes, m.failures, m.denials, m.rotations];
    if !Small(counters) { return Invalid; }
    assert counters[1] <= MAX_COUNTER && counters[2] <= MAX_COUNTER && counters[3] <= MAX_COUNTER;
    TotalOfThree(m.successes, m.failures, m.denials);
    v := RequireSum(m.calls, [m.successes, m.failures, m.denials]);
  }

  method ValidateWebhooks(m: WebhookMetrics) returns (v: Verdict)
    ensures v == if ValidWebhooks(m) then Valid else Invalid
  {
    if m.unknown != [] { return Invalid; }
    var counters := [m.deliveries, m.successes, m.failures, m.backlog];
    if !Small(counters) { return Invalid; }
    assert counters[1] <= MAX_COUNTER && counters[2] <= MAX_COUNTER;
    TotalOfTwo(m.successes, m.failures);
    v := RequireSum(m.deliveries, [m.successes, m.failures]);
    if v != Valid { return; }
    v := ValidateHistogram(m.latency, PROFILE_DELIVERY, m.deliveries);
  }

  method ValidateCounterFamilies(b: TelemetryBucket) returns (v: Verdict)
    ensures v == if ValidCounterFamilies(b) then Valid else Invalid
  {
    if b.registration.Some? {
      var m := b.registration.value;
      if m.unknown != []
         || !Small([m.optionsStarted, m.ceremoniesOpened, m.responsesReturned, m.completed, m.expired])
         || !(m.optionsStarted >= m.ceremoniesOpened >= m.responsesReturned >= m.completed) { return Invalid; }
    }
    if b.sessions.Some? {
      var m := b.sessions.value;
      if m.unknown != [] || !Small([m.created, m.revoked, m.userTokens, m.serviceTokens]) { return Invalid; }
    }
    if b.serviceAccounts.Some? {
      v := ValidateServiceAccounts(b.serviceAccounts.value);
      return;
    }
    return Valid;
  }

  method ValidatePlatformFamilies(b: TelemetryBucket) returns (v: Verdict)
    ensures v == if ValidPlatformFamilies(b) then Valid else Invalid
  {
    if b.webhooks.Some? {
      v := ValidateWebhooks(b.webhooks.value);
      if v != Valid { return; }
    }
    if b.platform.Some? {
      var m := b.platform.value;
      if m.unknown != [] || !Small([m.apiRequests, m.apiErrors, m.storeOperations, m.storeErrors])
         || m.apiErrors > m.apiRequests || m.storeErrors > m.storeOperations { return Invalid; }
      v := ValidateHistogram(m.apiLatency, PROFILE_INTERACTIVE, m.apiRequests);
      if v != Valid { return; }
      v := ValidateHistogram(m.storeLatency, PROFILE_INTERACTIVE, m.storeOperations);
      if v != Valid { return; }
    }
    if b.realmHealth.Some? {
      var m := b.realmHealth.value;
      if m.unknown != [] || !KnownServingState(m.servingState) || m.servingState == UNSPECIFIED
         || !Small([m.backupAge, m.signingKeyAge, m.connectorLag]) { return Invalid; }
    }
    return Valid;
  }

  // Accepts exactly the valid buckets, and never answers with an overflow.
  method ValidateBucket(b: TelemetryBucket) returns (v: Verdict)
    ensures v == if ValidBucket(b) then Valid else Invalid
  {
    if b.unknown != [] || !ValidRealmId(b.realmId) || b.assignmentEpoch == 0 { return Invalid; }
    if !ValidStart(b.start) || b.width != BUCKET_WIDTH_SECONDS || b.revision == 0 { return Invalid; }
    if !ValidSequences(b.firstSequence, b.lastSequence) { return Invalid; }
    if b.schema != SCHEMA_V1 || !b.closed || !HasFamily(b) { return Invalid; }
    if b.authentication.Some? {
      v := ValidateAuthentication(b.authentication.value);
      if v != Valid { return; }
    }
    v := ValidateCounterFamilies(b);
    if v != Valid { return; }
    v := ValidatePlatformFamilies(b);
  }
}
