// The Parquet row of a bucket: src/analytics.rs.

module Parquet {
  import opened Numbers
  import opened Buckets

  datatype HistogramRow = HistogramRow(profile: i32, count: u64, sum: u64, cumulative: seq<u64>)
  datatype FlowRow = FlowRow(flow: i32, attempts: u64, successes: u64, failures: u64, denials: u64)
  datatype FailureRow = FailureRow(failureClass: i32, count: u64)
  datatype AuthenticationRow = AuthenticationRow(
    attempts: u64, successes: u64, failures: u64, denials: u64, activeAccounts: u64,
    latency: HistogramRow, flows: seq<FlowRow>, failureClasses: seq<FailureRow>)
  datatype RegistrationRow = RegistrationRow(
    optionsStarted: u64, ceremoniesOpened: u64, responsesReturned: u64, completed: u64, expired: u64)
  datatype SessionRow = SessionRow(created: u64, revoked: u64, userTokens: u64, serviceTokens: u64)
  datatype ServiceRow = ServiceRow(calls: u64, successes: u64, failures: u64, denials: u64, rotations: u64)
  datatype WebhookRow = WebhookRow(deliveries: u64, successes: u64, failures: u64, backlog: u64, latency: HistogramRow)
  datatype PlatformRow = PlatformRow(
    apiRequests: u64, apiErrors: u64, apiLatency: HistogramRow, storeOperations: u64, storeErrors: u64,
    storeLatency: HistogramRow)
  datatype HealthRow = HealthRow(servingState: i32, backupAge: u64, signingKeyAge: u64, connectorLag: u64)

  datatype Row = Row(
    realmId: string, assignmentEpoch: u64, start: i64, width: u32, revision: u64, firstSequence: u64, lastSequence: u64,
    schema: i32, closed: bool,
    authentication: Option<AuthenticationRow>, registration: Option<RegistrationRow>, sessions: Option<SessionRow>,
    serviceAccounts: Option<ServiceRow>, webhooks: Option<WebhookRow>, platform: Option<PlatformRow>,
    realmHealth: Option<HealthRow>)

  // A row has a place for every histogram.
  predicate Timed(b: TelemetryBucket) {
    && (b.authentication.Some? ==> b.authentication.value.latency.Some?)
    && (b.webhooks.Some? ==> b.webhooks.value.latency.Some?)
    && (b.platform.Some? ==> b.platform.value.apiLatency.Some? && b.platform.value.storeLatency.Some?)
  }

  // ------------------------------------------------------------ bucket to row

  function HistogramToRow(h: LatencyHistogram): HistogramRow {
    HistogramRow(h.profile, h.count, h.sum, h.cumulative)
  }

  function FlowToRow(f: FlowCount): FlowRow {
    FlowRow(f.flow, f.attempts, f.successes, f.failures, f.denials)
  }

  function FailureToRow(f: FailureCount): FailureRow {
    FailureRow(f.failureClass, f.count)
  }

  function AuthenticationToRow(m: AuthenticationMetrics): AuthenticationRow
    requires m.latency.Some?
  {
    AuthenticationRow(m.attempts, m.successes, m.failures, m.denials, m.activeAccounts, HistogramToRow(m.latency.value),
                      seq(|m.flows|, i requires 0 <= i < |m.flows| => FlowToRow(m.flows[i])),
                      seq(|m.failureClasses|, i requires 0 <= i < |m.failureClasses| => FailureToRow(m.failureClasses[i])))
  }

  function WebhooksToRow(m: WebhookMetrics): WebhookRow
    requires m.latency.Some?
  {
    WebhookRow(m.deliveries, m.successes, m.failures, m.backlog, HistogramToRow(m.latency.value))
  }

  function PlatformToRow(m: PlatformMetrics): PlatformRow
    requires m.apiLatency.Some? && m.storeLatency.Some?
  {
    PlatformRow(m.apiRequests, m.apiErrors, HistogramToRow(m.apiLatency.value), m.storeOperations, m.storeErrors,
                HistogramToRow(m.storeLatency.value))
  }

  function RegistrationToRow(o: Option<RegistrationMetrics>): Option<RegistrationRow> {
    if o.None? then None
    else Some(RegistrationRow(o.value.optionsStarted, o.value.ceremoniesOpened, o.value.responsesReturned, o.value.completed,
                              o.value.expired))
  }

  function SessionsToRow(o: Option<SessionTokenMetrics>): Option<SessionRow> {
    if o.None? then None else Some(SessionRow(o.value.created, o.value.revoked, o.value.userTokens, o.value.serviceTokens))
  }

  function ServiceToRow(o: Option<ServiceAccountMetrics>): Option<ServiceRow> {
    if o.None? then None
    else Some(ServiceRow(o.value.calls, o.value.successes, o.value.failures, o.value.denials, o.value.rotations))
  }

  function HealthToRow(o: Option<RealmHealthMetrics>): Option<HealthRow> {
    if o.None? then None
    else Some(HealthRow(o.value.servingState, o.value.backupAge, o.value.signingKeyAge, o.value.connectorLag))
  }

  function ToRow(b: TelemetryBucket): Row
    requires Timed(b)
  {
    Row(b.realmId, b.assignmentEpoch, b.start, b.width, b.revision, b.firstSequence, b.lastSequence, b.schema, b.closed,
        if b.authentication.None? then None else Some(AuthenticationToRow(b.authentication.value)),
        RegistrationToRow(b.registration), SessionsToRow(b.sessions), ServiceToRow(b.serviceAccounts),
        if b.webhooks.None? then None else Some(WebhooksToRow(b.webhooks.value)),
        if b.platform.None? then None else Some(PlatformToRow(b.platform.value)),
        HealthToRow(b.realmHealth))
  }

  // ------------------------------------------------------------ row to bucket

  // A number that the schema does not name becomes the unspecified one.
  function Known(v: i32, known: bool): i32 {
    if known then v else UNSPECIFIED
  }

  function HistogramFromRow(h: HistogramRow): LatencyHistogram {
    LatencyHistogram(Known(h.profile, KnownProfile(h.profile)), h.count, h.sum, h.cumulative, [])
  }

  function FlowFromRow(f: FlowRow): FlowCount {
    FlowCount(Known(f.flow, KnownFlow(f.flow)), f.attempts, f.successes, f.failures, f.denials, [])
  }

  function FailureFromRow(f: FailureRow): FailureCount {
    FailureCount(Known(f.failureClass, KnownFailureClass(f.failureClass)), f.count, [])
  }

  function AuthenticationFromRow(r: AuthenticationRow): AuthenticationMetrics {
    AuthenticationMetrics(r.attempts, r.successes, r.failures, r.denials, r.activeAccounts, Some(HistogramFromRow(r.latency)),
                          seq(|r.flows|, i requires 0 <= i < |r.flows| => FlowFromRow(r.flows[i])),
                          seq(|r.failureClasses|, i requires 0 <= i < |r.failureClasses| => FailureFromRow(r.failureClasses[i])),
                          [])
  }

  function WebhooksFromRow(r: WebhookRow): WebhookMetrics {
    WebhookMetrics(r.deliveries, r.successes, r.failures, r.backlog, Some(HistogramFromRow(r.latency)), [])
  }

  function PlatformFromRow(r: PlatformRow): PlatformMetrics {
    PlatformMetrics(r.apiRequests, r.apiErrors, Some(HistogramFromRow(r.apiLatency)), r.storeOperations, r.storeErrors,
                    Some(HistogramFromRow(r.storeLatency)), [])
  }

  function RegistrationFromRow(o: Option<RegistrationRow>): Option<RegistrationMetrics> {
    if o.None? then None
    else Some(RegistrationMetrics(o.value.optionsStarted, o.value.ceremoniesOpened, o.value.responsesReturned,
                                  o.value.completed, o.value.expired, []))
  }

  function SessionsFromRow(o: Option<SessionRow>): Option<SessionTokenMetrics> {
    if o.None? then None
    else Some(SessionTokenMetrics(o.value.created, o.value.revoked, o.value.userTokens, o.value.serviceTokens, []))
  }

  function ServiceFromRow(o: Option<ServiceRow>): Option<ServiceAccountMetrics> {
    if o.None? then None
    else Some(ServiceAccountMetrics(o.value.calls, o.value.successes, o.value.failures, o.value.denials, o.value.rotations, []))
  }

  function HealthFromRow(o: Option<HealthRow>): Option<RealmHealthMetrics> {
    if o.None? then None
    else Some(RealmHealthMetrics(Known(o.value.servingState, KnownServingState(o.value.servingState)), o.value.backupAge,
                                 o.value.signingKeyAge, o.value.connectorLag, []))
  }

  function FromRow(r: Row): TelemetryBucket {
    TelemetryBucket(
      r.realmId, r.assignmentEpoch, r.start, r.width, r.revision, r.firstSequence, r.lastSequence,
      Known(r.schema, KnownSchema(r.schema)), r.closed,
      if r.authentication.None? then None else Some(AuthenticationFromRow(r.authentication.value)),
      RegistrationFromRow(r.registration), SessionsFromRow(r.sessions), ServiceFromRow(r.serviceAccounts),
      if r.webhooks.None? then None else Some(WebhooksFromRow(r.webhooks.value)),
      if r.platform.None? then None else Some(PlatformFromRow(r.platform.value)),
      HealthFromRow(r.realmHealth), [])
  }

  // ------------------------------------------------------------ the two are inverse

  lemma AuthenticationRoundTrip(m: AuthenticationMetrics)
    requires ValidAuthentication(m)
    ensures AuthenticationFromRow(AuthenticationToRow(m)) == m
  {
    var back := AuthenticationFromRow(AuthenticationToRow(m));
    forall i | 0 <= i < |m.flows|
      ensures back.flows[i] == m.flows[i]
    {
      assert ValidFlow(m.flows[i]);
    }
    assert back.flows == m.flows;
    forall i | 0 <= i < |m.failureClasses|
      ensures back.failureClasses[i] == m.failureClasses[i]
    {
      assert ValidFailure(m.failureClasses[i]);
    }
    assert back.failureClasses == m.failureClasses;
  }

  lemma AuthenticationRowRoundTrip(r: AuthenticationRow)
    requires ValidAuthentication(AuthenticationFromRow(r))
    ensures AuthenticationToRow(AuthenticationFromRow(r)) == r
  {
    var m := AuthenticationFromRow(r);
    var back := AuthenticationToRow(m);
    forall i | 0 <= i < |r.flows|
      ensures back.flows[i] == r.flows[i]
    {
      assert ValidFlow(m.flows[i]);
    }
    assert back.flows == r.flows;
    forall i | 0 <= i < |r.failureClasses|
      ensures back.failureClasses[i] == r.failureClasses[i]
    {
      assert ValidFailure(m.failureClasses[i]);
    }
    assert back.failureClasses == r.failureClasses;
  }

  lemma HistogramRoundTrip(h: LatencyHistogram, profile: i32, expected: nat)
    requires KnownProfile(profile) && ValidHistogram(Some(h), profile, expected)
    ensures HistogramFromRow(HistogramToRow(h)) == h
  {
  }

  lemma HistogramRowRoundTrip(r: HistogramRow, profile: i32, expected: nat)
    requires profile != UNSPECIFIED && ValidHistogram(Some(HistogramFromRow(r)), profile, expected)
    ensures HistogramToRow(HistogramFromRow(r)) == r
  {
  }

  lemma WebhooksRoundTrip(m: WebhookMetrics)
    requires ValidWebhooks(m)
    ensures WebhooksFromRow(WebhooksToRow(m)) == m
  {
    HistogramRoundTrip(m.latency.value, PROFILE_DELIVERY, m.deliveries);
  }

  lemma PlatformRoundTrip(m: PlatformMetrics)
    requires ValidPlatform(m)
    ensures PlatformFromRow(PlatformToRow(m)) == m
  {
    HistogramRoundTrip(m.apiLatency.value, PROFILE_INTERACTIVE, m.apiRequests);
    HistogramRoundTrip(m.storeLatency.value, PROFILE_INTERACTIVE, m.storeOperations);
  }

  lemma CountersRoundTrip(b: TelemetryBucket)
    requires ValidCounterFamilies(b)
    ensures RegistrationFromRow(RegistrationToRow(b.registration)) == b.registration
    ensures SessionsFromRow(SessionsToRow(b.sessions)) == b.sessions
    ensures ServiceFromRow(ServiceToRow(b.serviceAccounts)) == b.serviceAccounts
  {
  }

  lemma HealthRoundTrip(o: Option<RealmHealthMetrics>)
    requires o.Some? ==> ValidRealmHealth(o.value)
    ensures HealthFromRow(HealthToRow(o)) == o
  {
  }

  // Every valid bucket survives the way to a row and back.
  lemma BucketRoundTrip(b: TelemetryBucket)
    requires ValidBucket(b)
    ensures Timed(b) && FromRow(ToRow(b)) == b
  {
    CountersRoundTrip(b);
    HealthRoundTrip(b.realmHealth);
    if b.authentication.Some? {
      AuthenticationRoundTrip(b.authentication.value);
    }
    if b.webhooks.Some? {
      WebhooksRoundTrip(b.webhooks.value);
    }
    if b.platform.Some? {
      PlatformRoundTrip(b.platform.value);
    }
  }

  lemma WebhooksRowRoundTrip(r: WebhookRow)
    requires ValidWebhooks(WebhooksFromRow(r))
    ensures WebhooksToRow(WebhooksFromRow(r)) == r
  {
    HistogramRowRoundTrip(r.latency, PROFILE_DELIVERY, r.deliveries);
  }

  lemma PlatformRowRoundTrip(r: PlatformRow)
    requires ValidPlatform(PlatformFromRow(r))
    ensures PlatformToRow(PlatformFromRow(r)) == r
  {
    HistogramRowRoundTrip(r.apiLatency, PROFILE_INTERACTIVE, r.apiRequests);
    HistogramRowRoundTrip(r.storeLatency, PROFILE_INTERACTIVE, r.storeOperations);
  }

  lemma CountersRowRoundTrip(r: Row)
    ensures RegistrationToRow(RegistrationFromRow(r.registration)) == r.registration
    ensures SessionsToRow(SessionsFromRow(r.sessions)) == r.sessions
    ensures ServiceToRow(ServiceFromRow(r.serviceAccounts)) == r.serviceAccounts
  {
  }

  lemma HealthRowRoundTrip(o: Option<HealthRow>)
    requires HealthFromRow(o).Some? ==> ValidRealmHealth(HealthFromRow(o).value)
    ensures HealthToRow(HealthFromRow(o)) == o
  {
  }

  // Every row that is accepted is reproduced exactly: a number the schema does not name never passes the validator.
  lemma RowRoundTrip(r: Row)
    requires ValidBucket(FromRow(r))
    ensures Timed(FromRow(r)) && ToRow(FromRow(r)) == r
  {
    CountersRowRoundTrip(r);
    HealthRowRoundTrip(r.realmHealth);
    if r.authentication.Some? {
      AuthenticationRowRoundTrip(r.authentication.value);
    }
    if r.webhooks.Some? {
      WebhooksRowRoundTrip(r.webhooks.value);
    }
    if r.platform.Some? {
      PlatformRowRoundTrip(r.platform.value);
    }
  }

  // ------------------------------------------------------------ the checked conversions

  method CanonicalRow(b: TelemetryBucket) returns (r: Option<Row>)
    ensures r.Some? <==> ValidBucket(b)
    ensures r.Some? ==> FromRow(r.value) == b
  {
    var v := ValidateBucket(b);
    if v != Verdict.Valid {
      return None;
    }
    BucketRoundTrip(b);
    return Some(ToRow(b));
  }

  method BucketFromRow(r: Row) returns (b: Option<TelemetryBucket>)
    ensures b.Some? <==> ValidBucket(FromRow(r))
    ensures b.Some? ==> Timed(b.value) && ToRow(b.value) == r
  {
    var bucket := FromRow(r);
    var v := ValidateBucket(bucket);
    if v != Verdict.Valid {
      return None;
    }
    RowRoundTrip(r);
    return Some(bucket);
  }

  // So each accepted row is the row of one valid bucket, and of no other.
  lemma AcceptedRowsAreRowsOfBuckets(r: Row, b: TelemetryBucket)
    requires ValidBucket(b)
    ensures b == FromRow(r) && ValidBucket(FromRow(r)) <==> Timed(b) && r == ToRow(b)
  {
    BucketRoundTrip(b);
    if ValidBucket(FromRow(r)) {
      RowRoundTrip(r);
    }
  }
}
