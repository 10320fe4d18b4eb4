// src/analytics_store.rs: the wide canonical row of a bucket, and decoding an aggregated row back.
//
// A row has the 54 cells of `sql_values`, in that order.

module WideRows {
  import opened Numbers
  import opened Histogram
  import opened Buckets
  import opened Aggregate
  import opened Breakdown

  const CELLS: nat := 54
  const PROFILE_CELL: nat := 6
  const LATENCY_CELL: nat := 7
  const FAILURE_CELL: nat := 21
  const REGISTRATION_CELL: nat := 30
  const SESSIONS_CELL: nat := 36
  const SERVICE_ACCOUNTS_CELL: nat := 41
  const WEBHOOKS_CELL: nat := 47
  const PLATFORM_CELL: nat := 52
  const REALM_HEALTH_CELL: nat := 53

  predicate IsPresence(c: nat) {
    c == 0 || c == REGISTRATION_CELL || c == SESSIONS_CELL || c == SERVICE_ACCOUNTS_CELL || c == WEBHOOKS_CELL
    || c == PLATFORM_CELL || c == REALM_HEALTH_CELL
  }

  // ------------------------------------------------------------ what each cell means

  function LatencyCells(latency: Option<LatencyHistogram>): (cells: seq<nat>)
    ensures |cells| == 14
  {
    if latency.None? then seq(14, _ => 0)
    else
      var h := latency.value;
      [h.count, h.sum] + seq<nat>(12, i requires 0 <= i < 12 => if i < |h.cumulative| then h.cumulative[i] else 0)
  }

  function FailureCells(failures: seq<FailureCount>): (cells: seq<nat>)
    ensures |cells| == 9
  {
    seq(9, i requires 0 <= i < 9 => ClassCount(failures, i + 1))
  }

  function ProfileCell(latency: Option<LatencyHistogram>): nat {
    if latency.Some? && latency.value.profile >= 0 then latency.value.profile else 0
  }

  function AuthenticationCells(authentication: Option<AuthenticationMetrics>): (cells: seq<nat>)
    ensures |cells| == 30
  {
    if authentication.None? then seq(30, _ => 0)
    else
      var m := authentication.value;
      [1, m.attempts, m.successes, m.failures, m.denials, m.activeAccounts, ProfileCell(m.latency)]
      + LatencyCells(m.latency) + FailureCells(m.failureClasses)
  }

  function OtherCells(b: TelemetryBucket): (cells: seq<nat>)
    ensures |cells| == 24
  {
    (match b.registration
     case None => [0, 0, 0, 0, 0, 0]
     case Some(m) => [1, m.optionsStarted, m.ceremoniesOpened, m.responsesReturned, m.completed, m.expired])
    + (match b.sessions
       case None => [0, 0, 0, 0, 0]
       case Some(m) => [1, m.created, m.revoked, m.userTokens, m.serviceTokens])
    + (match b.serviceAccounts
       case None => [0, 0, 0, 0, 0, 0]
       case Some(m) => [1, m.calls, m.successes, m.failures, m.denials, m.rotations])
    + (match b.webhooks
       case None => [0, 0, 0, 0, 0]
       case Some(m) => [1, m.deliveries, m.successes, m.failures, m.backlog])
    + [Bit(b.platform.Some?), Bit(b.realmHealth.Some?)]
  }

  function Cells(b: TelemetryBucket): (cells: seq<nat>)
    ensures |cells| == CELLS
  {
    AuthenticationCells(b.authentication) + OtherCells(b)
  }

  // ------------------------------------------------------------ filling the row

  // Overwriting the cell of each class loses nothing when validation has made the classes distinct.
  method FillFailures(failures: seq<FailureCount>) returns (cells: seq<nat>)
    requires forall i :: 0 <= i < |failures| ==> ValidFailure(failures[i])
    requires ClassesDistinct(failures)
    ensures cells == FailureCells(failures)
  {
    cells := seq(9, _ => 0);
    for n := 0 to |failures|
      invariant cells == FailureCells(failures[..n])
    {
      var f := failures[n];
      FailureStep(failures, n);
      if 1 <= f.failureClass <= 9 {
        cells := cells[f.failureClass - 1 := f.count];
      }
    }
    assert failures[..|failures|] == failures;
  }

  lemma FailureStep(failures: seq<FailureCount>, n: nat)
    requires n < |failures| && ValidFailure(failures[n]) && ClassesDistinct(failures)
    ensures FailureCells(failures[..n + 1])
         == FailureCells(failures[..n])[failures[n].failureClass - 1 := failures[n].count]
  {
    forall k: i32
      ensures ClassCount(failures[..n + 1], k) == ClassCount(failures[..n], k) + OfClass(k)(failures[n])
    {
      SumStep(failures, n, OfClass(k));
    }
    AbsentClass(failures[..n], failures[n].failureClass);
  }

  lemma {:induction false} AbsentClass(failures: seq<FailureCount>, k: i32)
    requires forall i :: 0 <= i < |failures| ==> failures[i].failureClass != k
    ensures ClassCount(failures, k) == 0
  {
    if failures != [] {
      AbsentClass(failures[..|failures| - 1], k);
    }
  }

  method FillLatency(h: LatencyHistogram) returns (cells: seq<nat>)
    ensures cells == LatencyCells(Some(h))
  {
    var counts: seq<nat> := seq(12, _ => 0);
    for i := 0 to Min(12, |h.cumulative|)
      invariant |counts| == 12
      invariant forall j :: 0 <= j < 12 ==> counts[j] == if j < i then h.cumulative[j] else 0
    {
      counts := counts[i := h.cumulative[i]];
    }
    cells := [h.count, h.sum] + counts;
  }

  method FromBucket(b: TelemetryBucket) returns (cells: seq<nat>)
    requires ValidBucket(b)
    ensures cells == Cells(b)
  {
    var authentication: seq<nat> := seq(30, _ => 0);
    if b.authentication.Some? {
      var m := b.authentication.value;
      var profile, latency := 0, seq(14, _ => 0);
      if m.latency.Some? {
        profile := m.latency.value.profile;
        latency := FillLatency(m.latency.value);
      }
      var failures := FillFailures(m.failureClasses);
      authentication := [1, m.attempts, m.successes, m.failures, m.denials, m.activeAccounts, profile]
                        + latency + failures;
    }
    cells := authentication + OtherCells(b);
  }

  // ------------------------------------------------------------ decoding an aggregated row

  function EmptyPlatform(): PlatformMetrics {
    PlatformMetrics(0, 0, None, 0, 0, None, [])
  }

  function DecodedAuthentication(cells: seq<u64>): Option<AuthenticationMetrics>
    requires |cells| == CELLS
  {
    if cells[0] == 0 then None
    else
      var profile: i32 := if cells[PROFILE_CELL] <= 2 then cells[PROFILE_CELL] else PROFILE_INTERACTIVE;
      Some(AuthenticationMetrics(cells[1], cells[2], cells[3], cells[4], cells[5],
        Some(LatencyHistogram(profile, cells[LATENCY_CELL], cells[LATENCY_CELL + 1],
                              cells[LATENCY_CELL + 2..FAILURE_CELL], [])),
        [], Entries(cells[FAILURE_CELL..REGISTRATION_CELL]), []))
  }

  function Decoded(v: seq<u64>, window: i64, step: nat): TelemetryBucket
    requires |v| == CELLS && step / 1_000 <= U32_MAX
  {
    TelemetryBucket("aggregate", 1, window, step / 1_000, 1, 0, 0, SCHEMA_V1, true,
      DecodedAuthentication(v),
      if v[30] == 0 then None else Some(RegistrationMetrics(v[31], v[32], v[33], v[34], v[35], [])),
      if v[36] == 0 then None else Some(SessionTokenMetrics(v[37], v[38], v[39], v[40], [])),
      if v[41] == 0 then None else Some(ServiceAccountMetrics(v[42], v[43], v[44], v[45], v[46], [])),
      if v[47] == 0 then None else Some(WebhookMetrics(v[48], v[49], v[50], v[51], None, [])),
      if v[52] == 0 then None else Some(EmptyPlatform()),
      if v[53] == 0 then None else Some(RealmHealthMetrics(SERVING_HEALTHY, 0, 0, 0, [])), [])
  }

  // The presence cell of the family that a cell belongs to.
  function PresenceOf(c: nat): (p: nat)
    ensures p <= c && IsPresence(p)
  {
    if c < REGISTRATION_CELL then 0
    else if c < SESSIONS_CELL then REGISTRATION_CELL
    else if c < SERVICE_ACCOUNTS_CELL then SESSIONS_CELL
    else if c < WEBHOOKS_CELL then SERVICE_ACCOUNTS_CELL
    else if c < PLATFORM_CELL then WEBHOOKS_CELL
    else if c < REALM_HEALTH_CELL then PLATFORM_CELL
    else REALM_HEALTH_CELL
  }

  // The cells of a family are looked at only when it is present.
  predicate IsRead(cells: seq<nat>, c: nat)
    requires |cells| == CELLS && c < CELLS
  {
    IsPresence(c) || cells[PresenceOf(c)] > 0
  }

  predicate Readable(cells: seq<nat>)
    requires |cells| == CELLS
  {
    && (forall c :: 0 <= c < CELLS && IsRead(cells, c) ==> cells[c] <= U64_MAX)
    && (cells[0] > 0 ==> cells[PROFILE_CELL] < 0x8000_0000)
  }

  function ReadCells(cells: seq<nat>): (v: seq<u64>)
    requires |cells| == CELLS && Readable(cells)
    ensures |v| == CELLS && forall c :: 0 <= c < CELLS && IsRead(cells, c) ==> v[c] == cells[c]
  {
    seq(CELLS, c requires 0 <= c < CELLS => if IsRead(cells, c) then cells[c] else 0)
  }

  // `None` when some value that is read does not fit its integer type.
  function Decode(cells: seq<nat>, window: i64, step: nat): (r: Option<TelemetryBucket>)
    requires |cells| == CELLS && step / 1_000 <= U32_MAX
  {
    if Readable(cells) then Some(Decoded(ReadCells(cells), window, step)) else None
  }

  // Whatever is in a cell of a family that is absent, even a sum that fits no integer, does not matter.
  lemma AbsentIsNotRead(cells: seq<nat>, c: nat, x: nat, window: i64, step: nat)
    requires |cells| == CELLS && c < CELLS && !IsPresence(c) && cells[PresenceOf(c)] == 0 && step / 1_000 <= U32_MAX
    ensures Decode(cells[c := x], window, step) == Decode(cells, window, step)
  {
    var other := cells[c := x];
    assert forall d :: 0 <= d < CELLS ==> (IsRead(other, d) <==> IsRead(cells, d)) && (IsRead(cells, d) ==> other[d] == cells[d]);
    if Readable(cells) {
      assert ReadCells(other) == ReadCells(cells);
    }
  }

  lemma AuthenticationIsRead(cells: seq<nat>, v: seq<u64>)
    requires |cells| == CELLS && Readable(cells) && v == ReadCells(cells)
    ensures v[0] == cells[0] && (cells[0] > 0 ==> forall c :: 0 <= c < REGISTRATION_CELL ==> v[c] == cells[c])
  {
    assert IsRead(cells, 0);
  }

  // Rows that agree in which families are present, and in the cells of those, decode to the same.
  lemma OnlyReadCellsMatter(a: seq<u64>, b: seq<u64>, window: i64, step: nat)
    requires |a| == |b| == CELLS && step / 1_000 <= U32_MAX
    requires forall c :: 0 <= c < CELLS && IsPresence(c) ==> (a[c] > 0 <==> b[c] > 0)
    requires forall c :: 0 <= c < CELLS && !IsPresence(c) && IsRead(a, c) ==> a[c] == b[c]
    ensures Decoded(a, window, step) == Decoded(b, window, step)
  {
    AuthenticationFromRead(a, b);
    FamilyFromRead(a, b, REGISTRATION_CELL, SESSIONS_CELL);
    FamilyFromRead(a, b, SESSIONS_CELL, SERVICE_ACCOUNTS_CELL);
    FamilyFromRead(a, b, SERVICE_ACCOUNTS_CELL, WEBHOOKS_CELL);
    FamilyFromRead(a, b, WEBHOOKS_CELL, PLATFORM_CELL);
    FamiliesDecodeAlike(a, b, window, step);
  }

  // The cells after a presence cell, up to the next, when the family is present.
  ghost predicate SameFamily(a: seq<u64>, b: seq<u64>, p: nat, end: nat)
    requires p < end <= |a| == |b|
  {
    (a[p] > 0 <==> b[p] > 0) && (a[p] > 0 ==> forall c :: p < c < end ==> a[c] == b[c])
  }

  lemma FamilyFromRead(a: seq<u64>, b: seq<u64>, p: nat, end: nat)
    requires |a| == |b| == CELLS && p < end <= CELLS && (a[p] > 0 <==> b[p] > 0)
    requires forall c :: p < c < end ==> !IsPresence(c) && PresenceOf(c) == p
    requires forall c :: 0 <= c < CELLS && !IsPresence(c) && IsRead(a, c) ==> a[c] == b[c]
    ensures SameFamily(a, b, p, end)
  {
  }

  lemma FamiliesDecodeAlike(a: seq<u64>, b: seq<u64>, window: i64, step: nat)
    requires |a| == |b| == CELLS && step / 1_000 <= U32_MAX && DecodedAuthentication(a) == DecodedAuthentication(b)
    requires SameFamily(a, b, REGISTRATION_CELL, SESSIONS_CELL) && SameFamily(a, b, SESSIONS_CELL, SERVICE_ACCOUNTS_CELL)
    requires SameFamily(a, b, SERVICE_ACCOUNTS_CELL, WEBHOOKS_CELL) && SameFamily(a, b, WEBHOOKS_CELL, PLATFORM_CELL)
    requires (a[PLATFORM_CELL] > 0 <==> b[PLATFORM_CELL] > 0) && (a[REALM_HEALTH_CELL] > 0 <==> b[REALM_HEALTH_CELL] > 0)
    ensures Decoded(a, window, step) == Decoded(b, window, step)
  {
  }

  lemma AuthenticationFromRead(a: seq<u64>, b: seq<u64>)
    requires |a| == |b| == CELLS && (a[0] > 0 <==> b[0] > 0)
    requires forall c :: 0 <= c < CELLS && !IsPresence(c) && IsRead(a, c) ==> a[c] == b[c]
    ensures DecodedAuthentication(a) == DecodedAuthentication(b)
  {
    if a[0] > 0 {
      assert forall c :: 1 <= c < REGISTRATION_CELL ==> IsRead(a, c) && a[c] == b[c];
      assert a[FAILURE_CELL..REGISTRATION_CELL] == b[FAILURE_CELL..REGISTRATION_CELL];
      assert a[LATENCY_CELL + 2..FAILURE_CELL] == b[LATENCY_CELL + 2..FAILURE_CELL];
    }
  }

  lemma DecodeOfSmall(cells: seq<u64>, window: i64, step: nat)
    requires |cells| == CELLS && step / 1_000 <= U32_MAX && (cells[0] > 0 ==> cells[PROFILE_CELL] < 0x8000_0000)
    ensures Decode(cells, window, step) == Some(Decoded(cells, window, step))
  {
    OnlyReadCellsMatter(cells, ReadCells(cells), window, step);
  }

  // ------------------------------------------------------------ summing columns against aggregating buckets

  function CellOf(c: nat): TelemetryBucket -> nat
    requires c < CELLS
  {
    (b: TelemetryBucket) => Cells(b)[c]
  }

  function CellSum(bs: seq<TelemetryBucket>, c: nat): nat
    requires c < CELLS
  {
    Sum(bs, CellOf(c))
  }

  lemma CellSumExtends(bs: seq<TelemetryBucket>, b: TelemetryBucket, c: nat)
    requires c < CELLS
    ensures CellSum(bs + [b], c) == CellSum(bs, c) + Cells(b)[c]
  {
    assert (bs + [b])[..|bs|] == bs;
  }

  // The largest profile and the sums of everything else, as the rollup query selects them.
  predicate AggregatedFrom(cells: seq<nat>, bs: seq<TelemetryBucket>) {
    && |cells| == CELLS
    && forall c :: 0 <= c < CELLS && c != PROFILE_CELL ==> cells[c] == CellSum(bs, c)
  }

  // Where the row keeps the facts that the aggregate sums.
  function CellIndex(c: nat): (i: nat)
    ensures c < COLUMNS ==> i < CELLS && i != PROFILE_CELL
  {
    if c < 5 then 1 + c else 2 + c
  }

  lemma CountedByCells(b: TelemetryBucket, c: nat)
    requires ValidBucket(b) && c < COLUMNS
    ensures Cells(b)[CellIndex(c)] == AuthColumn(b, c)
  {
    AuthenticationCell(b.authentication, c);
  }

  lemma AuthenticationCell(a: Option<AuthenticationMetrics>, c: nat)
    requires a.Some? ==> a.value.latency.Some? && |a.value.latency.value.cumulative| == 12
    requires c < COLUMNS
    ensures AuthenticationCells(a)[CellIndex(c)] == MetricColumn(a, c)
  {
  }

  lemma CellsAreTotals(bs: seq<TelemetryBucket>, c: nat)
    requires AllValid(bs) && c < COLUMNS
    ensures CellSum(bs, CellIndex(c)) == Total(bs, c)
  {
    forall i | 0 <= i < |bs|
      ensures CellOf(CellIndex(c))(bs[i]) == Column(c)(bs[i])
    {
      CountedByCells(bs[i], c);
    }
    SumOfEqual(bs, CellOf(CellIndex(c)), Column(c));
  }

  lemma FailureCellsAreTotals(bs: seq<TelemetryBucket>, i: nat)
    requires i < 9
    ensures CellSum(bs, FAILURE_CELL + i) == ClassTotal(bs, i + 1)
  {
    SumOfEqual(bs, CellOf(FAILURE_CELL + i), InClass(i + 1));
  }

  // Summing columns and decoding gives the counters, histogram and failures of the aggregate.
  lemma DecodedRowIsTheAggregate(bs: seq<TelemetryBucket>, cells: seq<nat>, window: i64, step: nat, c: nat)
    requires AllValid(bs) && AggregatedFrom(cells, bs) && step / 1_000 <= U32_MAX && c < COLUMNS
    requires Decode(cells, window, step).Some? && cells[0] > 0
    ensures Decode(cells, window, step).value.authentication.Some?
    ensures AuthColumn(Decode(cells, window, step).value, c) == Total(bs, c)
  {
    CellsAreTotals(bs, c);
    AuthenticationIsRead(cells, ReadCells(cells));
    DecodedColumn(ReadCells(cells), c);
  }

  lemma DecodedColumn(cells: seq<u64>, c: nat)
    requires |cells| == CELLS && cells[0] > 0 && c < COLUMNS
    ensures MetricColumn(DecodedAuthentication(cells), c) == cells[CellIndex(c)]
  {
  }

  // What FailureBreakdown counts for each class.
  lemma DecodedFailuresAreTheBreakdown(bs: seq<TelemetryBucket>, cells: seq<nat>, window: i64, step: nat, k: nat)
    requires AggregatedFrom(cells, bs) && step / 1_000 <= U32_MAX && 1 <= k <= 9
    requires Decode(cells, window, step).Some? && cells[0] > 0
    ensures ClassCount(Failures(Decode(cells, window, step).value), k) == ClassTotal(bs, k)
  {
    FailureCellsAreTotals(bs, k - 1);
    AuthenticationIsRead(cells, ReadCells(cells));
    DecodedClass(ReadCells(cells), k);
  }

  lemma DecodedClass(cells: seq<u64>, k: nat)
    requires |cells| == CELLS && cells[0] > 0 && 1 <= k <= 9
    ensures ClassCount(DecodedAuthentication(cells).value.failureClasses, k) == cells[FAILURE_CELL + k - 1]
  {
    var counts := cells[FAILURE_CELL..REGISTRATION_CELL];
    OneEntryPerClass(counts, 9, k);
    assert Entries(counts)[..9] == Entries(counts);
  }

  function Entries(counts: seq<u64>): seq<FailureCount> {
    seq(|counts|, i requires 0 <= i < |counts| => FailureCount(if i < 9 then i + 1 else 9, counts[i], []))
  }

  lemma {:induction false} OneEntryPerClass(counts: seq<u64>, n: nat, k: nat)
    requires |counts| == 9 && n <= 9 && 1 <= k <= 9
    ensures ClassCount(Entries(counts)[..n], k) == if k <= n then counts[k - 1] else 0
  {
    if n > 0 {
      OneEntryPerClass(counts, n - 1, k);
      SumStep(Entries(counts), n - 1, OfClass(k));
    }
  }

  // ------------------------------------------------------------ decoded rows under the bucket contract

  lemma IdleBucket(b: TelemetryBucket, c: nat)
    requires ValidBucket(b) && AuthColumn(b, 0) == 0
    requires 1 <= c <= 4 || LATENCY_CELL <= c < REGISTRATION_CELL
    ensures Cells(b)[c] == 0
  {
    if b.authentication.Some? {
      var m := b.authentication.value;
      if c >= FAILURE_CELL {
        ZeroSum(m.failureClasses, (f: FailureCount) => f.count);
        ZeroSum(m.failureClasses, OfClass(c - FAILURE_CELL + 1));
        assert AuthenticationCells(b.authentication)[c] == ClassCount(m.failureClasses, c - FAILURE_CELL + 1);
      } else if LATENCY_CELL + 2 <= c {
        var counts := m.latency.value.cumulative;
        assert counts[c - LATENCY_CELL - 2] <= counts[11];
      }
    }
  }

  lemma IdleCells(bs: seq<TelemetryBucket>, c: nat)
    requires AllValid(bs) && Total(bs, 0) == 0
    requires 1 <= c <= 4 || LATENCY_CELL <= c < REGISTRATION_CELL
    ensures CellSum(bs, c) == 0
  {
    ZeroSum(bs, Column(0));
    forall i | 0 <= i < |bs|
      ensures CellOf(c)(bs[i]) == 0
    {
      assert Column(0)(bs[i]) == 0;
      IdleBucket(bs[i], c);
    }
    ZeroSum(bs, CellOf(c));
  }

  lemma DecodedAuthenticationIsValidExactly(bs: seq<TelemetryBucket>, cells: seq<u64>)
    requires AllValid(bs) && AggregatedFrom(cells, bs) && cells[0] > 0 && cells[PROFILE_CELL] == PROFILE_INTERACTIVE
    ensures ValidAuthentication(DecodedAuthentication(cells).value)
       <==> Total(bs, 0) == 0 && cells[5] <= MAX_COUNTER
  {
    CellsAreTotals(bs, 0);
    assert FlowTotals([])[0] == 0;
    if Total(bs, 0) == 0 {
      forall c | 1 <= c <= 4 || LATENCY_CELL <= c < REGISTRATION_CELL
        ensures cells[c] == 0
      {
        IdleCells(bs, c);
      }
      IdleRowIsValid(cells);
    }
  }

  lemma IdleRowIsValid(cells: seq<u64>)
    requires |cells| == CELLS && cells[0] > 0 && cells[PROFILE_CELL] == PROFILE_INTERACTIVE
    requires forall c :: 1 <= c <= 4 || LATENCY_CELL <= c < REGISTRATION_CELL ==> cells[c] == 0
    ensures ValidAuthentication(DecodedAuthentication(cells).value) <==> cells[5] <= MAX_COUNTER
  {
    var m := DecodedAuthentication(cells).value;
    assert [m.attempts, m.successes, m.failures, m.denials, m.activeAccounts][4] == cells[5];
    assert FlowTotals(m.flows) == [0, 0, 0, 0];
    ZeroSum(m.failureClasses, (f: FailureCount) => f.count);
  }

  lemma CellsOfFamilies(b: TelemetryBucket)
    requires ValidBucket(b)
    ensures var c := Cells(b); c[31] >= c[32] >= c[33] >= c[34] && c[42] == c[43] + c[44] + c[45]
  {
    var c, d := Cells(b), OtherCells(b);
    assert c[30..] == d;
    assert d[1] >= d[2] >= d[3] >= d[4];
    assert d[12] == d[13] + d[14] + d[15];
  }

  lemma RegistrationSums(bs: seq<TelemetryBucket>)
    requires AllValid(bs)
    ensures CellSum(bs, 31) >= CellSum(bs, 32) >= CellSum(bs, 33) >= CellSum(bs, 34)
  {
    forall i | 0 <= i < |bs|
      ensures CellOf(34)(bs[i]) <= CellOf(33)(bs[i]) <= CellOf(32)(bs[i]) <= CellOf(31)(bs[i])
    {
      CellsOfFamilies(bs[i]);
    }
    SumMonotone(bs, CellOf(34), CellOf(33));
    SumMonotone(bs, CellOf(33), CellOf(32));
    SumMonotone(bs, CellOf(32), CellOf(31));
  }

  lemma {:induction false} ServiceAccountSums(bs: seq<TelemetryBucket>)
    requires AllValid(bs)
    ensures CellSum(bs, 42) == CellSum(bs, 43) + CellSum(bs, 44) + CellSum(bs, 45)
  {
    if bs != [] {
      ServiceAccountSums(bs[..|bs| - 1]);
      CellsOfFamilies(bs[|bs| - 1]);
    }
  }

  predicate SmallCounters(cells: seq<nat>)
    requires |cells| == CELLS
  {
    && (cells[0] > 0 ==> cells[5] <= MAX_COUNTER)
    && (cells[REGISTRATION_CELL] > 0 ==> Small(cells[31..36]))
    && (cells[SESSIONS_CELL] > 0 ==> Small(cells[37..41]))
    && (cells[SERVICE_ACCOUNTS_CELL] > 0 ==> Small(cells[42..47]))
  }

  lemma FamilySurvives(bs: seq<TelemetryBucket>, cells: seq<nat>)
    requires bs != [] && AllValid(bs) && AggregatedFrom(cells, bs)
    ensures cells[0] > 0 || cells[30] > 0 || cells[36] > 0 || cells[41] > 0 || cells[47] > 0
         || cells[52] > 0 || cells[53] > 0
  {
    var b := bs[|bs| - 1];
    assert ValidBucket(b) && HasFamily(b);
    assert Cells(b)[0] > 0 || Cells(b)[30] > 0 || Cells(b)[36] > 0 || Cells(b)[41] > 0 || Cells(b)[47] > 0
        || Cells(b)[52] > 0 || Cells(b)[53] > 0;
  }

  // A decoded row is itself a valid bucket only for the five-minute step, with no authentication attempt and
  // neither webhook nor platform metrics in it. Every other row is refused when it is aggregated again.
  lemma DecodedRowIsValidExactly(bs: seq<TelemetryBucket>, cells: seq<u64>, window: i64, step: nat)
    requires bs != [] && AllValid(bs) && AggregatedFrom(cells, bs)
    requires cells[0] > 0 ==> cells[PROFILE_CELL] == PROFILE_INTERACTIVE
    requires ValidStart(window) && (step == 300_000 || step == 3_600_000 || step == 86_400_000)
    ensures Decode(cells, window, step).Some?
    ensures ValidBucket(Decode(cells, window, step).value)
       <==> step == 300_000 && Total(bs, 0) == 0 && cells[WEBHOOKS_CELL] == 0 && cells[PLATFORM_CELL] == 0
            && SmallCounters(cells)
  {
    FamilySurvives(bs, cells);
    DecodeOfSmall(cells, window, step);
    DecodedHeader(cells, window, step);
    RegistrationSums(bs);
    ServiceAccountSums(bs);
    if cells[0] > 0 {
      DecodedAuthenticationIsValidExactly(bs, cells);
    } else {
      NothingPresent(bs);
    }
    DecodedFamilies(cells, window, step);
  }

  lemma DecodedHeader(cells: seq<u64>, window: i64, step: nat)
    requires |cells| == CELLS && ValidStart(window)
    requires step == 300_000 || step == 3_600_000 || step == 86_400_000
    ensures ValidHeader(Decoded(cells, window, step)) <==> step == 300_000
  {
    AggregateIsARealmId();
  }

  lemma AggregateIsARealmId()
    ensures ValidRealmId("aggregate")
  {
  }

  lemma NothingPresent(bs: seq<TelemetryBucket>)
    requires CellSum(bs, 0) == 0
    ensures Total(bs, 0) == 0
  {
    ZeroSum(bs, CellOf(0));
    forall i | 0 <= i < |bs|
      ensures Column(0)(bs[i]) == 0
    {
      assert CellOf(0)(bs[i]) == 0;
    }
    ZeroSum(bs, Column(0));
  }

  lemma DecodedFamilies(cells: seq<u64>, window: i64, step: nat)
    requires |cells| == CELLS && step / 1_000 <= U32_MAX
    requires cells[31] >= cells[32] >= cells[33] >= cells[34]
    requires cells[42] as int == cells[43] as int + cells[44] as int + cells[45] as int
    ensures var b := Decoded(cells, window, step);
            && (ValidCounterFamilies(b)
                <==> ((cells[REGISTRATION_CELL] > 0 ==> Small(cells[31..36]))
                      && (cells[SESSIONS_CELL] > 0 ==> Small(cells[37..41]))
                      && (cells[SERVICE_ACCOUNTS_CELL] > 0 ==> Small(cells[42..47]))))
            && (ValidPlatformFamilies(b) <==> cells[WEBHOOKS_CELL] == 0 && cells[PLATFORM_CELL] == 0)
  {
    assert cells[31..36] == [cells[31], cells[32], cells[33], cells[34], cells[35]];
    assert cells[37..41] == [cells[37], cells[38], cells[39], cells[40]];
    assert cells[42..47] == [cells[42], cells[43], cells[44], cells[45], cells[46]];
  }
}
