// The families of a rollup beside authentication: src/analytics_store.rs.

module Families {
  import opened Numbers
  import opened Buckets
  import opened Aggregate
  import opened WideRows
  import opened Coverage
  import Series

  // The numbers that a bucket reports of them.
  datatype Fact =
    | OptionsStarted | CeremoniesOpened | ResponsesReturned | RegistrationsCompleted | ChallengesExpired
    | SessionsCreated | SessionsRevoked | UserTokens | ServiceTokens
    | Calls | CallsSucceeded | CallsFailed | CallsDenied | Rotations
    | Deliveries | DeliveriesSucceeded | DeliveriesFailed | Backlog

  function FamilyOf(fact: Fact): Family {
    match fact
    case OptionsStarted | CeremoniesOpened | ResponsesReturned | RegistrationsCompleted | ChallengesExpired => Registration
    case SessionsCreated | SessionsRevoked | UserTokens | ServiceTokens => SessionsAndTokens
    case Calls | CallsSucceeded | CallsFailed | CallsDenied | Rotations => ServiceAccounts
    case Deliveries | DeliveriesSucceeded | DeliveriesFailed | Backlog => Webhooks
  }

  // Zero when the family is absent.
  function Number(b: TelemetryBucket, fact: Fact): nat {
    if !Carries(b, FamilyOf(fact)) then 0
    else match fact
      case OptionsStarted => b.registration.value.optionsStarted
      case CeremoniesOpened => b.registration.value.ceremoniesOpened
      case ResponsesReturned => b.registration.value.responsesReturned
      case RegistrationsCompleted => b.registration.value.completed
      case ChallengesExpired => b.registration.value.expired
      case SessionsCreated => b.sessions.value.created
      case SessionsRevoked => b.sessions.value.revoked
      case UserTokens => b.sessions.value.userTokens
      case ServiceTokens => b.sessions.value.serviceTokens
      case Calls => b.serviceAccounts.value.calls
      case CallsSucceeded => b.serviceAccounts.value.successes
      case CallsFailed => b.serviceAccounts.value.failures
      case CallsDenied => b.serviceAccounts.value.denials
      case Rotations => b.serviceAccounts.value.rotations
      case Deliveries => b.webhooks.value.deliveries
      case DeliveriesSucceeded => b.webhooks.value.successes
      case DeliveriesFailed => b.webhooks.value.failures
      case Backlog => b.webhooks.value.backlog
  }

  function NumberOf(fact: Fact): TelemetryBucket -> nat {
    (b: TelemetryBucket) => Number(b, fact)
  }

  function PresenceCell(family: Family): (c: nat)
    ensures c < CELLS && IsPresence(c)
  {
    match family
    case Authentication => 0
    case Registration => REGISTRATION_CELL
    case SessionsAndTokens => SESSIONS_CELL
    case ServiceAccounts => SERVICE_ACCOUNTS_CELL
    case Webhooks => WEBHOOKS_CELL
    case Platform => PLATFORM_CELL
    case RealmHealth => REALM_HEALTH_CELL
  }

  function Cell(fact: Fact): (c: nat)
    ensures c < CELLS && c != PROFILE_CELL && PresenceOf(c) == PresenceCell(FamilyOf(fact))
  {
    match fact
    case OptionsStarted => 31
    case CeremoniesOpened => 32
    case ResponsesReturned => 33
    case RegistrationsCompleted => 34
    case ChallengesExpired => 35
    case SessionsCreated => 37
    case SessionsRevoked => 38
    case UserTokens => 39
    case ServiceTokens => 40
    case Calls => 42
    case CallsSucceeded => 43
    case CallsFailed => 44
    case CallsDenied => 45
    case Rotations => 46
    case Deliveries => 48
    case DeliveriesSucceeded => 49
    case DeliveriesFailed => 50
    case Backlog => 51
  }

  // ------------------------------------------------------------ what a row holds of a bucket

  lemma RowHoldsRegistration(b: TelemetryBucket, fact: Fact)
    requires FamilyOf(fact).Registration?
    ensures Cells(b)[Cell(fact)] == Number(b, fact) && Cells(b)[REGISTRATION_CELL] == Bit(Carries(b, Registration))
  {
    assert Cells(b)[30..] == OtherCells(b);
  }

  lemma RowHoldsSessions(b: TelemetryBucket, fact: Fact)
    requires FamilyOf(fact).SessionsAndTokens?
    ensures Cells(b)[Cell(fact)] == Number(b, fact) && Cells(b)[SESSIONS_CELL] == Bit(Carries(b, SessionsAndTokens))
  {
    assert Cells(b)[30..] == OtherCells(b);
  }

  lemma RowHoldsServiceAccounts(b: TelemetryBucket, fact: Fact)
    requires FamilyOf(fact).ServiceAccounts?
    ensures Cells(b)[Cell(fact)] == Number(b, fact) && Cells(b)[SERVICE_ACCOUNTS_CELL] == Bit(Carries(b, ServiceAccounts))
  {
    assert Cells(b)[30..] == OtherCells(b);
  }

  lemma RowHoldsWebhooks(b: TelemetryBucket, fact: Fact)
    requires FamilyOf(fact).Webhooks?
    ensures Cells(b)[Cell(fact)] == Number(b, fact) && Cells(b)[WEBHOOKS_CELL] == Bit(Carries(b, Webhooks))
  {
    assert Cells(b)[30..] == OtherCells(b);
  }

  // The row of a bucket has each number of it, and a one for each family it has.
  lemma RowHoldsTheNumbers(b: TelemetryBucket, fact: Fact)
    ensures Cells(b)[Cell(fact)] == Number(b, fact)
  {
    match FamilyOf(fact)
    case Registration => RowHoldsRegistration(b, fact);
    case SessionsAndTokens => RowHoldsSessions(b, fact);
    case ServiceAccounts => RowHoldsServiceAccounts(b, fact);
    case Webhooks => RowHoldsWebhooks(b, fact);
  }

  lemma RowHoldsTheFamilies(b: TelemetryBucket, family: Family)
    ensures Cells(b)[PresenceCell(family)] == Bit(Carries(b, family))
  {
    match family
    case Registration => RowHoldsRegistration(b, OptionsStarted);
    case SessionsAndTokens => RowHoldsSessions(b, SessionsCreated);
    case ServiceAccounts => RowHoldsServiceAccounts(b, Calls);
    case Webhooks => RowHoldsWebhooks(b, Deliveries);
    case Authentication => assert Cells(b)[..30] == AuthenticationCells(b.authentication);
    case _ => assert Cells(b)[30..] == OtherCells(b);
  }

  // ------------------------------------------------------------ what is decoded of a sum of rows

  lemma DecodedNumber(v: seq<u64>, window: i64, step: nat, fact: Fact)
    requires |v| == CELLS && step / 1_000 <= U32_MAX
    ensures Number(Decoded(v, window, step), fact) == if v[PresenceCell(FamilyOf(fact))] == 0 then 0 else v[Cell(fact)]
  {
  }

  lemma DecodedFamily(v: seq<u64>, window: i64, step: nat, family: Family)
    requires |v| == CELLS && step / 1_000 <= U32_MAX
    ensures Carries(Decoded(v, window, step), family) <==> v[PresenceCell(family)] > 0
  {
  }

  lemma PresentExactly(bs: seq<TelemetryBucket>, family: Family)
    ensures CellSum(bs, PresenceCell(family)) > 0 <==> exists i :: 0 <= i < |bs| && Carries(bs[i], family)
  {
    var c := PresenceCell(family);
    forall i | 0 <= i < |bs|
      ensures CellOf(c)(bs[i]) == Bit(Carries(bs[i], family))
    {
      RowHoldsTheFamilies(bs[i], family);
    }
    if CellSum(bs, c) == 0 {
      ZeroSum(bs, CellOf(c));
    } else {
      var i := SomeTerm(bs, CellOf(c));
    }
  }

  lemma {:induction false} SomeTerm<T>(xs: seq<T>, f: T -> nat) returns (i: nat)
    requires Sum(xs, f) > 0
    ensures i < |xs| && f(xs[i]) > 0
  {
    var n := |xs| - 1;
    if f(xs[n]) > 0 {
      i := n;
    } else {
      i := SomeTerm(xs[..n], f);
    }
  }

  lemma NumbersAreCellSums(bs: seq<TelemetryBucket>, fact: Fact)
    ensures CellSum(bs, Cell(fact)) == Sum(bs, NumberOf(fact))
  {
    forall i | 0 <= i < |bs|
      ensures CellOf(Cell(fact))(bs[i]) == NumberOf(fact)(bs[i])
    {
      RowHoldsTheNumbers(bs[i], fact);
    }
    SumOfEqual(bs, CellOf(Cell(fact)), NumberOf(fact));
  }

  lemma NothingWithoutTheFamily(bs: seq<TelemetryBucket>, fact: Fact)
    requires forall i :: 0 <= i < |bs| ==> !Carries(bs[i], FamilyOf(fact))
    ensures Sum(bs, NumberOf(fact)) == 0
  {
    ZeroSum(bs, NumberOf(fact));
  }

  // Summing columns and decoding gives, of every family, the sum of each number over the buckets; and a family is there
  // exactly when some bucket has it.
  lemma DecodedNumbersAreTotals(bs: seq<TelemetryBucket>, cells: seq<nat>, window: i64, step: nat, fact: Fact)
    requires AggregatedFrom(cells, bs) && step / 1_000 <= U32_MAX && Decode(cells, window, step).Some?
    ensures Number(Decode(cells, window, step).value, fact) == Sum(bs, NumberOf(fact))
  {
    var v, p, c := ReadCells(cells), PresenceCell(FamilyOf(fact)), Cell(fact);
    DecodedNumber(v, window, step, fact);
    NumbersAreCellSums(bs, fact);
    PresentExactly(bs, FamilyOf(fact));
    assert IsRead(cells, p) && (cells[p] > 0 ==> IsRead(cells, c));
    if cells[p] == 0 {
      NothingWithoutTheFamily(bs, fact);
    }
  }

  lemma DecodedFamiliesArePresent(bs: seq<TelemetryBucket>, cells: seq<nat>, window: i64, step: nat, family: Family)
    requires AggregatedFrom(cells, bs) && step / 1_000 <= U32_MAX && Decode(cells, window, step).Some?
    ensures Carries(Decode(cells, window, step).value, family) <==> exists i :: 0 <= i < |bs| && Carries(bs[i], family)
  {
    DecodedFamily(ReadCells(cells), window, step, family);
    PresentExactly(bs, family);
    assert IsRead(cells, PresenceCell(family));
  }

  // A profile that the schema names is kept, and any other is taken for the interactive one.
  lemma DecodedProfile(cells: seq<nat>, window: i64, step: nat)
    requires |cells| == CELLS && step / 1_000 <= U32_MAX && Decode(cells, window, step).Some? && cells[0] > 0
    ensures var m := Decode(cells, window, step).value.authentication;
            && m.Some? && m.value.latency.Some?
            && m.value.latency.value.profile == if KnownProfile(cells[PROFILE_CELL]) then cells[PROFILE_CELL] else PROFILE_INTERACTIVE
  {
    AuthenticationIsRead(cells, ReadCells(cells));
  }

  // The window and the width are those of the query.
  lemma DecodedWindow(cells: seq<nat>, window: i64, step: nat)
    requires |cells| == CELLS && step / 1_000 <= U32_MAX && Decode(cells, window, step).Some?
    ensures var b := Decode(cells, window, step).value;
            && b.start == window && b.width == step / 1_000 && b.schema == SCHEMA_V1 && b.closed && b.revision == 1
            && b.realmId == "aggregate" && b.assignmentEpoch == 1 && b.firstSequence == b.lastSequence == 0
  {
  }

  // ------------------------------------------------------------ what an overview counts of it

  function FactOf(metric: Series.Metric): Fact
    requires Series.OfFamily(metric)
  {
    match metric
    case RegistrationsCompleted => RegistrationsCompleted
    case SessionsCreated => SessionsCreated
    case ServiceAccountCalls => Calls
    case WebhookFailures => DeliveriesFailed
  }

  // Each metric counts the number it is named for.
  lemma MetricsCountTheNumbers(b: TelemetryBucket, metric: Series.Metric)
    requires Series.OfFamily(metric)
    ensures Series.Counted(metric)(b) == Number(b, FactOf(metric)) && Series.Deliveries()(b) == Number(b, Deliveries)
  {
  }

  lemma MetricSums(bs: seq<TelemetryBucket>, metric: Series.Metric)
    requires Series.OfFamily(metric)
    ensures Sum(bs, Series.Counted(metric)) == Sum(bs, NumberOf(FactOf(metric)))
    ensures Sum(bs, Series.Deliveries()) == Sum(bs, NumberOf(Deliveries))
  {
    forall i | 0 <= i < |bs|
      ensures Series.Counted(metric)(bs[i]) == NumberOf(FactOf(metric))(bs[i])
      ensures Series.Deliveries()(bs[i]) == NumberOf(Deliveries)(bs[i])
    {
      MetricsCountTheNumbers(bs[i], metric);
    }
    SumOfEqual(bs, Series.Counted(metric), NumberOf(FactOf(metric)));
    SumOfEqual(bs, Series.Deliveries(), NumberOf(Deliveries));
  }

  // An overview or a series over a rollup counts what it would over the buckets that the rollup was made of.
  lemma RollupsCountLikeTheirBuckets(bs: seq<TelemetryBucket>, cells: seq<nat>, window: i64, step: nat, metric: Series.Metric)
    requires AggregatedFrom(cells, bs) && step / 1_000 <= U32_MAX && Decode(cells, window, step).Some? && Series.OfFamily(metric)
    ensures var b := Decode(cells, window, step).value;
            && Series.Counted(metric)(b) == Sum(bs, Series.Counted(metric))
            && Series.Deliveries()(b) == Sum(bs, Series.Deliveries())
  {
    MetricsCountTheNumbers(Decode(cells, window, step).value, metric);
    MetricSums(bs, metric);
    DecodedNumbersAreTotals(bs, cells, window, step, FactOf(metric));
    DecodedNumbersAreTotals(bs, cells, window, step, Deliveries);
  }
}
