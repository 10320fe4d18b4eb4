// Reporting coverage: src/analytics_rpc.rs (how it is computed) and src/analytics.rs (the contract it is held to).

module Coverage {
  import opened Numbers
  import opened Buckets

  const STALE_MILLISECONDS: int := 900_000
  const I64_MIN: int := -0x8000_0000_0000_0000
  const TELEMETRY_CAPABILITY := "telemetry.rollups.v1"

  datatype Family = Authentication | Registration | SessionsAndTokens | ServiceAccounts | Webhooks | Platform | RealmHealth

  predicate Carries(b: TelemetryBucket, family: Family) {
    match family
    case Authentication => b.authentication.Some?
    case Registration => b.registration.Some?
    case SessionsAndTokens => b.sessions.Some?
    case ServiceAccounts => b.serviceAccounts.Some?
    case Webhooks => b.webhooks.Some?
    case Platform => b.platform.Some?
    case RealmHealth => b.realmHealth.Some?
  }

  datatype Connection = Connection(id: nat, organization: nat, capabilities: seq<(string, nat)>, offline: bool)
  datatype Report = Report(connection: nat, start: i64, bucket: TelemetryBucket)

  datatype ReportingCoverage = ReportingCoverage(
    family: Family, total: nat, expected: nat, reporting: nat, stale: nat, disabled: nat, unsupported: nat,
    lastCompleteWindow: int, partial: bool)

  // ------------------------------------------------------------ what a connection counts as

  datatype Standing = Disabled | Unsupported | Reporting(last: int) | Stale

  predicate Enabled(policies: map<nat, bool>, c: Connection) {
    c.organization in policies && policies[c.organization]
  }

  predicate Supports(c: Connection) {
    exists i :: 0 <= i < |c.capabilities| && c.capabilities[i] == (TELEMETRY_CAPABILITY, 1)
  }

  predicate Speaks(r: Report, id: nat, family: Family) {
    r.connection == id && Carries(r.bucket, family)
  }

  ghost predicate IsLatest(reports: seq<Report>, id: nat, family: Family, last: int) {
    && (exists i :: 0 <= i < |reports| && Speaks(reports[i], id, family) && reports[i].start == last)
    && (forall i :: 0 <= i < |reports| && Speaks(reports[i], id, family) ==> reports[i].start <= last)
  }

  // Heard from within fifteen minutes of the end.
  ghost predicate InTime(start: int, endsAt: int) {
    start >= endsAt - 15 * 60_000
  }

  // Its organization has a policy that says yes; it announces the first version of the capability; and it is heard from
  // in time while not offline.
  ghost predicate Stands(reports: seq<Report>, policies: map<nat, bool>, endsAt: i64, family: Family, c: Connection, s: Standing) {
    var enabled := (c.organization, true) in policies.Items;
    var able := ("telemetry.rollups.v1", 1) in c.capabilities;
    match s
    case Disabled => !enabled
    case Unsupported => enabled && !able
    case Reporting(last) =>
      enabled && able && !c.offline && IsLatest(reports, c.id, family, last) && InTime(last, endsAt)
    case Stale =>
      && enabled && able
      && (c.offline || forall i :: 0 <= i < |reports| && Speaks(reports[i], c.id, family) ==> !InTime(reports[i].start, endsAt))
  }

  ghost function Last(reports: seq<Report>, id: nat, family: Family): Option<int> {
    if reports == [] then None
    else
      var before, r := Last(reports[..|reports| - 1], id, family), reports[|reports| - 1];
      if !Speaks(r, id, family) then before
      else if before.None? then Some(r.start as int) else Some(Max(before.value, r.start))
  }

  lemma {:induction false} LastIsLatest(reports: seq<Report>, id: nat, family: Family, last: Option<int>)
    requires last == Last(reports, id, family)
    ensures last.Some? ==> IsLatest(reports, id, family, last.value)
    ensures last.None? ==> forall i :: 0 <= i < |reports| ==> !Speaks(reports[i], id, family)
  {
    if reports != [] {
      var init, n := reports[..|reports| - 1], |reports| - 1;
      assert forall i :: 0 <= i < n ==> init[i] == reports[i];
      LastIsLatest(init, id, family, Last(init, id, family));
      if Last(init, id, family).Some? {
        var j :| 0 <= j < n && Speaks(init[j], id, family) && init[j].start == Last(init, id, family).value;
        assert Speaks(reports[j], id, family);
      }
    }
  }

  ghost function StandingOf(reports: seq<Report>, policies: map<nat, bool>, endsAt: int, family: Family, c: Connection): Standing {
    if !Enabled(policies, c) then Disabled
    else if !Supports(c) then Unsupported
    else
      var last := Last(reports, c.id, family);
      if last.Some? && last.value >= Max(endsAt - STALE_MILLISECONDS, I64_MIN) && !c.offline then Reporting(last.value)
      else Stale
  }

  // Every connection counts as exactly one thing, and it is what the computation takes it for.
  lemma StandsExactly(reports: seq<Report>, policies: map<nat, bool>, endsAt: i64, family: Family, c: Connection, s: Standing)
    ensures Stands(reports, policies, endsAt, family, c, s) <==> s == StandingOf(reports, policies, endsAt, family, c)
  {
    LastIsLatest(reports, c.id, family, Last(reports, c.id, family));
  }

  ghost predicate AreStandings(standings: seq<Standing>, connections: seq<Connection>, reports: seq<Report>,
                               policies: map<nat, bool>, endsAt: int, family: Family)
  {
    |standings| == |connections|
    && forall i :: 0 <= i < |connections| ==> standings[i] == StandingOf(reports, policies, endsAt, family, connections[i])
  }

  datatype Tally = Tally(disabled: nat, unsupported: nat, reporting: nat, stale: nat, window: int)

  function Kind(s: Standing): nat {
    match s
    case Disabled => 0
    case Unsupported => 1
    case Reporting(_) => 2
    case Stale => 3
  }

  function Count(standings: seq<Standing>, k: nat): nat {
    if standings == [] then 0
    else Count(standings[..|standings| - 1], k) + Bit(Kind(standings[|standings| - 1]) == k)
  }

  function Earliest(standings: seq<Standing>): Option<int> {
    if standings == [] then None
    else
      var before, s := Earliest(standings[..|standings| - 1]), standings[|standings| - 1];
      if !s.Reporting? then before
      else if before.None? then Some(s.last) else Some(Min(before.value, s.last))
  }

  lemma {:induction false} EarliestIsLeast(standings: seq<Standing>)
    ensures Earliest(standings).None? <==> Count(standings, 2) == 0
    ensures Earliest(standings).Some? ==> Reporting(Earliest(standings).value) in standings
    ensures forall s :: s in standings && s.Reporting? ==> Earliest(standings).Some? && Earliest(standings).value <= s.last
  {
    if standings != [] {
      var init, last := standings[..|standings| - 1], standings[|standings| - 1];
      assert standings == init + [last];
      EarliestIsLeast(init);
    }
  }

  // The count of each standing, and the earliest of the reporting connections' last windows.
  ghost predicate Tallies(standings: seq<Standing>, t: Tally) {
    && t.disabled == Count(standings, 0) && t.unsupported == Count(standings, 1)
    && t.reporting == Count(standings, 2) && t.stale == Count(standings, 3)
    && t.disabled + t.unsupported + t.reporting + t.stale == |standings|
    && t.window == (if Earliest(standings).Some? then Earliest(standings).value else 0)
  }

  // What is reported of them.
  ghost predicate Sums(standings: seq<Standing>, r: ReportingCoverage) {
    && Tallies(standings, Tally(r.disabled, r.unsupported, r.reporting, r.stale, r.lastCompleteWindow))
    && r.expected == r.reporting + r.stale && r.total == |standings|
    && r.partial == (r.stale > 0 || r.disabled > 0 || r.unsupported > 0)
  }

  // ------------------------------------------------------------ the computation

  ghost predicate Agrees(latest: map<nat, int>, reports: seq<Report>, family: Family) {
    forall id :: Last(reports, id, family) == if id in latest then Some(latest[id]) else None
  }

  // The last window that each connection has reported the family for.
  method LatestReports(reports: seq<Report>, family: Family) returns (latest: map<nat, int>)
    ensures Agrees(latest, reports, family)
  {
    latest := map[];
    for i := 0 to |reports|
      invariant Agrees(latest, reports[..i], family)
    {
      var r := reports[i];
      assert reports[..i + 1][..i] == reports[..i];
      assert Last(reports[..i], r.connection, family) == if r.connection in latest then Some(latest[r.connection]) else None;
      if Carries(r.bucket, family) {
        if r.connection in latest {
          latest := latest[r.connection := Max(latest[r.connection], r.start)];
        } else {
          latest := latest[r.connection := r.start];
        }
      }
    }
    assert reports[..|reports|] == reports;
  }

  method Judge(latest: map<nat, int>, policies: map<nat, bool>, endsAt: int, c: Connection, ghost reports: seq<Report>,
               ghost family: Family) returns (s: Standing)
    requires Agrees(latest, reports, family)
    ensures s == StandingOf(reports, policies, endsAt, family, c)
  {
    assert Last(reports, c.id, family) == if c.id in latest then Some(latest[c.id]) else None;
    if !Enabled(policies, c) {
      return Disabled;
    }
    if !Supports(c) {
      return Unsupported;
    }
    if c.id in latest && latest[c.id] >= Max(endsAt - STALE_MILLISECONDS, I64_MIN) && !c.offline {
      return Reporting(latest[c.id]);
    }
    return Stale;
  }

  lemma CountStep(standings: seq<Standing>, s: Standing)
    ensures forall k :: Count(standings + [s], k) == Count(standings, k) + Bit(Kind(s) == k)
  {
    assert (standings + [s])[..|standings|] == standings;
  }

  function Add(t: Tally, s: Standing): Tally {
    match s
    case Disabled => t.(disabled := t.disabled + 1)
    case Unsupported => t.(unsupported := t.unsupported + 1)
    case Reporting(last) =>
      t.(reporting := t.reporting + 1, window := if t.reporting == 0 then last else Min(t.window, last))
    case Stale => t.(stale := t.stale + 1)
  }

  lemma AddTallies(standings: seq<Standing>, t: Tally, s: Standing)
    requires Tallies(standings, t)
    ensures Tallies(standings + [s], Add(t, s))
  {
    CountStep(standings, s);
    EarliestIsLeast(standings);
    assert (standings + [s])[..|standings|] == standings;
  }

  lemma OneMoreStanding(standings: seq<Standing>, s: Standing, connections: seq<Connection>, i: nat, reports: seq<Report>,
                        policies: map<nat, bool>, endsAt: int, family: Family)
    requires i < |connections| && AreStandings(standings, connections[..i], reports, policies, endsAt, family)
    requires s == StandingOf(reports, policies, endsAt, family, connections[i])
    ensures AreStandings(standings + [s], connections[..i + 1], reports, policies, endsAt, family)
  {
  }

  method CoverageFamily(connections: seq<Connection>, policies: map<nat, bool>, reports: seq<Report>, endsAt: int, family: Family)
    returns (r: ReportingCoverage, ghost standings: seq<Standing>)
    ensures AreStandings(standings, connections, reports, policies, endsAt, family)
    ensures Sums(standings, r) && r.family == family
  {
    var latest := LatestReports(reports, family);
    standings := [];
    var t := Tally(0, 0, 0, 0, 0);
    for i := 0 to |connections|
      invariant AreStandings(standings, connections[..i], reports, policies, endsAt, family)
      invariant Tallies(standings, t)
    {
      var s := Judge(latest, policies, endsAt, connections[i], reports, family);
      AddTallies(standings, t, s);
      OneMoreStanding(standings, s, connections, i, reports, policies, endsAt, family);
      t := Add(t, s);
      standings := standings + [s];
    }
    assert connections[..|connections|] == connections;
    var expected := t.reporting + t.stale;
    r := ReportingCoverage(family, expected + t.disabled + t.unsupported, expected, t.reporting, t.stale, t.disabled,
                           t.unsupported, t.window, t.stale > 0 || t.disabled > 0 || t.unsupported > 0);
  }

  // ------------------------------------------------------------ the contract

  predicate ValidCoverage(r: ReportingCoverage) {
    && r.expected == r.reporting + r.stale && r.total == r.expected + r.disabled + r.unsupported
    && r.partial == (r.reporting < r.expected)
    && (r.lastCompleteWindow != 0 ==> ValidStart(r.lastCompleteWindow))
  }

  // The contract calls coverage partial only for stale realms, the computation also for disabled and unsupported
  // ones: it accepts what is computed exactly when some realm is stale or none is disabled or unsupported.
  lemma CoverageIsValidExactly(connections: seq<Connection>, reports: seq<Report>, policies: map<nat, bool>, endsAt: int,
                               family: Family, standings: seq<Standing>, r: ReportingCoverage)
    requires AreStandings(standings, connections, reports, policies, endsAt, family) && Sums(standings, r)
    requires forall i :: 0 <= i < |reports| ==> ValidStart(reports[i].start)
    ensures ValidCoverage(r) <==> r.stale > 0 || (r.disabled == 0 && r.unsupported == 0)
  {
    EarliestIsLeast(standings);
    if Earliest(standings).Some? {
      var i :| 0 <= i < |standings| && standings[i] == Reporting(r.lastCompleteWindow);
      LastIsLatest(reports, connections[i].id, family, Some(r.lastCompleteWindow));
    }
  }

  // One realm, disabled: computed, and refused by the contract.
  lemma DisabledRealmIsRefused(c: Connection, standings: seq<Standing>, r: ReportingCoverage)
    requires AreStandings(standings, [c], [], map[], 0, Authentication) && Sums(standings, r)
    ensures r.disabled == 1 && !ValidCoverage(r)
  {
    CountStep([], Disabled);
    assert standings[0] == StandingOf([], map[], 0, Authentication, [c][0]);
    assert standings == [] + [Disabled];
  }
}
