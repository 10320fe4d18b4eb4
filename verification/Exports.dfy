// What a local bucket tells the fleet: src/store/analytics_store.rs.

module Exports {
  import opened Numbers
  import opened Histogram
  import opened Buckets
  import opened Projector
  import Breakdown

  predicate IsService(k: Kind) {
    k.ServiceToken? || k.ServiceFailed? || k.ServiceDenied? || k.ServiceCredential?
  }

  predicate IsWebhook(k: Kind) {
    k.WebhookQueued? || Delivery(k)
  }

  ghost predicate SawService(es: seq<Entry>) {
    exists i :: 0 <= i < |es| && IsService(es[i].event.kind)
  }

  ghost predicate SawWebhook(es: seq<Entry>) {
    exists i :: 0 <= i < |es| && IsWebhook(es[i].event.kind)
  }

  lemma SawStep(es: seq<Entry>, init: seq<Entry>, x: Entry)
    requires es == init + [x]
    ensures SawService(es) <==> SawService(init) || IsService(x.event.kind)
    ensures SawWebhook(es) <==> SawWebhook(init) || IsWebhook(x.event.kind)
  {
    assert forall i :: 0 <= i < |init| ==> es[i] == init[i];
    assert es[|init|] == x;
  }

  lemma {:induction false} ServiceSeenExactly(es: seq<Entry>)
    ensures SawService(es) <==>
            Count(es, ServiceToken) + Count(es, ServiceFailed) + Count(es, ServiceDenied) + Count(es, ServiceCredential) > 0
  {
    if es != [] {
      var init, x := es[..|es| - 1], es[|es| - 1];
      assert es == init + [x];
      CountStep(init, x);
      SawStep(es, init, x);
      ServiceSeenExactly(init);
    }
  }

  lemma {:induction false} WebhookSeenExactly(es: seq<Entry>)
    ensures SawWebhook(es) <==> Count(es, WebhookQueued) + Count(es, WebhookSucceeded) + Count(es, WebhookFailed) > 0
  {
    if es != [] {
      var init, x := es[..|es| - 1], es[|es| - 1];
      assert es == init + [x];
      CountStep(init, x);
      SawStep(es, init, x);
      WebhookSeenExactly(init);
    }
  }

  ghost predicate LatencyTells(latency: Option<LatencyHistogram>, profile: i32, bounds: seq<nat>, ls: seq<nat>) {
    && latency.Some? && latency.value.profile == profile && latency.value.count == |ls|
    && latency.value.sum == Min(U64_MAX, Total(ls)) && latency.value.cumulative == Cumulative(bounds, ls)
  }

  ghost predicate AuthenticationTells(m: AuthenticationMetrics, es: seq<Entry>) {
    && m.successes == Count(es, AuthenticationCompleted) && m.failures == Count(es, AuthenticationFailed)
    && m.denials == Count(es, AuthenticationDenied) && m.attempts == m.successes + m.failures + m.denials
    && m.activeAccounts == Min(U64_MAX, |Subjects(es)|)
    && LatencyTells(m.latency, PROFILE_INTERACTIVE, INTERACTIVE_BOUNDS, Latencies(es))
  }

  // One flow, the passkey one, with everything; and for each class the failures and denials of that class.
  ghost predicate BreakdownsTell(m: AuthenticationMetrics, es: seq<Entry>) {
    && |m.flows| == 1 && m.flows[0].flow == 1 && m.flows[0].attempts == m.attempts && m.flows[0].successes == m.successes
    && m.flows[0].failures == m.failures && m.flows[0].denials == m.denials
    && forall c: Class :: Breakdown.ClassCount(m.failureClasses, c + 1) == Sum(es, OfClass(c))
  }

  ghost predicate RegistrationTells(m: RegistrationMetrics, es: seq<Entry>) {
    && m.optionsStarted == Count(es, RegistrationOptions) && m.ceremoniesOpened == Count(es, RegistrationOpened)
    && m.responsesReturned == Count(es, RegistrationResponse) && m.completed == Count(es, RegistrationCompleted)
    && m.expired == Count(es, RegistrationExpired)
  }

  ghost predicate SessionsTell(m: SessionTokenMetrics, es: seq<Entry>) {
    && m.created == Count(es, SessionCreated) && m.revoked == Count(es, SessionsRevoked)
    && m.userTokens == Min(U64_MAX, Sum(es, TokensOf())) && m.serviceTokens == Count(es, ServiceToken)
  }

  ghost predicate ServiceTells(m: ServiceAccountMetrics, es: seq<Entry>) {
    && m.successes == Count(es, ServiceToken) && m.failures == Count(es, ServiceFailed)
    && m.denials == Count(es, ServiceDenied) && m.rotations == Count(es, ServiceCredential)
    && m.calls == m.successes + m.failures + m.denials
  }

  ghost predicate WebhooksTell(m: WebhookMetrics, es: seq<Entry>) {
    && m.successes == Count(es, WebhookSucceeded) && m.failures == Count(es, WebhookFailed)
    && m.deliveries == m.successes + m.failures && m.backlog == Backlog(es)
    && LatencyTells(m.latency, PROFILE_DELIVERY, DELIVERY_BOUNDS, DeliveryLatencies(es))
  }

  // ------------------------------------------------------------ each family

  lemma {:induction false} ExportedClassCount(classes: seq<u64>, from: nat, c: Class)
    requires |classes| == FAILURE_CLASSES && from <= FAILURE_CLASSES
    ensures Breakdown.ClassCount(ExportClasses(classes, from), c + 1) == if from <= c then classes[c] else 0
    decreases FAILURE_CLASSES - from
  {
    if from < FAILURE_CLASSES {
      ExportedClassCount(classes, from + 1, c);
      if classes[from] > 0 {
        var first, rest := FailureCount(from + 1, classes[from], []), ExportClasses(classes, from + 1);
        SumOfConcat([first], rest, Breakdown.OfClass(c + 1));
        SumOfOne(first, Breakdown.OfClass(c + 1));
      }
    }
  }

  lemma ExportedAuthentication(a: Authentication, es: seq<Entry>, accounts: u64)
    requires AuthenticationHolds(a, es) && accounts == Min(U64_MAX, |Subjects(es)|)
    ensures AuthenticationTells(ExportAuthentication(a, accounts), es)
  {
  }

  lemma ExportedBreakdowns(a: Authentication, es: seq<Entry>, accounts: u64)
    requires ClassesHold(a.classes, es)
    ensures BreakdownsTell(ExportAuthentication(a, accounts), es)
  {
    forall c: Class
      ensures Breakdown.ClassCount(ExportClasses(a.classes, 0), c + 1) == Sum(es, OfClass(c))
    {
      ExportedClassCount(a.classes, 0, c);
    }
  }

  lemma ExportedCounters(b: LocalBucket, es: seq<Entry>, t: TelemetryBucket)
    requires |b.authentication.classes| == FAILURE_CLASSES && t == Export(b, t.realmId, t.assignmentEpoch)
    requires RegistrationHolds(b.registration, es) && SessionsHold(b.sessions, es) && ServiceHolds(b.service, es)
    ensures t.registration.Some? && RegistrationTells(t.registration.value, es)
    ensures t.sessions.Some? && SessionsTell(t.sessions.value, es)
    ensures t.serviceAccounts.Some? <==> SawService(es)
    ensures t.serviceAccounts.Some? ==> ServiceTells(t.serviceAccounts.value, es)
  {
    ServiceSeenExactly(es);
  }

  lemma ExportedWebhooks(b: LocalBucket, es: seq<Entry>, t: TelemetryBucket)
    requires |b.authentication.classes| == FAILURE_CLASSES && t == Export(b, t.realmId, t.assignmentEpoch)
    requires WebhooksHold(b.webhooks, es)
    ensures (t.webhooks.Some? <==> SawWebhook(es)) && (t.webhooks.Some? ==> WebhooksTell(t.webhooks.value, es))
  {
    WebhookSeenExactly(es);
  }

  // The record of a window tells of exactly the events of the window, in every family, field by field.
  lemma ExportTellsTheEvents(b: LocalBucket, es: seq<Entry>, realmId: string, epoch: u64, t: TelemetryBucket)
    requires Represents(b, es) && t == Export(b, realmId, epoch)
    ensures t.authentication.Some? && AuthenticationTells(t.authentication.value, es) && BreakdownsTell(t.authentication.value, es)
    ensures t.registration.Some? && RegistrationTells(t.registration.value, es)
    ensures t.sessions.Some? && SessionsTell(t.sessions.value, es)
    ensures t.serviceAccounts.Some? <==> SawService(es)
    ensures t.serviceAccounts.Some? ==> ServiceTells(t.serviceAccounts.value, es)
    ensures t.webhooks.Some? <==> SawWebhook(es)
    ensures t.webhooks.Some? ==> WebhooksTell(t.webhooks.value, es)
    ensures t.platform.None? && t.realmHealth.None?
  {
    ExportedAuthentication(b.authentication, es, Min(|b.subjects|, U64_MAX));
    ExportedBreakdowns(b.authentication, es, Min(|b.subjects|, U64_MAX));
    ExportedCounters(b, es, t);
    ExportedWebhooks(b, es, t);
  }

  // Its header names the window, the span of the events that count, and the realm it comes from.
  lemma ExportNamesTheWindow(b: LocalBucket, es: seq<Entry>, realmId: string, epoch: u64, t: TelemetryBucket)
    requires Represents(b, es) && b.start <= I64_MAX / 1_000 && t == Export(b, realmId, epoch)
    ensures t.realmId == realmId && t.assignmentEpoch == epoch && t.start == 1_000 * b.start && t.width == BUCKET_WIDTH_SECONDS
    ensures t.closed == b.closed && t.revision >= 1 && (b.revision >= 1 ==> t.revision == b.revision)
    ensures HeaderHolds(t.firstSequence, t.lastSequence, es)
  {
  }
}
