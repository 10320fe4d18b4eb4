// The local metric projection: src/store/analytics_store.rs.
//
// The event with sequence k is log[k - 1]. Event names are constructors, and what an event's data can hold that the
// projection reads is fields.

module Projector {
  import opened Numbers
  import opened Histogram
  import opened Buckets

  const MAX_PROJECTION_BATCH: nat := 10_000
  const CLOSE_GRACE_SECONDS: nat := 120
  const FAILURE_CLASSES: nat := 9

  datatype Kind =
    | AuthenticationOptions | AuthenticationCompleted | AuthenticationFailed | AuthenticationDenied
    | RegistrationOptions | RegistrationOpened | RegistrationResponse | RegistrationExpired | RegistrationCompleted
    | SessionCreated | SessionsRevoked | UserTokens
    | ServiceToken | ServiceFailed | ServiceDenied | ServiceCredential
    | WebhookQueued | WebhookSucceeded | WebhookFailed
    | Other

  type Class = x: nat | x < 9

  datatype Event = Event(
    kind: Kind, subject: Option<nat>, occurredAt: nat, latency: Option<u64>, failureClass: Class,
    count: Option<u64>, subjects: set<nat>, backlog: Option<u64>)

  function Window(e: Event): nat {
    e.occurredAt - e.occurredAt % BUCKET_WIDTH_SECONDS
  }

  // The five minutes that the event happened in.
  lemma WindowHoldsTheEvent(e: Event)
    ensures Window(e) % BUCKET_WIDTH_SECONDS == 0 && Window(e) <= e.occurredAt < Window(e) + BUCKET_WIDTH_SECONDS
  {
  }

  predicate Outcome(k: Kind) {
    k.AuthenticationCompleted? || k.AuthenticationFailed? || k.AuthenticationDenied?
  }

  predicate Delivery(k: Kind) {
    k.WebhookSucceeded? || k.WebhookFailed?
  }

  predicate ObservesAccount(k: Kind) {
    k.AuthenticationOptions? || Outcome(k) || k.RegistrationOptions? || k.RegistrationOpened? || k.RegistrationResponse?
    || k.RegistrationExpired? || k.RegistrationCompleted? || k.SessionCreated? || k.SessionsRevoked? || k.UserTokens?
  }

  // A latency histogram as it is stored.
  datatype Latency = Latency(count: u64, sum: u64, cumulative: seq<u64>)

  datatype Authentication = Authentication(
    options: u64, attempts: u64, successes: u64, failures: u64, denials: u64, latency: Latency, classes: seq<u64>)
  datatype Registration = Registration(options: u64, ceremonies: u64, responses: u64, completed: u64, expired: u64)
  datatype Sessions = Sessions(created: u64, revoked: u64, userTokens: u64, serviceTokens: u64)
  datatype Service = Service(observed: bool, calls: u64, successes: u64, failures: u64, denials: u64, rotations: u64)
  datatype Webhooks = Webhooks(
    observed: bool, deliveries: u64, successes: u64, failures: u64, latency: Latency, backlog: u64)

  datatype LocalBucket = LocalBucket(
    start: nat, revision: u64, first: u64, last: u64, closed: bool, authentication: Authentication,
    registration: Registration, sessions: Sessions, service: Service, webhooks: Webhooks, subjects: set<nat>)

  function Zeros(n: nat): seq<u64> {
    seq(n, _ => 0)
  }

  function NoLatency(): Latency {
    Latency(0, 0, Zeros(12))
  }

  function NewBucket(start: nat): LocalBucket {
    LocalBucket(start, 1, 0, 0, false, Authentication(0, 0, 0, 0, 0, NoLatency(), Zeros(FAILURE_CLASSES)),
                Registration(0, 0, 0, 0, 0), Sessions(0, 0, 0, 0), Service(false, 0, 0, 0, 0, 0),
                Webhooks(false, 0, 0, 0, NoLatency(), 0), {})
  }

  // ------------------------------------------------------------ applying one event

  function Inc(x: u64): u64 {
    SaturatingAdd(x, 1)
  }

  function Observed(l: Latency, bounds: seq<nat>, value: Option<u64>): Latency
    requires |l.cumulative| == |bounds| + 1
  {
    if value.None? then l
    else
      Latency(Inc(l.count), SaturatingAdd(l.sum, value.value),
              seq(|bounds| + 1, i requires 0 <= i <= |bounds| =>
                if i == |bounds| || value.value <= bounds[i] then Inc(l.cumulative[i]) else l.cumulative[i]))
  }

  predicate Shaped(b: LocalBucket) {
    |b.authentication.latency.cumulative| == 12 && |b.authentication.classes| == FAILURE_CLASSES
    && |b.webhooks.latency.cumulative| == 12
  }

  function Resize(s: seq<u64>, n: nat): seq<u64> {
    if |s| >= n then s[..n] else s + Zeros(n - |s|)
  }

  // A stored record may be older than its fields.
  function Normalize(b: LocalBucket): LocalBucket {
    var a, w := b.authentication, b.webhooks;
    b.(authentication := a.(latency := a.latency.(cumulative := Resize(a.latency.cumulative, 12)),
                            classes := Resize(a.classes, FAILURE_CLASSES)),
       webhooks := w.(latency := w.latency.(cumulative := Resize(w.latency.cumulative, 12))))
  }

  lemma NormalizeShapes(b: LocalBucket)
    ensures Shaped(Normalize(b)) && (Shaped(b) ==> Normalize(b) == b)
  {
  }

  // Counts that are there are kept, and counts that are not start at zero.
  ghost predicate Extends(longer: seq<u64>, stored: seq<u64>) {
    forall i :: 0 <= i < |longer| ==> longer[i] == if i < |stored| then stored[i] else 0
  }

  lemma NormalizeKeeps(b: LocalBucket)
    ensures Extends(Normalize(b).authentication.latency.cumulative, b.authentication.latency.cumulative)
    ensures Extends(Normalize(b).authentication.classes, b.authentication.classes)
    ensures Extends(Normalize(b).webhooks.latency.cumulative, b.webhooks.latency.cumulative)
  {
  }

  function ApplyAuthentication(a: Authentication, e: Event): Authentication
    requires |a.latency.cumulative| == 12 && |a.classes| == FAILURE_CLASSES
  {
    var timed := a.(attempts := Inc(a.attempts), latency := Observed(a.latency, INTERACTIVE_BOUNDS, e.latency));
    var classes := a.classes[e.failureClass := Inc(a.classes[e.failureClass])];
    match e.kind
    case AuthenticationOptions => a.(options := Inc(a.options))
    case AuthenticationCompleted => timed.(successes := Inc(a.successes))
    case AuthenticationFailed => timed.(failures := Inc(a.failures), classes := classes)
    case AuthenticationDenied => timed.(denials := Inc(a.denials), classes := classes)
    case _ => a
  }

  function ApplyRegistration(r: Registration, k: Kind): Registration {
    match k
    case RegistrationOptions => r.(options := Inc(r.options))
    case RegistrationOpened => r.(ceremonies := Inc(r.ceremonies))
    case RegistrationResponse => r.(responses := Inc(r.responses))
    case RegistrationExpired => r.(expired := Inc(r.expired))
    case RegistrationCompleted => r.(completed := Inc(r.completed))
    case _ => r
  }

  function ApplySessions(s: Sessions, e: Event): Sessions {
    match e.kind
    case SessionCreated => s.(created := Inc(s.created))
    case SessionsRevoked => s.(revoked := Inc(s.revoked))
    case UserTokens => s.(userTokens := SaturatingAdd(s.userTokens, if e.count.Some? then e.count.value else 1))
    case ServiceToken => s.(serviceTokens := Inc(s.serviceTokens))
    case _ => s
  }

  function ApplyService(s: Service, k: Kind): Service {
    var called := s.(observed := true, calls := Inc(s.calls));
    match k
    case ServiceToken => called.(successes := Inc(s.successes))
    case ServiceFailed => called.(failures := Inc(s.failures))
    case ServiceDenied => called.(denials := Inc(s.denials))
    case ServiceCredential => s.(observed := true, rotations := Inc(s.rotations))
    case _ => s
  }

  function ApplyWebhooks(w: Webhooks, e: Event): Webhooks
    requires |w.latency.cumulative| == 12
  {
    var seen := w.(observed := true, backlog := if e.backlog.Some? then e.backlog.value else w.backlog);
    var sent := seen.(deliveries := Inc(w.deliveries), latency := Observed(w.latency, DELIVERY_BOUNDS, e.latency));
    match e.kind
    case WebhookQueued => seen
    case WebhookSucceeded => sent.(successes := Inc(w.successes))
    case WebhookFailed => sent.(failures := Inc(w.failures))
    case _ => w
  }

  function Accounts(e: Event): set<nat> {
    (if ObservesAccount(e.kind) && e.subject.Some? then {e.subject.value} else {})
    + if e.kind.UserTokens? then e.subjects else {}
  }

  function Apply(b: LocalBucket, e: Event, sequence: u64): LocalBucket
    requires Shaped(b)
  {
    if e.kind.Other? then b
    else
      b.(first := if b.first == 0 then sequence else Min(b.first, sequence), last := Max(b.last, sequence),
         authentication := ApplyAuthentication(b.authentication, e),
         registration := ApplyRegistration(b.registration, e.kind), sessions := ApplySessions(b.sessions, e),
         service := ApplyService(b.service, e.kind), webhooks := ApplyWebhooks(b.webhooks, e),
         subjects := b.subjects + Accounts(e))
  }

  // ------------------------------------------------------------ what a bucket stands for

  // An event with its sequence.
  datatype Entry = Entry(sequence: u64, event: Event)

  function OfKind(k: Kind): Entry -> nat {
    (x: Entry) => Bit(x.event.kind == k)
  }

  function Count(es: seq<Entry>, k: Kind): nat {
    Sum(es, OfKind(k))
  }

  function OfClass(c: Class): Entry -> nat {
    (x: Entry) => Bit((x.event.kind.AuthenticationFailed? || x.event.kind.AuthenticationDenied?) && x.event.failureClass == c)
  }

  function TokensOf(): Entry -> nat {
    (x: Entry) => if !x.event.kind.UserTokens? then 0 else if x.event.count.Some? then x.event.count.value else 1
  }

  function Latencies(es: seq<Entry>): seq<nat> {
    if es == [] then []
    else
      var rest, e := Latencies(es[..|es| - 1]), es[|es| - 1].event;
      if Outcome(e.kind) && e.latency.Some? then rest + [e.latency.value] else rest
  }

  function DeliveryLatencies(es: seq<Entry>): seq<nat> {
    if es == [] then []
    else
      var rest, e := DeliveryLatencies(es[..|es| - 1]), es[|es| - 1].event;
      if Delivery(e.kind) && e.latency.Some? then rest + [e.latency.value] else rest
  }

  function Subjects(es: seq<Entry>): set<nat> {
    if es == [] then {}
    else Subjects(es[..|es| - 1]) + if es[|es| - 1].event.kind.Other? then {} else Accounts(es[|es| - 1].event)
  }

  // An account shows in an event: as its subject, unless the event is about a service account, a webhook or nothing
  // known; or among those that tokens were issued to.
  predicate Shows(e: Event, account: nat) {
    match e.kind
    case ServiceToken | ServiceFailed | ServiceDenied | ServiceCredential => false
    case WebhookQueued | WebhookSucceeded | WebhookFailed | Other => false
    case UserTokens => e.subject == Some(account) || account in e.subjects
    case _ => e.subject == Some(account)
  }

  lemma {:induction false} SubjectsAreShown(es: seq<Entry>, account: nat)
    ensures account in Subjects(es) <==> exists i :: 0 <= i < |es| && Shows(es[i].event, account)
  {
    if es != [] {
      var n := |es| - 1;
      var init := es[..n];
      SubjectsAreShown(init, account);
      assert forall i :: 0 <= i < n ==> es[i] == init[i];
      assert account in Accounts(es[n].event) && !es[n].event.kind.Other? <==> Shows(es[n].event, account);
    }
  }

  // The last backlog that was seen.
  function Backlog(es: seq<Entry>): nat {
    if es == [] then 0
    else
      var e := es[|es| - 1].event;
      if (e.kind.WebhookQueued? || Delivery(e.kind)) && e.backlog.Some? then e.backlog.value else Backlog(es[..|es| - 1])
  }

  function Total(ls: seq<nat>): nat {
    Sum(ls, (l: nat) => l)
  }

  ghost predicate IsHistogram(l: Latency, bounds: seq<nat>, ls: seq<nat>) {
    l.count == |ls| && l.sum == Min(U64_MAX, Total(ls)) && l.cumulative == Cumulative(bounds, ls)
  }

  ghost predicate OutcomesHold(a: Authentication, es: seq<Entry>) {
    && a.options == Count(es, AuthenticationOptions)
    && a.successes == Count(es, AuthenticationCompleted) && a.failures == Count(es, AuthenticationFailed)
    && a.denials == Count(es, AuthenticationDenied) && a.attempts == a.successes + a.failures + a.denials
  }

  ghost predicate ClassesHold(classes: seq<u64>, es: seq<Entry>) {
    |classes| == FAILURE_CLASSES && forall c: Class :: classes[c] == Sum(es, OfClass(c))
  }

  ghost predicate AuthenticationHolds(a: Authentication, es: seq<Entry>) {
    OutcomesHold(a, es) && ClassesHold(a.classes, es) && IsHistogram(a.latency, INTERACTIVE_BOUNDS, Latencies(es))
  }

  ghost predicate RegistrationHolds(r: Registration, es: seq<Entry>) {
    && r.options == Count(es, RegistrationOptions) && r.ceremonies == Count(es, RegistrationOpened)
    && r.responses == Count(es, RegistrationResponse) && r.completed == Count(es, RegistrationCompleted)
    && r.expired == Count(es, RegistrationExpired)
  }

  ghost predicate SessionsHold(s: Sessions, es: seq<Entry>) {
    && s.created == Count(es, SessionCreated) && s.revoked == Count(es, SessionsRevoked)
    && s.userTokens == Min(U64_MAX, Sum(es, TokensOf())) && s.serviceTokens == Count(es, ServiceToken)
  }

  ghost predicate ServiceHolds(s: Service, es: seq<Entry>) {
    && s.successes == Count(es, ServiceToken) && s.failures == Count(es, ServiceFailed)
    && s.denials == Count(es, ServiceDenied) && s.rotations == Count(es, ServiceCredential)
    && s.calls == s.successes + s.failures + s.denials && (s.observed <==> s.calls + s.rotations > 0)
  }

  ghost predicate DeliveriesHold(w: Webhooks, es: seq<Entry>) {
    && w.successes == Count(es, WebhookSucceeded) && w.failures == Count(es, WebhookFailed)
    && w.deliveries == w.successes + w.failures && (w.observed <==> w.deliveries + Count(es, WebhookQueued) > 0)
  }

  ghost predicate WebhooksHold(w: Webhooks, es: seq<Entry>) {
    && DeliveriesHold(w, es) && w.backlog == Backlog(es)
    && IsHistogram(w.latency, DELIVERY_BOUNDS, DeliveryLatencies(es))
  }

  // Some event that counts has that sequence.
  ghost predicate Carries(es: seq<Entry>, sequence: nat) {
    exists i :: 0 <= i < |es| && !es[i].event.kind.Other? && es[i].sequence == sequence
  }

  // The least and the greatest sequence of an event that counts, or zero when there is none.
  ghost predicate HeaderHolds(first: nat, last: nat, es: seq<Entry>) {
    && (forall i :: 0 <= i < |es| && !es[i].event.kind.Other? ==> 0 < first <= es[i].sequence <= last)
    && (first == 0 <==> last == 0) && (first > 0 ==> Carries(es, first) && Carries(es, last))
  }

  lemma CarriesStep(es: seq<Entry>, x: Entry, sequence: nat)
    ensures Carries(es + [x], sequence) <==> Carries(es, sequence) || (!x.event.kind.Other? && x.sequence == sequence)
  {
    var longer := es + [x];
    assert longer[|es|] == x;
    assert forall i :: 0 <= i < |es| ==> longer[i] == es[i];
  }

  ghost predicate OthersHold(b: LocalBucket, es: seq<Entry>) {
    && RegistrationHolds(b.registration, es) && SessionsHold(b.sessions, es) && ServiceHolds(b.service, es)
    && HeaderHolds(b.first, b.last, es) && b.subjects == Subjects(es)
  }

  // Every count, histogram and set of a bucket is that of the events it stands for.
  ghost predicate Represents(b: LocalBucket, es: seq<Entry>) {
    AuthenticationHolds(b.authentication, es) && WebhooksHold(b.webhooks, es) && OthersHold(b, es)
  }

  lemma CountStep(es: seq<Entry>, x: Entry)
    ensures forall k :: Count(es + [x], k) == Count(es, k) + Bit(x.event.kind == k)
  {
    assert (es + [x])[..|es|] == es;
  }

  lemma ClassStep(es: seq<Entry>, x: Entry)
    ensures forall c: Class :: Sum(es + [x], OfClass(c)) == Sum(es, OfClass(c)) + OfClass(c)(x)
  {
    assert (es + [x])[..|es|] == es;
  }

  function Timed(wanted: bool, latency: Option<u64>): seq<nat> {
    if wanted && latency.Some? then [latency.value] else []
  }

  lemma LatenciesStep(es: seq<Entry>, x: Entry)
    ensures Latencies(es + [x]) == Latencies(es) + Timed(Outcome(x.event.kind), x.event.latency)
    ensures DeliveryLatencies(es + [x]) == DeliveryLatencies(es) + Timed(Delivery(x.event.kind), x.event.latency)
  {
    assert (es + [x])[..|es|] == es;
  }

  lemma {:induction false} CountAtMost(es: seq<Entry>, f: Entry -> nat)
    requires forall x :: f(x) <= 1
    ensures Sum(es, f) <= |es|
  {
    if es != [] {
      CountAtMost(es[..|es| - 1], f);
    }
  }

  lemma HistogramStep(l: Latency, bounds: seq<nat>, ls: seq<nat>, value: Option<u64>)
    requires IsHistogram(l, bounds, ls) && |ls| < U64_MAX
    ensures IsHistogram(Observed(l, bounds, value), bounds, ls + Timed(true, value))
  {
    if value.None? {
      assert ls + [] == ls;
    } else {
      var v := value.value;
      assert (ls + [v])[..|ls|] == ls;
      forall i | 0 <= i <= |bounds|
        ensures Observed(l, bounds, value).cumulative[i] == Cumulative(bounds, ls + [v])[i]
      {
        assert l.cumulative[i] == Cumulative(bounds, ls)[i];
      }
    }
  }

  // No event is of two kinds.
  lemma {:induction false} KindsAtMost(es: seq<Entry>, a: Kind, b: Kind, c: Kind)
    requires a != b && b != c && a != c
    ensures Count(es, a) + Count(es, b) + Count(es, c) <= |es|
  {
    if es != [] {
      var init, x := es[..|es| - 1], es[|es| - 1];
      KindsAtMost(init, a, b, c);
      CountStep(init, x);
      assert es == init + [x];
    }
  }

  lemma OutcomesAtMost(es: seq<Entry>)
    ensures Count(es, AuthenticationCompleted) + Count(es, AuthenticationFailed) + Count(es, AuthenticationDenied) <= |es|
    ensures Count(es, ServiceToken) + Count(es, ServiceFailed) + Count(es, ServiceDenied) <= |es|
    ensures Count(es, WebhookSucceeded) + Count(es, WebhookFailed) <= |es|
  {
    KindsAtMost(es, AuthenticationCompleted, AuthenticationFailed, AuthenticationDenied);
    KindsAtMost(es, ServiceToken, ServiceFailed, ServiceDenied);
    KindsAtMost(es, WebhookSucceeded, WebhookFailed, WebhookQueued);
  }

  lemma {:induction false} LatenciesAtMost(es: seq<Entry>)
    ensures |Latencies(es)| <= |es| && |DeliveryLatencies(es)| <= |es|
  {
    if es != [] {
      LatenciesAtMost(es[..|es| - 1]);
    }
  }

  predicate OutcomesMove(a: Authentication, after: Authentication, k: Kind) {
    && after.options == a.options + Bit(k == AuthenticationOptions)
    && after.successes == a.successes + Bit(k == AuthenticationCompleted)
    && after.failures == a.failures + Bit(k == AuthenticationFailed) && after.denials == a.denials + Bit(k == AuthenticationDenied)
    && after.attempts == after.successes + after.failures + after.denials
  }

  // No counter saturates.
  lemma OutcomeCounts(a: Authentication, e: Event)
    requires |a.latency.cumulative| == 12 && |a.classes| == FAILURE_CLASSES
    requires a.attempts == a.successes + a.failures + a.denials < U64_MAX && a.options < U64_MAX
    ensures OutcomesMove(a, ApplyAuthentication(a, e), e.kind)
  {
  }

  lemma OutcomesRoom(a: Authentication, es: seq<Entry>)
    requires OutcomesHold(a, es) && |es| < U64_MAX
    ensures a.attempts == a.successes + a.failures + a.denials < U64_MAX && a.options < U64_MAX
  {
    OutcomesAtMost(es);
    CountAtMost(es, OfKind(AuthenticationOptions));
  }

  lemma OutcomesAdvance(a: Authentication, after: Authentication, es: seq<Entry>, x: Entry)
    requires OutcomesHold(a, es) && OutcomesMove(a, after, x.event.kind)
    ensures OutcomesHold(after, es + [x])
  {
    CountStep(es, x);
  }

  lemma OutcomesStep(a: Authentication, es: seq<Entry>, x: Entry)
    requires OutcomesHold(a, es) && |a.classes| == FAILURE_CLASSES && |a.latency.cumulative| == 12 && |es| < U64_MAX
    ensures OutcomesHold(ApplyAuthentication(a, x.event), es + [x])
  {
    OutcomesRoom(a, es);
    OutcomeCounts(a, x.event);
    OutcomesAdvance(a, ApplyAuthentication(a, x.event), es, x);
  }

  lemma ClassesStep(a: Authentication, es: seq<Entry>, x: Entry)
    requires |a.latency.cumulative| == 12 && ClassesHold(a.classes, es) && |es| < U64_MAX
    ensures ClassesHold(ApplyAuthentication(a, x.event).classes, es + [x])
  {
    ClassStep(es, x);
    CountAtMost(es, OfClass(x.event.failureClass));
  }

  lemma LatencyStep(a: Authentication, e: Event, ls: seq<nat>)
    requires |a.classes| == FAILURE_CLASSES && IsHistogram(a.latency, INTERACTIVE_BOUNDS, ls) && |ls| < U64_MAX
    ensures IsHistogram(ApplyAuthentication(a, e).latency, INTERACTIVE_BOUNDS, ls + Timed(Outcome(e.kind), e.latency))
  {
    if Outcome(e.kind) {
      HistogramStep(a.latency, INTERACTIVE_BOUNDS, ls, e.latency);
    } else {
      assert ls + [] == ls;
    }
  }

  lemma AuthenticationStep(a: Authentication, es: seq<Entry>, x: Entry)
    requires AuthenticationHolds(a, es) && |es| < U64_MAX
    ensures AuthenticationHolds(ApplyAuthentication(a, x.event), es + [x])
  {
    OutcomesStep(a, es, x);
    ClassesStep(a, es, x);
    LatenciesAtMost(es);
    LatenciesStep(es, x);
    LatencyStep(a, x.event, Latencies(es));
  }

  lemma RegistrationStep(r: Registration, es: seq<Entry>, x: Entry)
    requires RegistrationHolds(r, es) && |es| < U64_MAX
    ensures RegistrationHolds(ApplyRegistration(r, x.event.kind), es + [x])
  {
    CountStep(es, x);
    CountAtMost(es, OfKind(x.event.kind));
  }

  lemma SessionsStep(s: Sessions, es: seq<Entry>, x: Entry)
    requires SessionsHold(s, es) && |es| < U64_MAX
    ensures SessionsHold(ApplySessions(s, x.event), es + [x])
  {
    CountStep(es, x);
    CountAtMost(es, OfKind(x.event.kind));
    assert (es + [x])[..|es|] == es;
  }

  predicate ServiceMoves(s: Service, after: Service, k: Kind) {
    && after.successes == s.successes + Bit(k == ServiceToken) && after.failures == s.failures + Bit(k == ServiceFailed)
    && after.denials == s.denials + Bit(k == ServiceDenied) && after.rotations == s.rotations + Bit(k == ServiceCredential)
    && after.calls == after.successes + after.failures + after.denials
    && (after.observed <==> after.calls + after.rotations > 0)
  }

  // No counter saturates.
  lemma ServiceCounts(s: Service, k: Kind)
    requires s.calls == s.successes + s.failures + s.denials < U64_MAX && s.rotations < U64_MAX
    requires s.observed <==> s.calls + s.rotations > 0
    ensures ServiceMoves(s, ApplyService(s, k), k)
  {
  }

  lemma ServiceAdvance(s: Service, after: Service, es: seq<Entry>, x: Entry)
    requires ServiceHolds(s, es) && ServiceMoves(s, after, x.event.kind)
    ensures ServiceHolds(after, es + [x])
  {
    CountStep(es, x);
  }

  lemma ServiceStep(s: Service, es: seq<Entry>, x: Entry)
    requires ServiceHolds(s, es) && |es| < U64_MAX
    ensures ServiceHolds(ApplyService(s, x.event.kind), es + [x])
  {
    OutcomesAtMost(es);
    CountAtMost(es, OfKind(ServiceCredential));
    ServiceCounts(s, x.event.kind);
    ServiceAdvance(s, ApplyService(s, x.event.kind), es, x);
  }

  lemma DeliveryCounts(w: Webhooks, e: Event)
    requires |w.latency.cumulative| == 12 && w.deliveries == w.successes + w.failures < U64_MAX
    ensures var after := ApplyWebhooks(w, e);
            && after.successes == w.successes + Bit(e.kind == WebhookSucceeded)
            && after.failures == w.failures + Bit(e.kind == WebhookFailed)
            && after.deliveries == after.successes + after.failures
            && (after.observed <==> w.observed || e.kind == WebhookQueued || Delivery(e.kind))
  {
  }

  lemma DeliveriesStep(w: Webhooks, es: seq<Entry>, x: Entry)
    requires DeliveriesHold(w, es) && |w.latency.cumulative| == 12 && |es| < U64_MAX
    ensures DeliveriesHold(ApplyWebhooks(w, x.event), es + [x])
  {
    CountStep(es, x);
    OutcomesAtMost(es);
    DeliveryCounts(w, x.event);
  }

  lemma DeliveryLatencyStep(w: Webhooks, e: Event, ls: seq<nat>)
    requires IsHistogram(w.latency, DELIVERY_BOUNDS, ls) && |ls| < U64_MAX
    ensures IsHistogram(ApplyWebhooks(w, e).latency, DELIVERY_BOUNDS, ls + Timed(Delivery(e.kind), e.latency))
  {
    if Delivery(e.kind) {
      HistogramStep(w.latency, DELIVERY_BOUNDS, ls, e.latency);
    } else {
      assert ls + [] == ls;
    }
  }

  lemma WebhooksStep(w: Webhooks, es: seq<Entry>, x: Entry)
    requires WebhooksHold(w, es) && |es| < U64_MAX
    ensures WebhooksHold(ApplyWebhooks(w, x.event), es + [x])
  {
    DeliveriesStep(w, es, x);
    LatenciesAtMost(es);
    LatenciesStep(es, x);
    DeliveryLatencyStep(w, x.event, DeliveryLatencies(es));
    BacklogStep(es, x);
  }

  lemma BacklogStep(es: seq<Entry>, x: Entry)
    ensures Backlog(es + [x]) == if (x.event.kind.WebhookQueued? || Delivery(x.event.kind)) && x.event.backlog.Some?
                                 then x.event.backlog.value else Backlog(es)
  {
    assert (es + [x])[..|es|] == es;
  }

  lemma HeaderStep(b: LocalBucket, es: seq<Entry>, x: Entry)
    requires Shaped(b) && HeaderHolds(b.first, b.last, es) && b.subjects == Subjects(es) && x.sequence > 0
    ensures var after := Apply(b, x.event, x.sequence);
            HeaderHolds(after.first, after.last, es + [x]) && after.subjects == Subjects(es + [x])
  {
    SubjectsStep(es, x);
    SpanStep(b.first, b.last, es, x);
  }

  lemma SubjectsStep(es: seq<Entry>, x: Entry)
    ensures Subjects(es + [x]) == Subjects(es) + if x.event.kind.Other? then {} else Accounts(x.event)
  {
    assert (es + [x])[..|es|] == es;
  }

  lemma SpanStep(first: nat, last: nat, es: seq<Entry>, x: Entry)
    requires HeaderHolds(first, last, es) && x.sequence > 0
    ensures if x.event.kind.Other? then HeaderHolds(first, last, es + [x])
            else HeaderHolds(if first == 0 then x.sequence else Min(first, x.sequence), Max(last, x.sequence), es + [x])
  {
    CarriesStep(es, x, first);
    CarriesStep(es, x, last);
    CarriesStep(es, x, x.sequence);
  }

  // Each part of a bucket is applied to on its own; an event of no known kind changes none of them.
  lemma ApplyParts(b: LocalBucket, e: Event, sequence: u64)
    requires Shaped(b)
    ensures var after := Apply(b, e, sequence);
            && after.registration == ApplyRegistration(b.registration, e.kind) && after.sessions == ApplySessions(b.sessions, e)
            && after.service == ApplyService(b.service, e.kind) && after.webhooks == ApplyWebhooks(b.webhooks, e)
            && after.authentication == ApplyAuthentication(b.authentication, e)
  {
  }

  lemma OthersStep(b: LocalBucket, es: seq<Entry>, x: Entry)
    requires Shaped(b) && OthersHold(b, es) && |es| < U64_MAX && x.sequence > 0
    ensures OthersHold(Apply(b, x.event, x.sequence), es + [x])
  {
    ApplyParts(b, x.event, x.sequence);
    RegistrationStep(b.registration, es, x);
    SessionsStep(b.sessions, es, x);
    ServiceStep(b.service, es, x);
    HeaderStep(b, es, x);
  }

  // One event more.
  lemma ApplyRepresents(b: LocalBucket, es: seq<Entry>, x: Entry)
    requires Shaped(b) && Represents(b, es) && |es| < U64_MAX && x.sequence > 0
    ensures Represents(Apply(b, x.event, x.sequence), es + [x])
  {
    ApplyParts(b, x.event, x.sequence);
    AuthenticationStep(b.authentication, es, x);
    WebhooksStep(b.webhooks, es, x);
    OthersStep(b, es, x);
  }

  lemma NoLatencyHolds(bounds: seq<nat>)
    requires |bounds| == 11
    ensures IsHistogram(NoLatency(), bounds, [])
  {
    assert Cumulative(bounds, []) == NoLatency().cumulative;
  }

  lemma NewAuthentication(a: Authentication, es: seq<Entry>)
    requires a == Authentication(0, 0, 0, 0, 0, NoLatency(), Zeros(FAILURE_CLASSES)) && es == []
    ensures AuthenticationHolds(a, es)
  {
    NoLatencyHolds(INTERACTIVE_BOUNDS);
    assert OutcomesHold(a, es);
    assert ClassesHold(a.classes, es);
  }

  lemma NewWebhooks(w: Webhooks, es: seq<Entry>)
    requires w == Webhooks(false, 0, 0, 0, NoLatency(), 0) && es == []
    ensures WebhooksHold(w, es)
  {
    NoLatencyHolds(DELIVERY_BOUNDS);
  }

  lemma NothingCounted(es: seq<Entry>)
    requires es == []
    ensures forall k :: Count(es, k) == 0
    ensures Sum(es, TokensOf()) == 0 && Subjects(es) == {} && Backlog(es) == 0
  {
  }

  lemma NewOthers(b: LocalBucket, es: seq<Entry>)
    requires b.registration == Registration(0, 0, 0, 0, 0) && b.sessions == Sessions(0, 0, 0, 0) && b.first == b.last == 0
    requires b.service == Service(false, 0, 0, 0, 0, 0) && b.subjects == {} && es == []
    ensures OthersHold(b, es)
  {
    NothingCounted(es);
  }

  lemma NewRepresents(b: LocalBucket, es: seq<Entry>)
    requires b == NewBucket(b.start) && es == []
    ensures Shaped(b) && Represents(b, es)
  {
    NewAuthentication(b.authentication, es);
    NewWebhooks(b.webhooks, es);
    NewOthers(b, es);
  }

  // ------------------------------------------------------------ what is exported

  const I64_MAX: int := 0x7FFF_FFFF_FFFF_FFFF

  // In milliseconds, saturating.
  function ExportStart(start: nat): i64 {
    if start <= I64_MAX then Min(start * 1_000, I64_MAX) else I64_MAX / 1_000 * 1_000
  }

  function ExportLatency(l: Latency, profile: i32): LatencyHistogram {
    LatencyHistogram(profile, l.count, l.sum, l.cumulative, [])
  }

  // The classes that were seen, from `c` on.
  function ExportClasses(classes: seq<u64>, c: nat): seq<FailureCount>
    requires |classes| == FAILURE_CLASSES && c <= FAILURE_CLASSES
    decreases FAILURE_CLASSES - c
  {
    if c == FAILURE_CLASSES then []
    else if classes[c] > 0 then [FailureCount(c + 1, classes[c], [])] + ExportClasses(classes, c + 1)
    else ExportClasses(classes, c + 1)
  }

  function ExportAuthentication(a: Authentication, accounts: u64): AuthenticationMetrics
    requires |a.classes| == FAILURE_CLASSES
  {
    AuthenticationMetrics(a.attempts, a.successes, a.failures, a.denials, accounts,
                          Some(ExportLatency(a.latency, PROFILE_INTERACTIVE)),
                          [FlowCount(1, a.attempts, a.successes, a.failures, a.denials, [])], ExportClasses(a.classes, 0), [])
  }

  function Export(b: LocalBucket, realmId: string, epoch: u64): TelemetryBucket
    requires |b.authentication.classes| == FAILURE_CLASSES
  {
    var r, s, c, w := b.registration, b.sessions, b.service, b.webhooks;
    TelemetryBucket(realmId, epoch, ExportStart(b.start), BUCKET_WIDTH_SECONDS, Max(b.revision, 1), b.first, b.last, SCHEMA_V1,
      b.closed, Some(ExportAuthentication(b.authentication, Min(|b.subjects|, U64_MAX))),
      Some(RegistrationMetrics(r.options, r.ceremonies, r.responses, r.completed, r.expired, [])),
      Some(SessionTokenMetrics(s.created, s.revoked, s.userTokens, s.serviceTokens, [])),
      if c.observed then Some(ServiceAccountMetrics(c.calls, c.successes, c.failures, c.denials, c.rotations, [])) else None,
      if w.observed
        then Some(WebhookMetrics(w.deliveries, w.successes, w.failures, w.backlog, Some(ExportLatency(w.latency, PROFILE_DELIVERY)), []))
        else None,
      None, None, [])
  }

  // ------------------------------------------------------------ when an export is valid

  lemma {:induction false} AtMostMonotone(ls: seq<nat>, v: nat, w: nat)
    requires v <= w
    ensures AtMost(ls, v) <= AtMost(ls, w)
  {
    if ls != [] {
      AtMostMonotone(ls[..|ls| - 1], v, w);
    }
  }

  lemma CumulativeNonDecreasing(bounds: seq<nat>, ls: seq<nat>)
    requires Increasing(bounds)
    ensures NonDecreasing(Cumulative(bounds, ls))
  {
    forall i, j | 0 <= i < j <= |bounds|
      ensures Cumulative(bounds, ls)[i] <= Cumulative(bounds, ls)[j]
    {
      if j < |bounds| {
        AtMostMonotone(ls, bounds[i], bounds[j]);
      }
    }
  }

  // A stored histogram is a valid one for `expected` observations exactly when it holds that many, and not too long ones.
  lemma HistogramValidExactly(l: Latency, profile: i32, ls: seq<nat>, expected: nat)
    requires profile == PROFILE_INTERACTIVE || profile == PROFILE_DELIVERY
    requires IsHistogram(l, Bounds(profile), ls) && expected <= MAX_COUNTER
    ensures ValidHistogram(Some(ExportLatency(l, profile)), profile, expected) <==>
            |ls| == expected && Total(ls) <= expected * MILLISECONDS_PER_DAY
  {
    CumulativeNonDecreasing(Bounds(profile), ls);
  }

  // The sum of the class counts.
  function ClassSum(classes: seq<u64>, c: nat): nat
    requires |classes| == FAILURE_CLASSES && c <= FAILURE_CLASSES
    decreases FAILURE_CLASSES - c
  {
    if c == FAILURE_CLASSES then 0 else classes[c] + ClassSum(classes, c + 1)
  }

  lemma {:induction false} ExportedTotal(classes: seq<u64>, c: nat)
    requires |classes| == FAILURE_CLASSES && c <= FAILURE_CLASSES
    ensures FailureTotal(ExportClasses(classes, c)) == ClassSum(classes, c)
    decreases FAILURE_CLASSES - c
  {
    if c < FAILURE_CLASSES {
      ExportedTotal(classes, c + 1);
      if classes[c] > 0 {
        var first, rest := FailureCount(c + 1, classes[c], []), ExportClasses(classes, c + 1);
        SumOfConcat([first], rest, (f: FailureCount) => f.count);
        SumOfOne(first, (f: FailureCount) => f.count);
      }
    }
  }

  ghost predicate ClassExported(classes: seq<u64>, c: nat, f: FailureCount)
    requires |classes| == FAILURE_CLASSES
  {
    c < f.failureClass <= FAILURE_CLASSES && f.unknown == [] && f.count == classes[f.failureClass - 1]
  }

  lemma {:induction false} ExportedClasses(classes: seq<u64>, c: nat)
    requires |classes| == FAILURE_CLASSES && c <= FAILURE_CLASSES
    ensures ClassesDistinct(ExportClasses(classes, c))
    ensures forall f :: f in ExportClasses(classes, c) ==> ClassExported(classes, c, f)
    decreases FAILURE_CLASSES - c
  {
    if c < FAILURE_CLASSES {
      ExportedClasses(classes, c + 1);
      var rest := ExportClasses(classes, c + 1);
      forall i | 0 <= i < |rest|
        ensures rest[i].failureClass != c + 1
      {
        assert rest[i] in rest;
        assert ClassExported(classes, c + 1, rest[i]);
      }
    }
  }

  function FromClass(c: nat): Entry -> nat {
    (x: Entry) => Bit((x.event.kind.AuthenticationFailed? || x.event.kind.AuthenticationDenied?) && x.event.failureClass >= c)
  }

  lemma {:induction false} ClassesFrom(classes: seq<u64>, es: seq<Entry>, c: nat)
    requires ClassesHold(classes, es) && c <= FAILURE_CLASSES
    ensures ClassSum(classes, c) == Sum(es, FromClass(c))
    decreases FAILURE_CLASSES - c
  {
    if c == FAILURE_CLASSES {
      ZeroSum(es, FromClass(c));
    } else {
      ClassesFrom(classes, es, c + 1);
      SumAdds(es, OfClass(c), FromClass(c + 1), FromClass(c));
      var k: Class := c;
      assert classes[k] == Sum(es, OfClass(k));
    }
  }

  // Every failure and denial has one class.
  lemma ClassesAddUp(classes: seq<u64>, es: seq<Entry>)
    requires ClassesHold(classes, es)
    ensures ClassSum(classes, 0) == Count(es, AuthenticationFailed) + Count(es, AuthenticationDenied)
  {
    ClassesFrom(classes, es, 0);
    SumAdds(es, OfKind(AuthenticationFailed), OfKind(AuthenticationDenied), FromClass(0));
  }

  // Every outcome was timed, in all for no more than a day each.
  ghost predicate AuthenticationFits(a: Authentication, ls: seq<nat>, accounts: nat) {
    a.attempts <= MAX_COUNTER && accounts <= MAX_COUNTER && |ls| == a.attempts && Total(ls) <= a.attempts * MILLISECONDS_PER_DAY
  }

  lemma FailuresValid(a: Authentication, es: seq<Entry>)
    requires OutcomesHold(a, es) && ClassesHold(a.classes, es) && a.attempts <= MAX_COUNTER
    ensures var failures := ExportClasses(a.classes, 0);
            ClassesDistinct(failures) && FailureTotal(failures) == a.failures + a.denials
            && forall i :: 0 <= i < |failures| ==> ValidFailure(failures[i])
  {
    var failures := ExportClasses(a.classes, 0);
    ExportedTotal(a.classes, 0);
    ExportedClasses(a.classes, 0);
    ClassesAddUp(a.classes, es);
    forall i | 0 <= i < |failures|
      ensures ValidFailure(failures[i])
    {
      assert ClassExported(a.classes, 0, failures[i]);
      PartOfSum(failures, i);
    }
  }

  lemma SmallFour(a: nat, b: nat, c: nat, d: nat)
    ensures Small([a, b, c, d]) <==> a <= MAX_COUNTER && b <= MAX_COUNTER && c <= MAX_COUNTER && d <= MAX_COUNTER
  {
    var values := [a, b, c, d];
    assert values[0] == a && values[1] == b && values[2] == c && values[3] == d;
  }

  lemma SmallFive(a: nat, b: nat, c: nat, d: nat, e: nat)
    ensures Small([a, b, c, d, e]) <==>
            a <= MAX_COUNTER && b <= MAX_COUNTER && c <= MAX_COUNTER && d <= MAX_COUNTER && e <= MAX_COUNTER
  {
    var values := [a, b, c, d, e];
    assert values[0] == a && values[1] == b && values[2] == c && values[3] == d && values[4] == e;
  }

  lemma FlowValidExactly(a: Authentication)
    requires a.attempts == a.successes + a.failures + a.denials
    ensures var flows := [FlowCount(1, a.attempts, a.successes, a.failures, a.denials, [])];
            FlowsDistinct(flows) && FlowTotals(flows) == [a.attempts as nat, a.successes, a.failures, a.denials]
            && (a.attempts <= MAX_COUNTER ==> ValidFlow(flows[0]))
  {
    SmallFour(a.attempts, a.successes, a.failures, a.denials);
    OneFlow(FlowCount(1, a.attempts, a.successes, a.failures, a.denials, []));
  }

  ghost predicate FlowsFine(m: AuthenticationMetrics) {
    && (forall i :: 0 <= i < |m.flows| ==> ValidFlow(m.flows[i])) && FlowsDistinct(m.flows)
    && FlowTotals(m.flows) == [m.attempts, m.successes, m.failures, m.denials]
  }

  ghost predicate FailuresFine(m: AuthenticationMetrics) {
    && (forall i :: 0 <= i < |m.failureClasses| ==> ValidFailure(m.failureClasses[i]))
    && ClassesDistinct(m.failureClasses) && FailureTotal(m.failureClasses) == m.failures + m.denials
  }

  lemma ValidByParts(m: AuthenticationMetrics)
    requires m.unknown == [] && m.attempts == m.successes + m.failures + m.denials
    requires m.attempts <= MAX_COUNTER ==> FlowsFine(m) && FailuresFine(m)
    ensures ValidAuthentication(m) <==>
            m.attempts <= MAX_COUNTER && m.activeAccounts <= MAX_COUNTER && ValidHistogram(m.latency, PROFILE_INTERACTIVE, m.attempts)
  {
    SmallFive(m.attempts, m.successes, m.failures, m.denials, m.activeAccounts);
  }

  lemma AuthenticationValidExactly(a: Authentication, es: seq<Entry>, ls: seq<nat>, accounts: u64)
    requires AuthenticationHolds(a, es) && ls == Latencies(es)
    ensures ValidAuthentication(ExportAuthentication(a, accounts)) <==> AuthenticationFits(a, ls, accounts)
  {
    var m := ExportAuthentication(a, accounts);
    if a.attempts <= MAX_COUNTER {
      HistogramValidExactly(a.latency, PROFILE_INTERACTIVE, ls, a.attempts);
      FlowValidExactly(a);
      assert FlowsFine(m);
      FailuresValid(a, es);
      assert FailuresFine(m);
    }
    ValidByParts(m);
  }

  lemma OneFlow(f: FlowCount)
    ensures FlowTotals([f]) == [f.attempts as nat, f.successes, f.failures, f.denials]
  {
    SumOfOne(f, (f: FlowCount) => f.attempts);
    SumOfOne(f, (f: FlowCount) => f.successes);
    SumOfOne(f, (f: FlowCount) => f.failures);
    SumOfOne(f, (f: FlowCount) => f.denials);
  }

  lemma PartOfSum(failures: seq<FailureCount>, i: nat)
    requires i < |failures|
    ensures failures[i].count <= FailureTotal(failures)
  {
    SumWithout(failures, i, (f: FailureCount) => f.count);
  }

  ghost predicate RegistrationFits(r: Registration) {
    r.options <= MAX_COUNTER && r.expired <= MAX_COUNTER && r.options >= r.ceremonies >= r.responses >= r.completed
  }

  ghost predicate SessionsFit(s: Sessions) {
    s.created <= MAX_COUNTER && s.revoked <= MAX_COUNTER && s.userTokens <= MAX_COUNTER && s.serviceTokens <= MAX_COUNTER
  }

  ghost predicate ServiceFits(c: Service) {
    c.observed ==> c.calls <= MAX_COUNTER && c.rotations <= MAX_COUNTER
  }

  ghost predicate WebhooksFit(w: Webhooks, ls: seq<nat>) {
    w.observed ==> w.deliveries <= MAX_COUNTER && w.backlog <= MAX_COUNTER && |ls| == w.deliveries
                   && Total(ls) <= w.deliveries * MILLISECONDS_PER_DAY
  }

  lemma CountersValidExactly(b: LocalBucket, t: TelemetryBucket, es: seq<Entry>)
    requires |b.authentication.classes| == FAILURE_CLASSES && t == Export(b, t.realmId, t.assignmentEpoch)
    requires ServiceHolds(b.service, es)
    ensures ValidCounterFamilies(t) <==> RegistrationFits(b.registration) && SessionsFit(b.sessions) && ServiceFits(b.service)
  {
    var r, s, c := b.registration, b.sessions, b.service;
    SmallFive(r.options, r.ceremonies, r.responses, r.completed, r.expired);
    SmallFour(s.created, s.revoked, s.userTokens, s.serviceTokens);
    SmallFive(c.calls, c.successes, c.failures, c.denials, c.rotations);
  }

  lemma WebhooksValidExactly(b: LocalBucket, t: TelemetryBucket, es: seq<Entry>, ls: seq<nat>)
    requires |b.authentication.classes| == FAILURE_CLASSES && t == Export(b, t.realmId, t.assignmentEpoch)
    requires WebhooksHold(b.webhooks, es) && ls == DeliveryLatencies(es)
    ensures ValidPlatformFamilies(t) <==> WebhooksFit(b.webhooks, ls)
  {
    var w := b.webhooks;
    SmallFour(w.deliveries, w.successes, w.failures, w.backlog);
    if w.deliveries <= MAX_COUNTER {
      HistogramValidExactly(w.latency, PROFILE_DELIVERY, ls, w.deliveries);
    }
  }

  lemma HeaderValidExactly(b: LocalBucket, t: TelemetryBucket, es: seq<Entry>)
    requires |b.authentication.classes| == FAILURE_CLASSES && t == Export(b, t.realmId, t.assignmentEpoch)
    requires HeaderHolds(b.first, b.last, es) && b.start % BUCKET_WIDTH_SECONDS == 0 && b.closed
    ensures ValidHeader(t) <==> ValidRealmId(t.realmId) && t.assignmentEpoch > 0 && b.start <= I64_MAX / 1_000
  {
    StartValidExactly(b.start);
  }

  lemma StartValidExactly(start: nat)
    requires start % BUCKET_WIDTH_SECONDS == 0
    ensures ValidStart(ExportStart(start)) <==> start <= I64_MAX / 1_000
  {
  }

  // When what is exported for the events of a window is a valid bucket: each outcome and delivery was timed, no count
  // is out of bounds, and the registrations seen narrow from stage to stage.
  ghost predicate Fits(b: LocalBucket, es: seq<Entry>) {
    && b.start <= I64_MAX / 1_000 && AuthenticationFits(b.authentication, Latencies(es), |b.subjects|)
    && RegistrationFits(b.registration) && SessionsFit(b.sessions) && ServiceFits(b.service)
    && WebhooksFit(b.webhooks, DeliveryLatencies(es))
  }

  lemma ExportValidExactly(b: LocalBucket, es: seq<Entry>, realmId: string, epoch: u64)
    requires Represents(b, es) && b.start % BUCKET_WIDTH_SECONDS == 0 && b.closed
    ensures ValidBucket(Export(b, realmId, epoch)) <==> ValidRealmId(realmId) && epoch > 0 && Fits(b, es)
  {
    var t := Export(b, realmId, epoch);
    HeaderValidExactly(b, t, es);
    AuthenticationValidExactly(b.authentication, es, Latencies(es), Min(|b.subjects|, U64_MAX));
    CountersValidExactly(b, t, es);
    WebhooksValidExactly(b, t, es, DeliveryLatencies(es));
  }

  // There are as many latencies as outcomes exactly when every outcome has one.
  lemma {:induction false} TimedExactly(es: seq<Entry>)
    ensures var outcomes := Count(es, AuthenticationCompleted) + Count(es, AuthenticationFailed) + Count(es, AuthenticationDenied);
            |Latencies(es)| <= outcomes
            && (|Latencies(es)| == outcomes <==>
                forall i :: 0 <= i < |es| && Outcome(es[i].event.kind) ==> es[i].event.latency.Some?)
  {
    if es != [] {
      var init, x := es[..|es| - 1], es[|es| - 1];
      assert es == init + [x];
      TimedExactly(init);
      CountStep(init, x);
    }
  }

  // The registrations that the events tell of narrow from stage to stage.
  predicate Narrows(es: seq<Entry>) {
    Count(es, RegistrationOptions) >= Count(es, RegistrationOpened) >= Count(es, RegistrationResponse)
    >= Count(es, RegistrationCompleted)
  }

  // A registration that starts in one window and completes in the next can leave either with more of a later stage than
  // of an earlier one; such a window cannot be exported, whatever else happened in it.
  lemma StraddlingRegistration(b: LocalBucket, es: seq<Entry>, realmId: string, epoch: u64)
    requires Represents(b, es) && b.start % BUCKET_WIDTH_SECONDS == 0 && b.closed && !Narrows(es)
    ensures !ValidBucket(Export(b, realmId, epoch))
  {
    ExportValidExactly(b, es, realmId, epoch);
  }
}
