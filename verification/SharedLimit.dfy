// src/rate_limit.rs: the expiring counter in the datastore, and the whole check that puts it behind
// the local limiter, over any number of replicas and process replacements.
//
// Wall-clock and datastore times are seconds of one clock. `wall` is the caller's reading and `exec`
// the moment at which the datastore runs the increment.

module SharedLimit {
  import opened Numbers
  import opened RateLimit

  // The datastore key holds the class, the subject digest and the epoch.
  datatype CounterKey = CounterKey(key: Key, epoch: nat)
  datatype Counter = Counter(count: nat, expiresAt: nat)
  type Store = map<CounterKey, Counter>

  function Epoch(wall: nat): nat {
    wall / WINDOW_SECONDS
  }

  // INCR and EXPIRE in one transaction.
  function Increment(store: Store, ck: CounterKey, exec: nat): Store {
    var live := ck in store && exec < store[ck].expiresAt;
    store[ck := Counter(if live then store[ck].count + 1 else 1, exec + 2 * WINDOW_SECONDS)]
  }

  function SharedDecision(class_: Class, count: nat, wall: nat): Decision {
    Decision(count <= Budget(class_), Max(WINDOW_SECONDS - wall % WINDOW_SECONDS, 1))
  }

  datatype Reply =
    | ClockBeforeEpoch
    | Answered(wall: nat, exec: nat)
    | Failed(wall: nat, exec: nat, applied: bool)   // the increment may have happened all the same

  datatype Action =
    | Check(replica: nat, key: Key, instant: nat, reply: Reply)
    | Restart(replica: nat)

  datatype Cluster = Cluster(locals: map<nat, map<Key, Window>>, store: Store)
  datatype Outcome = Outcome(cluster: Cluster, decision: Decision)

  function LocalOf(cluster: Cluster, replica: nat): map<Key, Window> {
    if replica in cluster.locals then cluster.locals[replica] else map[]
  }

  function Perform(cluster: Cluster, capacity: nat, a: Action): Outcome {
    match a
    case Restart(replica) => Outcome(cluster.(locals := cluster.locals - {replica}), FAIL_CLOSED)
    case Check(replica, key, instant, reply) =>
      var step := CheckStep(LocalOf(cluster, replica), capacity, key, instant);
      var counted := cluster.(locals := cluster.locals[replica := step.windows]);
      if !step.decision.allowed then Outcome(counted, step.decision)
      else match reply
        case ClockBeforeEpoch => Outcome(counted, FAIL_CLOSED)
        case Failed(wall, exec, applied) =>
          Outcome(if applied then counted.(store := Increment(counted.store, CounterKey(key, Epoch(wall)), exec))
                  else counted, FAIL_CLOSED)
        case Answered(wall, exec) =>
          var ck := CounterKey(key, Epoch(wall));
          var store := Increment(counted.store, ck, exec);
          Outcome(counted.(store := store), SharedDecision(key.class_, store[ck].count, wall))
  }

  // ------------------------------------------------------------ every run of the cluster

  function Before(run: seq<Action>): seq<Action>
    requires run != []
  {
    run[..|run| - 1]
  }

  function After(capacity: nat, run: seq<Action>): Cluster {
    if run == [] then Cluster(map[], map[])
    else Perform(After(capacity, Before(run)), capacity, run[|run| - 1]).cluster
  }

  predicate AllowedLastAt(capacity: nat, run: seq<Action>, key: Key, from: nat, to: nat)
    requires run != []
  {
    var a := run[|run| - 1];
    && a.Check? && a.key == key && a.reply.Answered? && from <= a.reply.wall < to
    && Perform(After(capacity, Before(run)), capacity, a).decision.allowed
  }

  // Requests of `key` allowed by any replica whose clock reading lies in [from, to).
  function Allowed(capacity: nat, run: seq<Action>, key: Key, from: nat, to: nat): nat {
    if run == [] then 0 else
    Allowed(capacity, Before(run), key, from, to) + Bit(AllowedLastAt(capacity, run, key, from, to))
  }

  // The datastore runs every increment within `delay` seconds of the caller's clock reading.
  predicate Within(run: seq<Action>, delay: nat) {
    forall i :: 0 <= i < |run| && run[i].Check? && !run[i].reply.ClockBeforeEpoch? ==>
      run[i].reply.wall <= run[i].reply.exec <= run[i].reply.wall + delay
  }

  // The stated assumption: within one window.
  predicate Timely(run: seq<Action>) {
    Within(run, WINDOW_SECONDS)
  }

  // The counter of an epoch counts at least the requests allowed in it, and is kept until after the epoch.
  ghost predicate Outlives(store: Store, key: Key, epoch: nat, allowed: nat) {
    var ck := CounterKey(key, epoch);
    if ck in store
    then allowed <= Min(store[ck].count, Budget(key.class_)) && store[ck].expiresAt >= (epoch + 2) * WINDOW_SECONDS
    else allowed == 0
  }

  lemma IncrementOutlives(store: Store, ck: CounterKey, wall: nat, exec: nat, key: Key, epoch: nat, allowed: nat)
    requires Outlives(store, key, epoch, allowed) && ck.epoch == Epoch(wall) && wall <= exec <= wall + WINDOW_SECONDS
    ensures var after := Increment(store, ck, exec);
            Outlives(after, key, epoch, allowed)
            && (ck == CounterKey(key, epoch) && after[ck].count <= Budget(key.class_) ==> Outlives(after, key, epoch, allowed + 1))
  {
  }

  lemma ActionOutlives(cluster: Cluster, capacity: nat, a: Action, key: Key, epoch: nat, allowed: nat)
    requires Outlives(cluster.store, key, epoch, allowed) && Timely([a])
    ensures var o := Perform(cluster, capacity, a);
            var counts := a.Check? && a.key == key && a.reply.Answered? && Epoch(a.reply.wall) == epoch && o.decision.allowed;
            Outlives(o.cluster.store, key, epoch, allowed + Bit(counts))
  {
    assert [a][0] == a;
    if a.Check? && !a.reply.ClockBeforeEpoch? {
      IncrementOutlives(cluster.store, CounterKey(a.key, Epoch(a.reply.wall)), a.reply.wall, a.reply.exec, key, epoch, allowed);
    }
  }

  lemma {:induction false} CounterOutlivesItsEpoch(capacity: nat, run: seq<Action>, key: Key, epoch: nat)
    requires Timely(run)
    ensures Outlives(After(capacity, run).store, key, epoch,
                     Allowed(capacity, run, key, epoch * WINDOW_SECONDS, (epoch + 1) * WINDOW_SECONDS))
  {
    if run != [] {
      var a := run[|run| - 1];
      assert Timely(Before(run)) && Timely([a]);
      CounterOutlivesItsEpoch(capacity, Before(run), key, epoch);
      ActionOutlives(After(capacity, Before(run)), capacity, a, key, epoch,
                     Allowed(capacity, Before(run), key, epoch * WINDOW_SECONDS, (epoch + 1) * WINDOW_SECONDS));
    }
  }

  // Replicas and restarts together never get past one budget in an epoch.
  lemma EpochBudget(capacity: nat, run: seq<Action>, key: Key, epoch: nat)
    requires Timely(run)
    ensures Allowed(capacity, run, key, epoch * WINDOW_SECONDS, (epoch + 1) * WINDOW_SECONDS) <= Budget(key.class_)
  {
    CounterOutlivesItsEpoch(capacity, run, key, epoch);
  }

  lemma SharedBudget(capacity: nat, run: seq<Action>, key: Key, from: nat)
    requires Timely(run)
    ensures Allowed(capacity, run, key, from, from + WINDOW_SECONDS) <= 2 * Budget(key.class_)
  {
    var e := Epoch(from);
    var middle := (e + 1) * WINDOW_SECONDS;
    EpochBudget(capacity, run, key, e);
    EpochBudget(capacity, run, key, e + 1);
    AllowedSplits(capacity, run, key, e * WINDOW_SECONDS, middle, middle + WINDOW_SECONDS);
    AllowedIsMonotone(capacity, run, key, from, from + WINDOW_SECONDS, e * WINDOW_SECONDS, middle + WINDOW_SECONDS);
  }

  lemma {:induction false} AllowedSplits(capacity: nat, run: seq<Action>, key: Key, a: nat, b: nat, c: nat)
    requires a <= b <= c
    ensures Allowed(capacity, run, key, a, c) == Allowed(capacity, run, key, a, b) + Allowed(capacity, run, key, b, c)
  {
    if run != [] {
      AllowedSplits(capacity, Before(run), key, a, b, c);
    }
  }

  lemma {:induction false} AllowedIsMonotone(capacity: nat, run: seq<Action>, key: Key,
                                             from: nat, to: nat, wider: nat, widerTo: nat)
    requires wider <= from && to <= widerTo
    ensures Allowed(capacity, run, key, from, to) <= Allowed(capacity, run, key, wider, widerTo)
  {
    if run != [] {
      AllowedIsMonotone(capacity, Before(run), key, from, to, wider, widerTo);
    }
  }

  // A failed counter never lets anything through unmetered: what is allowed has passed the replica's own limiter and has
  // been counted, within the budget; everything else is refused, for a whole window where the counter did not answer.
  lemma AllowedIsMetered(cluster: Cluster, capacity: nat, a: Action)
    requires a.Check?
    ensures var o := Perform(cluster, capacity, a);
            var local := CheckStep(LocalOf(cluster, a.replica), capacity, a.key, a.instant).decision;
            && (o.decision.allowed ==>
                  && local.allowed && a.reply.Answered?
                  && CounterKey(a.key, Epoch(a.reply.wall)) in o.cluster.store
                  && 1 <= o.cluster.store[CounterKey(a.key, Epoch(a.reply.wall))].count <= Budget(a.key.class_))
            && (!local.allowed ==> o.decision == local && o.cluster.store == cluster.store)
            && (local.allowed && !a.reply.Answered? ==> o.decision.retryAfterSeconds == WINDOW_SECONDS)
  {
  }

  // ------------------------------------------------------------ the advertised seconds

  // The seconds that an answered check advertises end the epoch: not one less does.
  lemma RetryEndsTheEpoch(class_: Class, count: nat, wall: nat, r: nat)
    requires r == SharedDecision(class_, count, wall).retryAfterSeconds
    ensures 1 <= r <= WINDOW_SECONDS && Epoch(wall + r) == Epoch(wall) + 1 && Epoch(wall + r - 1) == Epoch(wall)
  {
  }

  // Nothing in the run reaches for the counter of that key and epoch.
  predicate Untouched(run: seq<Action>, key: Key, epoch: nat) {
    forall i :: 0 <= i < |run| && run[i].Check? && run[i].key == key && !run[i].reply.ClockBeforeEpoch? ==>
      Epoch(run[i].reply.wall) != epoch
  }

  lemma {:induction false} UntouchedIsNotCounted(capacity: nat, run: seq<Action>, key: Key, epoch: nat)
    requires Untouched(run, key, epoch)
    ensures CounterKey(key, epoch) !in After(capacity, run).store
  {
    if run != [] {
      UntouchedIsNotCounted(capacity, Before(run), key, epoch);
    }
  }

  function AnswerTo(capacity: nat, run: seq<Action>, a: Action): Decision {
    Perform(After(capacity, run), capacity, a).decision
  }

  // The replica's own limiter lets the request through to the counter.
  predicate PassesLocally(capacity: nat, run: seq<Action>, a: Action)
    requires a.Check?
  {
    CheckStep(LocalOf(After(capacity, run), a.replica), capacity, a.key, a.instant).decision.allowed
  }

  // The check was refused, by the counter.
  predicate Outspent(capacity: nat, run: seq<Action>, a: Action) {
    a.Check? && a.reply.Answered? && PassesLocally(capacity, run, a) && !AnswerTo(capacity, run, a).allowed
  }

  // A key that was refused by the counter and waits the advertised seconds, on a new epoch that nobody has used, is the
  // first in its counter and allowed, wherever its replica lets it through.
  lemma SharedRetryIsHonest(capacity: nat, run: seq<Action>, refused: Action, others: seq<Action>, again: Action, all: seq<Action>)
    requires Outspent(capacity, run, refused) && all == run + [refused] + others
    requires again.Check? && again.key == refused.key && again.reply.Answered? && PassesLocally(capacity, all, again)
    requires again.reply.wall == refused.reply.wall + AnswerTo(capacity, run, refused).retryAfterSeconds
    requires Untouched(all, again.key, Epoch(again.reply.wall))
    ensures AnswerTo(capacity, all, again).allowed
  {
    UntouchedIsNotCounted(capacity, all, again.key, Epoch(again.reply.wall));
  }

  ghost predicate SpentCounter(store: Store, key: Key, epoch: nat) {
    var ck := CounterKey(key, epoch);
    ck in store && store[ck].count > Budget(key.class_) && store[ck].expiresAt >= (epoch + 2) * WINDOW_SECONDS
  }

  lemma ActionKeepsSpent(cluster: Cluster, capacity: nat, a: Action, key: Key, epoch: nat)
    requires SpentCounter(cluster.store, key, epoch) && Timely([a])
    ensures SpentCounter(Perform(cluster, capacity, a).cluster.store, key, epoch)
  {
    assert [a][0] == a;
  }

  lemma {:induction false} SpentStays(capacity: nat, run: seq<Action>, others: seq<Action>, key: Key, epoch: nat)
    requires SpentCounter(After(capacity, run).store, key, epoch) && Timely(others)
    ensures SpentCounter(After(capacity, run + others).store, key, epoch)
    decreases |others|
  {
    if others == [] {
      assert run + others == run;
    } else {
      var init, a := others[..|others| - 1], others[|others| - 1];
      TimelyParts(others, init, a);
      SpentStays(capacity, run, init, key, epoch);
      AfterStep(capacity, run + init, a, run + others);
      ActionKeepsSpent(After(capacity, run + init), capacity, a, key, epoch);
    }
  }

  lemma TimelyParts(run: seq<Action>, init: seq<Action>, a: Action)
    requires run != [] && init == Before(run) && a == run[|run| - 1] && Timely(run)
    ensures Timely(init) && Timely([a])
  {
  }

  lemma AfterStep(capacity: nat, run: seq<Action>, a: Action, all: seq<Action>)
    requires all != [] && Before(all) == run && all[|all| - 1] == a
    ensures After(capacity, all) == Perform(After(capacity, run), capacity, a).cluster
  {
  }

  lemma OutspentSpends(capacity: nat, run: seq<Action>, refused: Action)
    requires Timely(run) && Timely([refused]) && Outspent(capacity, run, refused)
    ensures SpentCounter(After(capacity, run + [refused]).store, refused.key, Epoch(refused.reply.wall))
  {
    assert [refused][0] == refused;
    assert Before(run + [refused]) == run;
  }

  // One second less is one too few: until then every check of the key, on any replica, meets the spent counter.
  lemma SharedRetryIsTight(capacity: nat, run: seq<Action>, refused: Action, others: seq<Action>, again: Action)
    requires Timely(run) && Timely([refused]) && Timely(others) && Timely([again]) && Outspent(capacity, run, refused)
    requires again.Check? && again.key == refused.key && again.reply.Answered?
    requires refused.reply.wall <= again.reply.wall < refused.reply.wall + AnswerTo(capacity, run, refused).retryAfterSeconds
    ensures !AnswerTo(capacity, run + [refused] + others, again).allowed
  {
    var all := run + [refused] + others;
    assert [again][0] == again;
    OutspentSpends(capacity, run, refused);
    SpentStays(capacity, run + [refused], others, refused.key, Epoch(refused.reply.wall));
    ActionKeepsSpent(After(capacity, all), capacity, again, refused.key, Epoch(refused.reply.wall));
    assert Epoch(again.reply.wall) == Epoch(refused.reply.wall);
  }

  // ------------------------------------------------------------ the assumption cannot be dropped

  function Volley(replica: nat, key: Key, wall: nat, n: nat): seq<Action> {
    seq(n, _ => Check(replica, key, 0, Answered(wall, wall)))
  }

  // One second past the assumption, a stalled increment finds its counter gone and is admitted again.
  lemma StalledIncrementOverspends(capacity: nat, key: Key, run: seq<Action>)
    requires capacity >= 1 && run == Volley(0, key, 0, Budget(key.class_)) + [Check(1, key, 0, Answered(59, 120))]
    ensures Allowed(capacity, run, key, 0, WINDOW_SECONDS) == Budget(key.class_) + 1
  {
    var volley := Volley(0, key, 0, Budget(key.class_));
    VolleySpends(capacity, key, Budget(key.class_));
    assert Before(run) == volley;
    StalledIsAllowed(capacity, key);
  }

  lemma StalledIsAllowed(capacity: nat, key: Key)
    requires capacity >= 1
    ensures Perform(Spent(key, Budget(key.class_)), capacity, Check(1, key, 0, Answered(59, 120))).decision.allowed
  {
  }

  function AllowedInEpoch(capacity: nat, run: seq<Action>, key: Key, epoch: nat): nat {
    Allowed(capacity, run, key, epoch * WINDOW_SECONDS, (epoch + 1) * WINDOW_SECONDS)
  }

  // The budget of an epoch holds of every run exactly when increments take no longer than one window.
  lemma EpochBudgetExactly(capacity: nat, key: Key, delay: nat)
    requires capacity >= 1
    ensures (forall run, epoch :: Within(run, delay) ==> AllowedInEpoch(capacity, run, key, epoch) <= Budget(key.class_))
       <==> delay <= WINDOW_SECONDS
  {
    if delay <= WINDOW_SECONDS {
      forall run, epoch | Within(run, delay)
        ensures AllowedInEpoch(capacity, run, key, epoch) <= Budget(key.class_)
      {
        EpochBudget(capacity, run, key, epoch);
      }
    } else {
      var run := Volley(0, key, 0, Budget(key.class_)) + [Check(1, key, 0, Answered(59, 120))];
      StalledIncrementOverspends(capacity, key, run);
      assert Within(run, delay);
      assert AllowedInEpoch(capacity, run, key, 0) > Budget(key.class_);
    }
  }

  function Spent(key: Key, n: nat): Cluster {
    if n == 0 then Cluster(map[], map[])
    else Cluster(map[0 := map[key := Window(n, 0)]], map[CounterKey(key, 0) := Counter(n, 120)])
  }

  lemma OneIsSpent(capacity: nat, key: Key, n: nat)
    requires capacity >= 1 && n < Budget(key.class_)
    ensures var o := Perform(Spent(key, n), capacity, Check(0, key, 0, Answered(0, 0)));
            o.cluster == Spent(key, n + 1) && o.decision.allowed
  {
    var step := CheckStep(LocalOf(Spent(key, n), 0), capacity, key, 0);
    assert step.windows == map[key := Window(n + 1, 0)];
  }

  lemma {:induction false} VolleySpends(capacity: nat, key: Key, n: nat)
    requires capacity >= 1 && n <= Budget(key.class_)
    ensures Allowed(capacity, Volley(0, key, 0, n), key, 0, WINDOW_SECONDS) == n
    ensures After(capacity, Volley(0, key, 0, n)) == Spent(key, n)
  {
    if n > 0 {
      VolleySpends(capacity, key, n - 1);
      assert Before(Volley(0, key, 0, n)) == Volley(0, key, 0, n - 1);
      OneIsSpent(capacity, key, n - 1);
    }
  }
}
