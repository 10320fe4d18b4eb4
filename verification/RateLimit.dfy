// src/rate_limit.rs: the process-local fixed-window limiter over a capacity-bounded map.
//
// Times are nanoseconds of a monotonic clock, taken in the order in which calls hold the lock.

module RateLimit {
  import opened Numbers

  datatype Class = Ceremony | IdentifierProbe | CredentialExchange | PairingExchange | Recovery | Verification

  function Budget(class_: Class): (b: nat)
    ensures 1 <= b < U32_MAX
  {
    match class_
    case Ceremony => 30
    case IdentifierProbe => 10
    case CredentialExchange => 60
    case PairingExchange => 60
    case Recovery => 10
    case Verification => 10
  }

  const WINDOW_SECONDS: nat := 60
  const NANOS_PER_SECOND: nat := 1_000_000_000
  const WINDOW: nat := WINDOW_SECONDS * NANOS_PER_SECOND

  // The class and the truncated digest of the subject, which stands for the subject itself.
  datatype Key = Key(class_: Class, digest: nat)
  datatype Window = Window(count: nat, startedAt: nat)
  datatype Decision = Decision(allowed: bool, retryAfterSeconds: nat)

  const FAIL_CLOSED := Decision(false, WINDOW_SECONDS)

  // `Instant::duration_since` saturates at zero.
  function Elapsed(now: nat, startedAt: nat): nat {
    if startedAt <= now then now - startedAt else 0
  }

  predicate Expired(w: Window, now: nat) {
    Elapsed(now, w.startedAt) >= WINDOW
  }

  function Retain(windows: map<Key, Window>, now: nat): map<Key, Window> {
    map k | k in windows && !Expired(windows[k], now) :: windows[k]
  }

  // The entry of one key after a counted request; `None` when the map has no entry.
  function Touch(entry: Option<Window>, now: nat): Window {
    var w := if entry.None? || Expired(entry.value, now) then Window(0, now) else entry.value;
    w.(count := SaturatingAdd32(w.count, 1))
  }

  function Decide(class_: Class, w: Window, now: nat): Decision {
    var elapsed := Elapsed(now, w.startedAt);
    var remaining := if elapsed <= WINDOW then WINDOW - elapsed else 0;
    Decision(w.count <= Budget(class_), remaining / NANOS_PER_SECOND + 1)
  }

  function Lookup(windows: map<Key, Window>, key: Key): Option<Window> {
    if key in windows then Some(windows[key]) else None
  }

  function AfterEviction(windows: map<Key, Window>, capacity: nat, key: Key, now: nat): map<Key, Window> {
    if |windows| >= capacity && key !in windows then Retain(windows, now) else windows
  }

  // A request with no entry that finds the map full even after eviction.
  predicate RefusedForCapacity(windows: map<Key, Window>, capacity: nat, key: Key, now: nat) {
    key !in windows && |AfterEviction(windows, capacity, key, now)| >= capacity
  }

  datatype Step = Step(windows: map<Key, Window>, decision: Decision)

  function CheckStep(windows: map<Key, Window>, capacity: nat, key: Key, now: nat): Step {
    var kept := AfterEviction(windows, capacity, key, now);
    if RefusedForCapacity(windows, capacity, key, now) then Step(kept, FAIL_CLOSED)
    else
      var w := Touch(Lookup(kept, key), now);
      Step(kept[key := w], Decide(key.class_, w, now))
  }

  class RateLimiter {
    const capacity: nat
    var windows: map<Key, Window>
    var poisoned: bool

    ghost predicate Valid()
      reads this
    {
      |windows| <= capacity
    }

    constructor (capacity: nat)
      ensures Valid() && this.capacity == capacity && windows == map[] && !poisoned
    {
      this.capacity := capacity;
      windows := map[];
      poisoned := false;
    }

    method CheckAt(key: Key, now: nat) returns (d: Decision)
      requires Valid()
      modifies this`windows
      ensures Valid()
      ensures poisoned ==> windows == old(windows) && d == FAIL_CLOSED
      ensures !poisoned ==> Step(windows, d) == CheckStep(old(windows), capacity, key, now)
    {
      if poisoned {
        return FAIL_CLOSED;
      }
      if |windows| >= capacity && key !in windows {
        RetainShrinks(windows, now);
        windows := Retain(windows, now);
        if |windows| >= capacity {
          return FAIL_CLOSED;
        }
      }
      if key !in windows {
        InsertGrowsByOne(windows, key, Window(0, now));
        windows := windows[key := Window(0, now)];
      }
      var entry := windows[key];
      if Elapsed(now, entry.startedAt) >= WINDOW {
        entry := Window(0, now);
      }
      entry := entry.(count := SaturatingAdd32(entry.count, 1));
      InsertGrowsByOne(windows, key, entry);
      windows := windows[key := entry];
      return Decide(key.class_, entry, now);
    }
  }

  lemma RetainShrinks(windows: map<Key, Window>, now: nat)
    ensures |Retain(windows, now)| <= |windows|
  {
    SubsetSize(Retain(windows, now).Keys, windows.Keys);
  }

  lemma {:induction false} SubsetSize<T>(a: set<T>, b: set<T>)
    requires a <= b
    ensures |a| <= |b|
  {
    if a != {} {
      var x :| x in a;
      SubsetSize(a - {x}, b - {x});
    }
  }

  lemma InsertGrowsByOne<K, V>(m: map<K, V>, k: K, v: V)
    ensures |m[k := v]| == |m| + if k in m then 0 else 1
  {
    assert m[k := v].Keys == m.Keys + {k};
  }

  // ------------------------------------------------------------ every run of the limiter

  datatype Request = Request(key: Key, at: nat)

  predicate Ordered(run: seq<Request>) {
    forall i, j :: 0 <= i < j < |run| ==> run[i].at <= run[j].at
  }

  function Front(run: seq<Request>): seq<Request>
    requires run != []
  {
    run[..|run| - 1]
  }

  function Last(run: seq<Request>): Request
    requires run != []
  {
    run[|run| - 1]
  }

  // The map after serving a whole run, starting from the empty map.
  function Windows(capacity: nat, run: seq<Request>): map<Key, Window> {
    if run == [] then map[]
    else CheckStep(Windows(capacity, Front(run)), capacity, Last(run).key, Last(run).at).windows
  }

  // How the last request of a run is answered.
  function Answer(capacity: nat, run: seq<Request>): Decision
    requires run != []
  {
    CheckStep(Windows(capacity, Front(run)), capacity, Last(run).key, Last(run).at).decision
  }

  predicate Counted(capacity: nat, run: seq<Request>)
    requires run != []
  {
    !RefusedForCapacity(Windows(capacity, Front(run)), capacity, Last(run).key, Last(run).at)
  }

  lemma {:induction false} MapNeverExceedsCapacity(capacity: nat, run: seq<Request>)
    ensures |Windows(capacity, run)| <= capacity
  {
    if run != [] {
      var before := Windows(capacity, Front(run));
      MapNeverExceedsCapacity(capacity, Front(run));
      var key, now := Last(run).key, Last(run).at;
      RetainShrinks(before, now);
      var kept := AfterEviction(before, capacity, key, now);
      InsertGrowsByOne(kept, key, Touch(Lookup(kept, key), now));
    }
  }

  // ------------------------------------------------------------ the unbounded reference limiter

  // The same counters with no capacity and no eviction, fed the requests the bounded limiter counted.
  ghost function Reference(capacity: nat, run: seq<Request>): map<Key, Window> {
    if run == [] then map[]
    else
      var before := Reference(capacity, Front(run));
      if Counted(capacity, run)
      then before[Last(run).key := Touch(Lookup(before, Last(run).key), Last(run).at)]
      else before
  }

  ghost function ReferenceAnswer(capacity: nat, run: seq<Request>): Decision
    requires run != []
  {
    var key, now := Last(run).key, Last(run).at;
    Decide(key.class_, Touch(Lookup(Reference(capacity, Front(run)), key), now), now)
  }

  // The bounded map lacks only entries of the reference that have run out by `now`.
  ghost predicate Simulates(windows: map<Key, Window>, reference: map<Key, Window>, now: nat) {
    && (forall k :: k in windows ==> k in reference && reference[k] == windows[k])
    && (forall k :: k in reference ==> reference[k].startedAt <= now && reference[k].count >= 1)
    && (forall k :: k in reference && k !in windows ==> Expired(reference[k], now))
  }

  lemma SimulationStep(windows: map<Key, Window>, reference: map<Key, Window>, capacity: nat, key: Key, at: nat, now: nat)
    requires Simulates(windows, reference, at) && at <= now
    ensures Simulates(CheckStep(windows, capacity, key, at).windows,
                      if RefusedForCapacity(windows, capacity, key, at) then reference
                      else reference[key := Touch(Lookup(reference, key), at)], now)
  {
  }

  lemma {:induction false} Simulation(capacity: nat, run: seq<Request>, now: nat)
    requires Ordered(run)
    requires run != [] ==> Last(run).at <= now
    ensures Simulates(Windows(capacity, run), Reference(capacity, run), now)
  {
    if run != [] {
      assert Ordered(Front(run));
      Simulation(capacity, Front(run), Last(run).at);
      SimulationStep(Windows(capacity, Front(run)), Reference(capacity, Front(run)), capacity, Last(run).key, Last(run).at, now);
    }
  }

  lemma EvictionIsInvisible(capacity: nat, run: seq<Request>)
    requires run != [] && Ordered(run)
    ensures Counted(capacity, run) ==> Answer(capacity, run) == ReferenceAnswer(capacity, run)
    ensures !Counted(capacity, run) ==> Answer(capacity, run) == FAIL_CLOSED
  {
    assert Ordered(Front(run));
    Simulation(capacity, Front(run), Last(run).at);
  }

  // ------------------------------------------------------------ when refusals do not show either

  // The unbounded limiter fed every request, also those that the bounded one refuses for capacity.
  function Ideal(run: seq<Request>): map<Key, Window> {
    if run == [] then map[]
    else
      var before := Ideal(Front(run));
      before[Last(run).key := Touch(Lookup(before, Last(run).key), Last(run).at)]
  }

  function IdealAnswer(run: seq<Request>): Decision
    requires run != []
  {
    var key, now := Last(run).key, Last(run).at;
    Decide(key.class_, Touch(Lookup(Ideal(Front(run)), key), now), now)
  }

  // The last request is answered as the unbounded limiter would, unless it is refused for capacity.
  predicate AnsweredIdeally(capacity: nat, run: seq<Request>) {
    run != [] && Counted(capacity, run) ==> Answer(capacity, run) == IdealAnswer(run)
  }

  function Keys(run: seq<Request>): set<Key> {
    set i | 0 <= i < |run| :: run[i].key
  }

  lemma KeysStep(run: seq<Request>)
    requires run != []
    ensures Keys(run) == Keys(Front(run)) + {Last(run).key}
  {
    assert forall i :: 0 <= i < |Front(run)| ==> run[i] == Front(run)[i];
    assert run[|run| - 1] == Last(run);
  }

  // The keys whose window is open when the last request comes, and its own.
  function Live(run: seq<Request>): set<Key>
    requires run != []
  {
    var before, now := Ideal(Front(run)), Last(run).at;
    (set k | k in before && !Expired(before[k], now)) + {Last(run).key}
  }

  // At no point are more than that many windows open; there may be any number of keys.
  predicate FewLive(run: seq<Request>, n: nat) {
    forall i :: 0 < i <= |run| ==> |Live(run[..i])| <= n
  }

  lemma FewLiveOfFront(run: seq<Request>, n: nat)
    requires run != [] && FewLive(run, n)
    ensures FewLive(Front(run), n) && |Live(run)| <= n
  {
    assert run[..|run|] == run;
    assert forall i :: 0 <= i <= |Front(run)| ==> Front(run)[..i] == run[..i];
  }

  // What eviction leaves are open windows, and the new key is not among them: there is room for it.
  lemma RoomForTheLive(capacity: nat, run: seq<Request>)
    requires run != [] && Ordered(run) && |Live(run)| <= capacity && Reference(capacity, Front(run)) == Ideal(Front(run))
    ensures Counted(capacity, run)
  {
    var before, key, now := Windows(capacity, Front(run)), Last(run).key, Last(run).at;
    assert Ordered(Front(run));
    Simulation(capacity, Front(run), now);
    if key !in before {
      var kept := Retain(before, now).Keys;
      assert kept + {key} <= Live(run);
      SubsetSize(kept + {key}, Live(run));
    }
  }

  lemma {:induction false} FewLiveAreIdeal(capacity: nat, run: seq<Request>)
    requires Ordered(run) && FewLive(run, capacity)
    ensures Reference(capacity, run) == Ideal(run)
    ensures run != [] ==> Counted(capacity, run)
  {
    if run != [] {
      assert Ordered(Front(run));
      FewLiveOfFront(run, capacity);
      FewLiveAreIdeal(capacity, Front(run));
      RoomForTheLive(capacity, run);
    }
  }

  lemma {:induction false} IdealIsOfKeys(run: seq<Request>)
    ensures Ideal(run).Keys <= Keys(run)
  {
    if run != [] {
      IdealIsOfKeys(Front(run));
      KeysStep(run);
    }
  }

  lemma FewKeysAreFewLive(run: seq<Request>, n: nat)
    requires |Keys(run)| <= n
    ensures FewLive(run, n)
  {
    forall i | 0 < i <= |run|
      ensures |Live(run[..i])| <= n
    {
      var part := run[..i];
      IdealIsOfKeys(Front(part));
      KeysStep(part);
      assert forall j :: 0 <= j < i ==> part[j] == run[j];
      SubsetSize(Live(part), Keys(run));
    }
  }

  lemma {:induction false} KeysAtMost(run: seq<Request>)
    ensures |Keys(run)| <= |run|
  {
    if run != [] {
      KeysAtMost(Front(run));
      KeysStep(run);
    }
  }

  lemma KeysOfRepeat(run: seq<Request>, again: seq<Request>)
    requires run != [] && again != [] && Front(again) == run && Last(again).key == Last(run).key
    ensures |Keys(again)| <= |run|
  {
    KeysStep(run);
    KeysStep(again);
    assert Keys(again) == Keys(run);
    KeysAtMost(run);
  }

  // As many keys as asked for, at time zero.
  function Crowd(n: nat): seq<Request> {
    seq(n, i requires 0 <= i => Request(Key(Ceremony, i), 0))
  }

  // Entries of the first keys, opened at time zero.
  ghost predicate Crowded(windows: map<Key, Window>, n: nat) {
    |windows| == n && forall k :: k in windows ==> k.digest < n && windows[k].startedAt == 0
  }

  lemma CrowdStep(windows: map<Key, Window>, capacity: nat, n: nat)
    requires Crowded(windows, n) && n < capacity
    ensures Crowded(CheckStep(windows, capacity, Key(Ceremony, n), 0).windows, n + 1)
  {
    InsertGrowsByOne(windows, Key(Ceremony, n), Touch(None, 0));
  }

  lemma {:induction false} CrowdFills(capacity: nat, n: nat, run: seq<Request>)
    requires n <= capacity && run == Crowd(n)
    ensures Crowded(Windows(capacity, run), n)
  {
    if n > 0 {
      assert Front(run) == Crowd(n - 1);
      CrowdFills(capacity, n - 1, Front(run));
      CrowdStep(Windows(capacity, Front(run)), capacity, n - 1);
    }
  }

  lemma {:induction false} IdealIgnores(run: seq<Request>, key: Key)
    requires forall i :: 0 <= i < |run| ==> run[i].key != key
    ensures key !in Ideal(run)
  {
    if run != [] {
      IdealIgnores(Front(run), key);
    }
  }

  lemma CrowdRefuses(windows: map<Key, Window>, capacity: nat)
    requires capacity >= 1 && Crowded(windows, capacity)
    ensures var key := Key(Ceremony, capacity);
            && RefusedForCapacity(windows, capacity, key, 1) && CheckStep(windows, capacity, key, 1).windows == windows
            && !RefusedForCapacity(windows, capacity, key, WINDOW)
            && CheckStep(windows, capacity, key, WINDOW).decision.retryAfterSeconds == 61
  {
    assert Retain(windows, 1) == windows;
    assert Retain(windows, WINDOW) == map[];
  }

  // A key that finds the map full, and comes back when the others have run out.
  lemma RefusalShows(capacity: nat, crowd: seq<Request>, refused: seq<Request>, run: seq<Request>)
    requires capacity >= 1 && crowd == Crowd(capacity)
    requires refused == crowd + [Request(Key(Ceremony, capacity), 1)]
    requires run == refused + [Request(Key(Ceremony, capacity), WINDOW)]
    ensures Ordered(run) && |Keys(run)| <= capacity + 1 && !AnsweredIdeally(capacity, run)
  {
    assert Front(refused) == crowd && Front(run) == refused;
    CrowdFills(capacity, capacity, crowd);
    CrowdRefuses(Windows(capacity, crowd), capacity);
    IdealIgnores(crowd, Key(Ceremony, capacity));
    KeysOfRepeat(refused, run);
  }

  lemma NothingIsCounted(run: seq<Request>)
    requires run != []
    ensures !Counted(0, run)
  {
    MapNeverExceedsCapacity(0, Front(run));
  }

  // Every request that is not refused for capacity is answered as by a limiter without capacity fed the same requests,
  // exactly when there is room for all the windows that are open at one time, however many keys come and are evicted:
  // otherwise a refused request would have opened a window earlier.
  lemma EvictionIsInvisibleExactly(capacity: nat, n: nat)
    ensures (forall run :: Ordered(run) && FewLive(run, n) ==> AnsweredIdeally(capacity, run)) <==> n <= capacity || capacity == 0
  {
    if n <= capacity || capacity == 0 {
      forall run | Ordered(run) && FewLive(run, n) && run != []
        ensures AnsweredIdeally(capacity, run)
      {
        if capacity == 0 {
          NothingIsCounted(run);
        } else {
          AnsweredWithRoom(capacity, run);
        }
      }
    } else {
      var crowd := Crowd(capacity);
      var refused := crowd + [Request(Key(Ceremony, capacity), 1)];
      var run := refused + [Request(Key(Ceremony, capacity), WINDOW)];
      RefusalShows(capacity, crowd, refused, run);
      FewKeysAreFewLive(run, n);
    }
  }

  lemma AnsweredWithRoom(capacity: nat, run: seq<Request>)
    requires run != [] && Ordered(run) && FewLive(run, capacity)
    ensures Counted(capacity, run) && AnsweredIdeally(capacity, run)
  {
    assert Ordered(Front(run));
    FewLiveOfFront(run, capacity);
    FewLiveAreIdeal(capacity, Front(run));
    FewLiveAreIdeal(capacity, run);
    EvictionIsInvisible(capacity, run);
  }

  lemma FewLiveExtends(run: seq<Request>, n: nat)
    requires run != [] && FewLive(Front(run), n) && |Live(run)| <= n
    ensures FewLive(run, n)
  {
    forall i | 0 < i <= |run|
      ensures |Live(run[..i])| <= n
    {
      assert if i == |run| then run[..i] == run else run[..i] == Front(run)[..i];
    }
  }

  lemma {:induction false} IdealOfCrowd(n: nat, run: seq<Request>)
    requires run == Crowd(n)
    ensures forall k :: k in Ideal(run) ==> Ideal(run)[k].startedAt == 0
  {
    if n > 0 {
      assert Front(run) == Crowd(n - 1);
      IdealOfCrowd(n - 1, Front(run));
    }
  }

  lemma CrowdIsEvicted(windows: map<Key, Window>, capacity: nat, key: Key)
    requires capacity >= 1 && Crowded(windows, capacity) && key !in windows
    ensures CheckStep(windows, capacity, key, WINDOW).windows.Keys == {key}
  {
    assert Retain(windows, WINDOW) == map[];
  }

  // A full map does evict in such runs: one more key, once the windows of the others have run out.
  lemma EvictsWithRoom(capacity: nat, crowd: seq<Request>, run: seq<Request>)
    requires capacity >= 1 && crowd == Crowd(capacity) && run == crowd + [Request(Key(Ceremony, capacity), WINDOW)]
    ensures Ordered(run) && FewLive(run, capacity)
    ensures |Windows(capacity, crowd)| == capacity && Windows(capacity, run).Keys == {Last(run).key}
  {
    assert Front(run) == crowd;
    CrowdFills(capacity, capacity, crowd);
    CrowdIsEvicted(Windows(capacity, crowd), capacity, Last(run).key);
    KeysAtMost(crowd);
    FewKeysAreFewLive(crowd, capacity);
    IdealOfCrowd(capacity, crowd);
    assert Live(run) == {Last(run).key};
    FewLiveExtends(run, capacity);
  }

  // ------------------------------------------------------------ the budget over every run

  predicate AllowedLast(capacity: nat, run: seq<Request>, key: Key)
    requires run != []
  {
    Last(run).key == key && Answer(capacity, run).allowed
  }

  // Requests of `key` allowed at a time in the half-open interval [from, to).
  function AllowedBetween(capacity: nat, run: seq<Request>, key: Key, from: nat, to: nat): nat {
    if run == [] then 0 else
    AllowedBetween(capacity, Front(run), key, from, to) +
    Bit(AllowedLast(capacity, run, key) && from <= Last(run).at < to)
  }

  // The start of the window in which the last request of a run was counted.
  function WindowOfLast(capacity: nat, run: seq<Request>): nat
    requires run != [] && Counted(capacity, run)
  {
    Windows(capacity, run)[Last(run).key].startedAt
  }

  function CountedIn(capacity: nat, run: seq<Request>, key: Key, start: nat): nat {
    if run == [] then 0 else
    CountedIn(capacity, Front(run), key, start) +
    Bit(Last(run).key == key && Counted(capacity, run) && WindowOfLast(capacity, run) == start)
  }

  function AllowedIn(capacity: nat, run: seq<Request>, key: Key, start: nat): nat {
    if run == [] then 0 else
    AllowedIn(capacity, Front(run), key, start) +
    Bit(AllowedLast(capacity, run, key) && Counted(capacity, run) && WindowOfLast(capacity, run) == start)
  }

  ghost predicate IntervalInvariant(n: nat, entry: Option<Window>, budget: nat, from: nat) {
    match entry
    case None => n == 0
    case Some(w) =>
      if w.startedAt < from then n <= Min(w.count, budget) - 1
      else if w.startedAt < from + WINDOW then n <= budget - 1 + Min(w.count, budget)
      else n <= 2 * budget - 1
  }

  lemma {:induction false} NothingBefore(capacity: nat, run: seq<Request>, key: Key, from: nat)
    requires Ordered(run)
    requires run != [] ==> Last(run).at < from
    ensures AllowedBetween(capacity, run, key, from, from + WINDOW) == 0
  {
    if run != [] {
      assert Ordered(Front(run));
      NothingBefore(capacity, Front(run), key, from);
    }
  }

  // One more request: refused, refused by the budget, or allowed.
  lemma IntervalStep(n: nat, entry: Option<Window>, budget: nat, from: nat, at: nat)
    requires IntervalInvariant(n, entry, budget, from) && 1 <= budget < U32_MAX && (at < from ==> n == 0)
    requires entry.Some? ==> entry.value.startedAt <= at && entry.value.count >= 1
    ensures var w := Touch(entry, at);
            IntervalInvariant(n + Bit(w.count <= budget && from <= at < from + WINDOW), Some(w), budget, from)
  {
  }

  lemma {:induction false} IntervalBudget(capacity: nat, run: seq<Request>, key: Key, from: nat)
    requires Ordered(run)
    ensures IntervalInvariant(AllowedBetween(capacity, run, key, from, from + WINDOW),
                              Lookup(Reference(capacity, run), key), Budget(key.class_), from)
  {
    if run != [] {
      assert Ordered(Front(run));
      IntervalBudget(capacity, Front(run), key, from);
      EvictionIsInvisible(capacity, run);
      Simulation(capacity, Front(run), Last(run).at);
      if Last(run).key == key {
        if Last(run).at < from {
          NothingBefore(capacity, Front(run), key, from);
        }
        IntervalStep(AllowedBetween(capacity, Front(run), key, from, from + WINDOW),
                     Lookup(Reference(capacity, Front(run)), key), Budget(key.class_), from, Last(run).at);
      }
    }
  }

  // The documented bound of twice the budget is never reached in a half-open interval: the request
  // that opens a window spends one unit of it, so one less is the bound.
  lemma AtMostTwiceTheBudget(capacity: nat, run: seq<Request>, key: Key, from: nat)
    requires Ordered(run)
    ensures AllowedBetween(capacity, run, key, from, from + WINDOW) <= 2 * Budget(key.class_) - 1
  {
    IntervalBudget(capacity, run, key, from);
  }

  // ... and that bound is met: a full window behind the boundary and a full one right after it.
  lemma TwiceTheBudgetLessOneIsReached(capacity: nat, key: Key, run: seq<Request>)
    requires capacity >= 1 && run == Straddling(key)
    ensures Ordered(run)
    ensures AllowedBetween(capacity, run, key, WINDOW - 1, WINDOW - 1 + WINDOW) == 2 * Budget(key.class_) - 1
  {
    var budget, from := Budget(key.class_), WINDOW - 1;
    var behind := FirstHalf(key);
    FirstHalfCounts(capacity, key, behind);
    var reopened := behind + [Request(key, WINDOW)];
    ReopensTheWindow(capacity, behind, reopened, key, WINDOW, from, budget, budget - 1);
    BurstFills(capacity, reopened, run, key, WINDOW, Window(1, WINDOW), budget - 1, from, budget);
    StraddlingIsOrdered(key);
  }

  lemma StraddlingIsOrdered(key: Key)
    ensures Ordered(Straddling(key))
  {
    BurstIsAt(key, WINDOW - 1, Budget(key.class_) - 1);
    BurstIsAt(key, WINDOW, Budget(key.class_) - 1);
  }

  lemma {:induction false} BurstIsAt(key: Key, at: nat, n: nat)
    ensures forall i :: 0 <= i < |Burst(key, at, n)| ==> Burst(key, at, n)[i].at == at
  {
    if n > 0 {
      BurstIsAt(key, at, n - 1);
    }
  }

  lemma FirstHalfCounts(capacity: nat, key: Key, run: seq<Request>)
    requires capacity >= 1 && run == FirstHalf(key)
    ensures Lookup(Windows(capacity, run), key) == Some(Window(Budget(key.class_), 0))
    ensures AllowedBetween(capacity, run, key, WINDOW - 1, WINDOW - 1 + WINDOW) == Budget(key.class_) - 1
  {
    var from := WINDOW - 1;
    OpensTheWindow(capacity, key, from);
    BurstFills(capacity, [Request(key, 0)], run, key, WINDOW - 1, Window(1, 0), Budget(key.class_) - 1, from, 0);
  }

  function FirstHalf(key: Key): seq<Request> {
    [Request(key, 0)] + Burst(key, WINDOW - 1, Budget(key.class_) - 1)
  }

  // One request at the start, the rest of its window just before the end, and a whole budget at the end.
  function Straddling(key: Key): seq<Request> {
    FirstHalf(key) + [Request(key, WINDOW)] + Burst(key, WINDOW, Budget(key.class_) - 1)
  }

  lemma OpensTheWindow(capacity: nat, key: Key, from: nat)
    requires capacity >= 1 && from > 0
    ensures Lookup(Windows(capacity, [Request(key, 0)]), key) == Some(Window(1, 0))
    ensures AllowedBetween(capacity, [Request(key, 0)], key, from, from + WINDOW) == 0
  {
    assert Front([Request(key, 0)]) == [];
  }

  lemma ReopensTheWindow(capacity: nat, run: seq<Request>, next: seq<Request>, key: Key, at: nat, from: nat, count: nat, allowed: nat)
    requires next == run + [Request(key, at)] && Lookup(Windows(capacity, run), key) == Some(Window(count, 0))
    requires allowed == AllowedBetween(capacity, run, key, from, from + WINDOW)
    requires Expired(Window(count, 0), at) && from <= at < from + WINDOW
    ensures Lookup(Windows(capacity, next), key) == Some(Window(1, at))
    ensures AllowedBetween(capacity, next, key, from, from + WINDOW) == allowed + 1
  {
    assert Front(next) == run;
  }

  function Burst(key: Key, at: nat, n: nat): seq<Request> {
    if n == 0 then [] else Burst(key, at, n - 1) + [Request(key, at)]
  }

  lemma BurstStep(run: seq<Request>, key: Key, at: nat, n: nat)
    requires n > 0
    ensures run + Burst(key, at, n) == run + Burst(key, at, n - 1) + [Request(key, at)]
  {
  }

  lemma OneMore(capacity: nat, run: seq<Request>, next: seq<Request>, key: Key, at: nat, w: Window)
    requires next == run + [Request(key, at)] && Lookup(Windows(capacity, run), key) == Some(w)
    requires !Expired(w, at) && w.count < Budget(key.class_)
    ensures Lookup(Windows(capacity, next), key) == Some(w.(count := w.count + 1)) && AllowedLast(capacity, next, key)
  {
    assert Front(next) == run;
  }

  lemma {:induction false} BurstCounts(capacity: nat, run: seq<Request>, next: seq<Request>, key: Key, at: nat, w: Window, n: nat)
    requires next == run + Burst(key, at, n) && Lookup(Windows(capacity, run), key) == Some(w)
    requires !Expired(w, at) && w.count + n <= Budget(key.class_)
    ensures Lookup(Windows(capacity, next), key) == Some(w.(count := w.count + n))
    ensures n > 0 ==> AllowedLast(capacity, next, key)
    decreases n
  {
    if n == 0 {
      assert next == run;
    } else {
      var middle := run + Burst(key, at, n - 1);
      BurstCounts(capacity, run, middle, key, at, w, n - 1);
      BurstStep(run, key, at, n);
      OneMore(capacity, middle, next, key, at, w.(count := w.count + n - 1));
    }
  }

  lemma {:induction false} BurstWindow(capacity: nat, key: Key, at: nat, n: nat)
    requires capacity >= 1 && n > 0
    ensures Windows(capacity, Burst(key, at, n)) == map[key := Window(Min(n, U32_MAX), at)]
  {
    assert Front(Burst(key, at, n)) == Burst(key, at, n - 1);
    if n > 1 {
      BurstWindow(capacity, key, at, n - 1);
    }
  }

  // Of any number of requests at once, an empty limiter lets through thirty ceremonies, sixty exchanges, and ten of all else.
  lemma BurstIsCut(capacity: nat, key: Key, at: nat, n: nat)
    requires capacity >= 1 && n > 0
    ensures Answer(capacity, Burst(key, at, n)).allowed <==>
            n <= if key.class_.Ceremony? then 30 else if key.class_.CredentialExchange? || key.class_.PairingExchange? then 60 else 10
  {
    var run := Burst(key, at, n);
    assert Front(run) == Burst(key, at, n - 1) && Last(run) == Request(key, at);
    if n > 1 {
      BurstWindow(capacity, key, at, n - 1);
    }
    NextOfBurst(Windows(capacity, Front(run)), capacity, key, at, n - 1);
    LastIsChecked(capacity, run, key, at);
  }

  lemma LastIsChecked(capacity: nat, run: seq<Request>, key: Key, at: nat)
    requires run != [] && Last(run) == Request(key, at)
    ensures Answer(capacity, run) == CheckStep(Windows(capacity, Front(run)), capacity, key, at).decision
  {
  }

  lemma NextOfBurst(windows: map<Key, Window>, capacity: nat, key: Key, at: nat, n: nat)
    requires capacity >= 1 && windows == if n == 0 then map[] else map[key := Window(Min(n, U32_MAX), at)]
    ensures CheckStep(windows, capacity, key, at).decision.allowed <==> n + 1 <= Budget(key.class_)
  {
  }

  lemma AllowedStep(capacity: nat, run: seq<Request>, next: seq<Request>, key: Key, at: nat, from: nat)
    requires next == run + [Request(key, at)] && AllowedLast(capacity, next, key) && from <= at < from + WINDOW
    ensures AllowedBetween(capacity, next, key, from, from + WINDOW) == AllowedBetween(capacity, run, key, from, from + WINDOW) + 1
  {
    assert Front(next) == run;
  }

  lemma {:induction false} BurstFills(capacity: nat, run: seq<Request>, next: seq<Request>, key: Key, at: nat, w: Window, n: nat,
                                      from: nat, allowed: nat)
    requires next == run + Burst(key, at, n) && Lookup(Windows(capacity, run), key) == Some(w)
    requires allowed == AllowedBetween(capacity, run, key, from, from + WINDOW)
    requires !Expired(w, at) && w.count + n <= Budget(key.class_) && from <= at < from + WINDOW
    ensures Lookup(Windows(capacity, next), key) == Some(w.(count := w.count + n))
    ensures AllowedBetween(capacity, next, key, from, from + WINDOW) == allowed + n
    decreases n
  {
    BurstCounts(capacity, run, next, key, at, w, n);
    if n == 0 {
      assert next == run;
    } else {
      var middle := run + Burst(key, at, n - 1);
      BurstFills(capacity, run, middle, key, at, w, n - 1, from, allowed);
      BurstStep(run, key, at, n);
      AllowedStep(capacity, middle, next, key, at, from);
    }
  }

  ghost predicate WindowInvariant(counted: nat, allowed: nat, entry: Option<Window>, budget: nat, start: nat) {
    && allowed == Min(counted, budget)
    && match entry
       case None => counted == 0
       case Some(w) =>
         && (start == w.startedAt ==> w.count == Min(counted, U32_MAX))
         && (start > w.startedAt ==> counted == 0)
  }

  // Every window admits its first `Budget` requests and refuses the rest, whatever was evicted between.
  lemma {:induction false} EachWindowAdmitsExactlyItsBudget(capacity: nat, run: seq<Request>, key: Key, start: nat)
    requires Ordered(run)
    ensures AllowedIn(capacity, run, key, start) == Min(CountedIn(capacity, run, key, start), Budget(key.class_))
    ensures WindowInvariant(CountedIn(capacity, run, key, start), AllowedIn(capacity, run, key, start),
                            Lookup(Reference(capacity, run), key), Budget(key.class_), start)
  {
    if run != [] {
      assert Ordered(Front(run));
      EachWindowAdmitsExactlyItsBudget(capacity, Front(run), key, start);
      EvictionIsInvisible(capacity, run);
      Simulation(capacity, Front(run), Last(run).at);
      Simulation(capacity, run, Last(run).at);
    }
  }

  // A client that waits for the advertised seconds, and whose key is not used by anyone else meanwhile,
  // is allowed again unless the map is full.
  lemma RetryAfterIsHonest(capacity: nat, run: seq<Request>, others: seq<Request>, at: nat)
    requires run != [] && Counted(capacity, run)
    requires forall i :: 0 <= i < |others| ==> others[i].key != Last(run).key
    requires Ordered(run + others + [Request(Last(run).key, at)])
    requires Last(run).at + Answer(capacity, run).retryAfterSeconds * NANOS_PER_SECOND <= at
    ensures var again := run + others + [Request(Last(run).key, at)];
            Counted(capacity, again) ==> Answer(capacity, again).allowed
  {
    var key := Last(run).key;
    var again := run + others + [Request(key, at)];
    assert Front(again) == run + others;
    PrefixOrdered(again, |run|);
    assert again[..|run|] == run;
    Simulation(capacity, run, Last(run).at);
    OthersLeaveTheKeyAlone(capacity, run, others, key);
    EvictionIsInvisible(capacity, again);
  }

  // A refused client that waits one second less is refused again, exactly when its window does not end on a whole second
  // from now.
  lemma RetryAfterIsTight(capacity: nat, run: seq<Request>, next: seq<Request>, start: nat)
    requires run != [] && Ordered(run) && Counted(capacity, run) && !Answer(capacity, run).allowed
    requires start == WindowOfLast(capacity, run)
    requires next == run + [Request(Last(run).key, Last(run).at + (Answer(capacity, run).retryAfterSeconds - 1) * NANOS_PER_SECOND)]
    ensures start <= Last(run).at < start + WINDOW
    ensures Answer(capacity, next).allowed <==> (start + WINDOW - Last(run).at) % NANOS_PER_SECOND == 0
  {
    assert Front(next) == run;
    Simulation(capacity, run, Last(run).at);
    var remaining := start + WINDOW - Last(run).at;
    assert remaining == remaining / NANOS_PER_SECOND * NANOS_PER_SECOND + remaining % NANOS_PER_SECOND;
  }

  // A client that is refused because the map is full, and waits for the advertised seconds while nobody else comes, finds
  // room and is allowed.
  lemma RefusalIsHonest(capacity: nat, run: seq<Request>, again: seq<Request>, at: nat)
    requires capacity >= 1 && run != [] && !Counted(capacity, run) && again == run + [Request(Last(run).key, at)] && Ordered(again)
    requires Last(run).at + Answer(capacity, run).retryAfterSeconds * NANOS_PER_SECOND <= at
    ensures !Answer(capacity, run).allowed && Counted(capacity, again) && Answer(capacity, again).allowed
  {
    assert Front(again) == run && again[..|run|] == run;
    PrefixOrdered(again, |run|);
    Simulation(capacity, run, Last(run).at);
    var windows := Windows(capacity, run);
    assert Retain(windows, at) == map[];
  }

  // No shorter time would do: a nanosecond less, and a map that was filled just now is still full.
  lemma RefusalIsTight(capacity: nat, crowd: seq<Request>, refused: seq<Request>, again: seq<Request>)
    requires capacity >= 1 && crowd == Crowd(capacity) && refused == crowd + [Request(Key(Ceremony, capacity), 0)]
    requires again == refused + [Request(Key(Ceremony, capacity), Answer(capacity, refused).retryAfterSeconds * NANOS_PER_SECOND - 1)]
    ensures Ordered(again) && !Counted(capacity, refused) && !Counted(capacity, again)
  {
    assert Front(refused) == crowd && Front(again) == refused;
    CrowdFills(capacity, capacity, crowd);
    CrowdStays(Windows(capacity, crowd), capacity, 0);
    CrowdStays(Windows(capacity, crowd), capacity, WINDOW - 1);
  }

  lemma CrowdStays(windows: map<Key, Window>, capacity: nat, at: nat)
    requires capacity >= 1 && Crowded(windows, capacity) && at < WINDOW
    ensures var key := Key(Ceremony, capacity);
            RefusedForCapacity(windows, capacity, key, at) && CheckStep(windows, capacity, key, at).windows == windows
  {
    assert Retain(windows, at) == windows;
  }

  lemma PrefixOrdered(run: seq<Request>, n: nat)
    requires Ordered(run) && n <= |run|
    ensures Ordered(run[..n])
  {
  }

  lemma {:induction false} OthersLeaveTheKeyAlone(capacity: nat, run: seq<Request>, others: seq<Request>, key: Key)
    requires forall i :: 0 <= i < |others| ==> others[i].key != key
    ensures Lookup(Reference(capacity, run + others), key) == Lookup(Reference(capacity, run), key)
  {
    if others == [] {
      assert run + others == run;
    } else {
      assert Front(run + others) == run + Front(others);
      OthersLeaveTheKeyAlone(capacity, run, Front(others), key);
    }
  }

  // ------------------------------------------------------------ subjects behind digests

  datatype SubjectRequest = SubjectRequest(class_: Class, subject: string, at: nat)

  function Digested(digest: (Class, string) -> nat, run: seq<SubjectRequest>): seq<Request> {
    seq(|run|, i requires 0 <= i < |run| =>
      Request(Key(run[i].class_, digest(run[i].class_, run[i].subject)), run[i].at))
  }

  function AllowedForSubject(capacity: nat, digest: (Class, string) -> nat, run: seq<SubjectRequest>,
                             class_: Class, subject: string, from: nat, to: nat): nat
  {
    if run == [] then 0 else
    var last := run[|run| - 1];
    AllowedForSubject(capacity, digest, run[..|run| - 1], class_, subject, from, to) +
    Bit(last.class_ == class_ && last.subject == subject && from <= last.at < to
        && Answer(capacity, Digested(digest, run)).allowed)
  }

  // Whatever the digest, even one that maps different subjects together.
  lemma SubjectBudget(capacity: nat, digest: (Class, string) -> nat, run: seq<SubjectRequest>,
                      class_: Class, subject: string, from: nat)
    requires forall i, j :: 0 <= i < j < |run| ==> run[i].at <= run[j].at
    ensures AllowedForSubject(capacity, digest, run, class_, subject, from, from + WINDOW) <= 2 * Budget(class_) - 1
  {
    var key := Key(class_, digest(class_, subject));
    SubjectWithinKey(capacity, digest, run, class_, subject, from, from + WINDOW);
    AtMostTwiceTheBudget(capacity, Digested(digest, run), key, from);
  }

  lemma {:induction false} SubjectWithinKey(capacity: nat, digest: (Class, string) -> nat, run: seq<SubjectRequest>,
                                            class_: Class, subject: string, from: nat, to: nat)
    ensures AllowedForSubject(capacity, digest, run, class_, subject, from, to)
         <= AllowedBetween(capacity, Digested(digest, run), Key(class_, digest(class_, subject)), from, to)
  {
    if run != [] {
      SubjectWithinKey(capacity, digest, run[..|run| - 1], class_, subject, from, to);
      assert Front(Digested(digest, run)) == Digested(digest, run[..|run| - 1]);
    }
  }
}
