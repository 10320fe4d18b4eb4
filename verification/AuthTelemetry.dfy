// The task that batches authentication telemetry: src/auth.rs.

module AuthTelemetry {
  import opened Numbers

  const QUEUE_CAPACITY: nat := 8_192
  const BATCH_SIZE: nat := 256

  datatype Event = Event(eventType: string, subject: Option<nat>, data: string)
  // What callers hand over.
  datatype Item = Plain(event: Event) | TokenIssued(subject: nat)
  // What the event log holds: events, and counts of tokens with the subjects they were issued to.
  datatype Entry = Stored(event: Event) | Tokens(count: nat, subjects: set<nat>)

  // An append can be applied although the caller is told it failed.
  datatype Outcome = Applied | NotApplied | AppliedUnreported

  datatype State = State(
    channel: seq<Item>, queued: seq<Event>, tokenCount: nat, subjects: set<nat>,
    log: seq<Entry>, closed: bool, stopped: bool,
    // everything try_send has taken, and the events and tokens that were appended again
    accepted: seq<Item>, repeatedEvents: seq<Event>, repeatedTokens: nat)

  function Start(): State {
    State([], [], 0, {}, [], false, false, [], [], 0)
  }

  datatype Step =
    | Record(item: Item)
    | Receive(outcome: Outcome)
    | EventTick(outcome: Outcome)
    | TokenTick(outcome: Outcome)
    | Close
    | Finish(events: Outcome, tokens: Outcome)

  function AsEntries(events: seq<Event>): seq<Entry> {
    if events == [] then [] else AsEntries(events[..|events| - 1]) + [Stored(events[|events| - 1])]
  }

  // persist_auth_telemetry: the queue is cleared only when the append is reported.
  function PersistEvents(s: State, outcome: Outcome): State {
    if s.queued == [] then s
    else match outcome
      case Applied => s.(log := s.log + AsEntries(s.queued), queued := [])
      case NotApplied => s
      case AppliedUnreported =>
        s.(log := s.log + AsEntries(s.queued), repeatedEvents := s.repeatedEvents + s.queued)
  }

  function PersistTokens(s: State, outcome: Outcome): State {
    if s.tokenCount == 0 then s
    else
      var entry := Tokens(s.tokenCount, s.subjects);
      match outcome
      case Applied => s.(log := s.log + [entry], tokenCount := 0, subjects := {})
      case NotApplied => s
      case AppliedUnreported => s.(log := s.log + [entry], repeatedTokens := s.repeatedTokens + s.tokenCount)
  }

  function OnRecord(s: State, item: Item): State {
    if s.closed || |s.channel| >= QUEUE_CAPACITY then s
    else s.(channel := s.channel + [item], accepted := s.accepted + [item])
  }

  function OnReceive(s: State, outcome: Outcome): State {
    if s.stopped || s.channel == [] then s
    else
      var rest := s.(channel := s.channel[1..]);
      match s.channel[0]
      case TokenIssued(subject) =>
        rest.(tokenCount := SaturatingAdd(s.tokenCount, 1), subjects := s.subjects + {subject})
      case Plain(event) =>
        var pushed := rest.(queued := s.queued + [event]);
        if |pushed.queued| >= BATCH_SIZE then PersistEvents(pushed, outcome) else pushed
  }

  // The channel reports its end only once it is closed and empty.
  function OnFinish(s: State, events: Outcome, tokens: Outcome): State {
    if s.stopped || !s.closed || s.channel != [] then s
    else PersistTokens(PersistEvents(s, events), tokens).(stopped := true)
  }

  function Next(s: State, step: Step): State {
    match step
    case Record(item) => OnRecord(s, item)
    case Receive(outcome) => OnReceive(s, outcome)
    case EventTick(outcome) => if s.stopped then s else PersistEvents(s, outcome)
    case TokenTick(outcome) => if s.stopped then s else PersistTokens(s, outcome)
    case Close => s.(closed := true)
    case Finish(events, tokens) => OnFinish(s, events, tokens)
  }

  function Run(steps: seq<Step>): State {
    if steps == [] then Start() else Next(Run(steps[..|steps| - 1]), steps[|steps| - 1])
  }

  // ------------------------------------------------------------ the task

  class Task {
    var channel: seq<Item>
    var queued: seq<Event>
    var tokenCount: u64
    var subjects: set<nat>
    var log: seq<Entry>
    var closed: bool
    var stopped: bool
    ghost var accepted: seq<Item>
    ghost var repeatedEvents: seq<Event>
    ghost var repeatedTokens: nat

    ghost function View(): State
      reads this
    {
      State(channel, queued, tokenCount, subjects, log, closed, stopped, accepted, repeatedEvents, repeatedTokens)
    }

    constructor ()
      ensures View() == Start()
    {
      channel, queued, tokenCount, subjects, log, closed, stopped := [], [], 0, {}, [], false, false;
      accepted, repeatedEvents, repeatedTokens := [], [], 0;
    }

    method Persist(outcome: Outcome)
      modifies this
      ensures View() == PersistEvents(old(View()), outcome)
    {
      if queued == [] {
        return;
      }
      if !outcome.NotApplied? {
        Append(queued);
      }
      if outcome.Applied? {
        queued := [];
      } else if outcome.AppliedUnreported? {
        repeatedEvents := repeatedEvents + queued;
      }
    }

    method Append(events: seq<Event>)
      modifies this`log
      ensures log == old(log) + AsEntries(events)
    {
      for i := 0 to |events|
        invariant log == old(log) + AsEntries(events[..i])
      {
        log := log + [Stored(events[i])];
        assert events[..i + 1][..i] == events[..i];
      }
      assert events[..|events|] == events;
    }

    method PersistTokenCount(outcome: Outcome)
      modifies this
      ensures View() == PersistTokens(old(View()), outcome)
    {
      if tokenCount == 0 {
        return;
      }
      if !outcome.NotApplied? {
        log := log + [Tokens(tokenCount, subjects)];
      }
      if outcome.Applied? {
        tokenCount, subjects := 0, {};
      } else if outcome.AppliedUnreported? {
        repeatedTokens := repeatedTokens + tokenCount;
      }
    }

    method TrySend(item: Item)
      modifies this
      ensures View() == OnRecord(old(View()), item)
    {
      if !closed && |channel| < QUEUE_CAPACITY {
        channel := channel + [item];
        accepted := accepted + [item];
      }
    }

    // One turn of the select loop on the channel.
    method Turn(first: Outcome, second: Outcome)
      modifies this
      ensures View() == if old(channel) != [] then OnReceive(old(View()), first) else OnFinish(old(View()), first, second)
    {
      if stopped {
        return;
      }
      if channel != [] {
        var item := channel[0];
        channel := channel[1..];
        match item {
          case Plain(event) =>
            queued := queued + [event];
            if |queued| >= BATCH_SIZE {
              Persist(first);
            }
          case TokenIssued(subject) =>
            tokenCount := SaturatingAdd(tokenCount, 1);
            subjects := subjects + {subject};
        }
      } else if closed {
        Persist(first);
        PersistTokenCount(second);
        stopped := true;
      }
    }
  }

  // ------------------------------------------------------------ conservation

  function Events(items: seq<Item>): seq<Event> {
    if items == [] then []
    else
      var rest, last := Events(items[..|items| - 1]), items[|items| - 1];
      if last.Plain? then rest + [last.event] else rest
  }

  function Logged(log: seq<Entry>): seq<Event> {
    if log == [] then []
    else
      var rest, last := Logged(log[..|log| - 1]), log[|log| - 1];
      if last.Stored? then rest + [last.event] else rest
  }

  lemma {:induction false} EventsConcat(a: seq<Item>, b: seq<Item>)
    ensures Events(a + b) == Events(a) + Events(b)
    decreases |b|
  {
    if b == [] {
      assert a + b == a;
    } else {
      assert (a + b)[..|a + b| - 1] == a + b[..|b| - 1];
      EventsConcat(a, b[..|b| - 1]);
    }
  }

  lemma {:induction false} LoggedConcat(log: seq<Entry>, events: seq<Event>)
    ensures Logged(log + AsEntries(events)) == Logged(log) + events
    decreases |events|
  {
    if events == [] {
      assert log + [] == log;
    } else {
      var init := AsEntries(events[..|events| - 1]);
      assert (log + AsEntries(events))[..|log + AsEntries(events)| - 1] == log + init;
      LoggedConcat(log, events[..|events| - 1]);
    }
  }

  // Everything accepted is in the log, in the queue or in the channel, and nothing else is, but for what was appended
  // more than once; and when nothing was, it is all in the order it was accepted in.
  ghost predicate Balanced(logged: seq<Event>, queued: seq<Event>, waiting: seq<Event>, accepted: seq<Event>, repeated: seq<Event>) {
    && (forall e :: multiset(logged)[e] + multiset(queued)[e] + multiset(waiting)[e]
                    == multiset(accepted)[e] + multiset(repeated)[e])
    && (repeated == [] ==> logged + queued + waiting == accepted)
  }

  ghost predicate EventsKept(s: State) {
    Balanced(Logged(s.log), s.queued, Events(s.channel), Events(s.accepted), s.repeatedEvents)
  }

  lemma AppendBalances(logged: seq<Event>, queued: seq<Event>, waiting: seq<Event>, accepted: seq<Event>, repeated: seq<Event>)
    requires Balanced(logged, queued, waiting, accepted, repeated)
    ensures Balanced(logged + queued, [], waiting, accepted, repeated)
    ensures queued != [] ==> Balanced(logged + queued, queued, waiting, accepted, repeated + queued)
  {
    assert multiset(logged + queued) == multiset(logged) + multiset(queued);
    assert multiset(repeated + queued) == multiset(repeated) + multiset(queued);
    assert logged + queued + [] + waiting == logged + queued + waiting;
    assert queued != [] ==> |repeated + queued| > 0;
  }

  lemma AcceptBalances(logged: seq<Event>, queued: seq<Event>, waiting: seq<Event>, accepted: seq<Event>, repeated: seq<Event>,
                       more: seq<Event>)
    requires Balanced(logged, queued, waiting, accepted, repeated)
    ensures Balanced(logged, queued, waiting + more, accepted + more, repeated)
  {
    assert multiset(waiting + more) == multiset(waiting) + multiset(more);
    assert multiset(accepted + more) == multiset(accepted) + multiset(more);
    assert logged + queued + (waiting + more) == (logged + queued + waiting) + more;
    assert repeated == [] ==> logged + queued + waiting == accepted;
  }

  lemma MoveBalances(logged: seq<Event>, queued: seq<Event>, e: Event, waiting: seq<Event>, accepted: seq<Event>,
                     repeated: seq<Event>)
    requires Balanced(logged, queued, [e] + waiting, accepted, repeated)
    ensures Balanced(logged, queued + [e], waiting, accepted, repeated)
  {
    assert multiset([e] + waiting) == multiset{e} + multiset(waiting);
    assert multiset(queued + [e]) == multiset(queued) + multiset{e};
    assert logged + (queued + [e]) + waiting == logged + queued + ([e] + waiting);
  }

  lemma PersistKeeps(s: State, outcome: Outcome)
    requires EventsKept(s)
    ensures EventsKept(PersistEvents(s, outcome))
  {
    LoggedConcat(s.log, s.queued);
    AppendBalances(Logged(s.log), s.queued, Events(s.channel), Events(s.accepted), s.repeatedEvents);
  }

  lemma TokensKeep(s: State, outcome: Outcome)
    requires EventsKept(s)
    ensures EventsKept(PersistTokens(s, outcome))
  {
    if s.tokenCount > 0 {
      assert (s.log + [Tokens(s.tokenCount, s.subjects)])[..|s.log|] == s.log;
    }
  }

  lemma EventsHead(items: seq<Item>)
    requires items != []
    ensures Events(items) == (if items[0].Plain? then [items[0].event] else []) + Events(items[1..])
  {
    assert items == [items[0]] + items[1..];
    EventsConcat([items[0]], items[1..]);
    assert [items[0]][..0] == [];
  }

  lemma ReceiveKeeps(s: State, e: Event)
    requires EventsKept(s) && s.channel != [] && s.channel[0] == Plain(e)
    ensures EventsKept(s.(channel := s.channel[1..], queued := s.queued + [e]))
  {
    EventsHead(s.channel);
    MoveBalances(Logged(s.log), s.queued, e, Events(s.channel[1..]), Events(s.accepted), s.repeatedEvents);
  }

  lemma TokenKeeps(s: State, t: State)
    requires EventsKept(s) && s.channel != [] && s.channel[0].TokenIssued?
    requires t == s.(channel := s.channel[1..], tokenCount := t.tokenCount, subjects := t.subjects)
    ensures EventsKept(t)
  {
    EventsHead(s.channel);
    assert [] + Events(s.channel[1..]) == Events(s.channel[1..]);
  }

  lemma RecordKeeps(s: State, item: Item)
    requires EventsKept(s)
    ensures EventsKept(OnRecord(s, item))
  {
    EventsConcat(s.channel, [item]);
    EventsConcat(s.accepted, [item]);
    AcceptBalances(Logged(s.log), s.queued, Events(s.channel), Events(s.accepted), s.repeatedEvents, Events([item]));
  }

  lemma ReceiveKeepsEvents(s: State, outcome: Outcome)
    requires EventsKept(s)
    ensures EventsKept(OnReceive(s, outcome))
  {
    if !s.stopped && s.channel != [] {
      match s.channel[0]
      case Plain(e) =>
        var pushed := s.(channel := s.channel[1..], queued := s.queued + [e]);
        ReceiveKeeps(s, e);
        if |pushed.queued| >= BATCH_SIZE {
          PersistKeeps(pushed, outcome);
          assert OnReceive(s, outcome) == PersistEvents(pushed, outcome);
        } else {
          assert OnReceive(s, outcome) == pushed;
        }
      case TokenIssued(_) => TokenKeeps(s, OnReceive(s, outcome));
    }
  }

  lemma FinishKeepsEvents(s: State, events: Outcome, tokens: Outcome)
    requires EventsKept(s)
    ensures EventsKept(OnFinish(s, events, tokens))
  {
    PersistKeeps(s, events);
    TokensKeep(PersistEvents(s, events), tokens);
  }

  lemma StepKeepsEvents(s: State, step: Step)
    requires EventsKept(s)
    ensures EventsKept(Next(s, step))
  {
    match step
    case Record(item) => RecordKeeps(s, item);
    case Receive(outcome) => ReceiveKeepsEvents(s, outcome);
    case EventTick(outcome) => PersistKeeps(s, outcome);
    case TokenTick(outcome) => TokensKeep(s, outcome);
    case Close =>
    case Finish(events, tokens) => FinishKeepsEvents(s, events, tokens);
  }

  lemma {:induction false} EventsAreConserved(steps: seq<Step>)
    ensures EventsKept(Run(steps))
  {
    if steps != [] {
      EventsAreConserved(steps[..|steps| - 1]);
      StepKeepsEvents(Run(steps[..|steps| - 1]), steps[|steps| - 1]);
    }
  }

  // ------------------------------------------------------------ tokens

  function Issued(items: seq<Item>): nat {
    if items == [] then 0 else Issued(items[..|items| - 1]) + Bit(items[|items| - 1].TokenIssued?)
  }

  function IssuedTo(items: seq<Item>): set<nat> {
    set x | x in items && x.TokenIssued? :: x.subject
  }

  function Counted(log: seq<Entry>): nat {
    if log == [] then 0
    else Counted(log[..|log| - 1]) + if log[|log| - 1].Tokens? then log[|log| - 1].count else 0
  }

  function CountedFor(log: seq<Entry>): set<nat> {
    set e, x | e in log && e.Tokens? && x in e.subjects :: x
  }

  ghost predicate TokensKept(s: State) {
    && Counted(s.log) + s.tokenCount + Issued(s.channel) == Issued(s.accepted) + s.repeatedTokens
    && CountedFor(s.log) + s.subjects + IssuedTo(s.channel) == IssuedTo(s.accepted)
    && s.tokenCount + Issued(s.channel) <= Issued(s.accepted)
  }

  lemma {:induction false} IssuedHead(items: seq<Item>)
    requires items != []
    ensures Issued(items) == Bit(items[0].TokenIssued?) + Issued(items[1..])
  {
    if |items| > 1 {
      var init := items[..|items| - 1];
      IssuedHead(init);
      assert items[1..][..|items[1..]| - 1] == init[1..];
    } else {
      assert items[..0] == [];
    }
  }

  lemma {:induction false} IssuedAtMost(items: seq<Item>)
    ensures Issued(items) <= |items|
  {
    if items != [] {
      IssuedAtMost(items[..|items| - 1]);
    }
  }

  lemma CountedAppend(log: seq<Entry>, e: Entry)
    ensures Counted(log + [e]) == Counted(log) + if e.Tokens? then e.count else 0
    ensures CountedFor(log + [e]) == CountedFor(log) + if e.Tokens? then e.subjects else {}
  {
    assert (log + [e])[..|log|] == log;
    assert forall x :: x in log + [e] <==> x in log || x == e;
  }

  lemma {:induction false} CountedEntries(log: seq<Entry>, events: seq<Event>)
    ensures Counted(log + AsEntries(events)) == Counted(log)
    ensures CountedFor(log + AsEntries(events)) == CountedFor(log)
    decreases |events|
  {
    if events == [] {
      assert log + [] == log;
    } else {
      var init, last := AsEntries(events[..|events| - 1]), Stored(events[|events| - 1]);
      CountedEntries(log, events[..|events| - 1]);
      assert log + (init + [last]) == (log + init) + [last];
      CountedAppend(log + init, last);
    }
  }

  lemma EventsKeepTokens(s: State, outcome: Outcome)
    requires TokensKept(s)
    ensures TokensKept(PersistEvents(s, outcome))
  {
    CountedEntries(s.log, s.queued);
  }

  lemma TokensPersist(s: State, outcome: Outcome)
    requires TokensKept(s)
    ensures TokensKept(PersistTokens(s, outcome))
  {
    CountedAppend(s.log, Tokens(s.tokenCount, s.subjects));
  }

  lemma IssuedAppend(items: seq<Item>, item: Item)
    ensures Issued(items + [item]) == Issued(items) + Bit(item.TokenIssued?)
    ensures IssuedTo(items + [item]) == IssuedTo(items) + if item.TokenIssued? then {item.subject} else {}
  {
    assert (items + [item])[..|items|] == items;
    assert forall x :: x in items + [item] <==> x in items || x == item;
  }

  lemma RecordKeepsTokens(s: State, item: Item)
    requires TokensKept(s)
    ensures TokensKept(OnRecord(s, item))
  {
    IssuedAppend(s.channel, item);
    IssuedAppend(s.accepted, item);
  }

  lemma IssuedToHead(items: seq<Item>)
    requires items != []
    ensures IssuedTo(items) == (if items[0].TokenIssued? then {items[0].subject} else {}) + IssuedTo(items[1..])
  {
    assert forall x :: x in items <==> x == items[0] || x in items[1..];
  }

  lemma ReceiveKeepsTokens(s: State, outcome: Outcome)
    requires TokensKept(s) && |s.accepted| <= U64_MAX
    ensures TokensKept(OnReceive(s, outcome))
  {
    if !s.stopped && s.channel != [] {
      var head, rest := s.channel[0], s.channel[1..];
      IssuedHead(s.channel);
      IssuedToHead(s.channel);
      if head.Plain? {
        EventsKeepTokens(s.(channel := rest, queued := s.queued + [head.event]), outcome);
      } else {
        IssuedAtMost(s.accepted);
      }
    }
  }

  lemma StepKeepsTokens(s: State, step: Step)
    requires TokensKept(s) && |s.accepted| <= U64_MAX
    ensures TokensKept(Next(s, step))
  {
    match step
    case Record(item) => RecordKeepsTokens(s, item);
    case Receive(outcome) => ReceiveKeepsTokens(s, outcome);
    case EventTick(outcome) => EventsKeepTokens(s, outcome);
    case TokenTick(outcome) => TokensPersist(s, outcome);
    case Close =>
    case Finish(events, tokens) =>
      EventsKeepTokens(s, events);
      TokensPersist(PersistEvents(s, events), tokens);
  }

  lemma AcceptedGrows(s: State, step: Step)
    ensures |s.accepted| <= |Next(s, step).accepted|
  {
  }

  // Every token that was counted is in the log's counts, in the count being kept or in the channel, but for those
  // appended more than once; and the subjects are those the tokens were issued to, whatever was repeated.
  lemma {:induction false} TokensAreConserved(steps: seq<Step>)
    requires |Run(steps).accepted| <= U64_MAX
    ensures TokensKept(Run(steps))
  {
    if steps != [] {
      var s, step := Run(steps[..|steps| - 1]), steps[|steps| - 1];
      AcceptedGrows(s, step);
      TokensAreConserved(steps[..|steps| - 1]);
      StepKeepsTokens(s, step);
    }
  }

  // ------------------------------------------------------------ exactly once

  // A step that appends events and is told that it failed.
  predicate Unreported(s: State, step: Step) {
    !s.stopped && match step
      case EventTick(outcome) => outcome.AppliedUnreported? && s.queued != []
      case Receive(outcome) => outcome.AppliedUnreported? && s.channel != [] && s.channel[0].Plain? && |s.queued| + 1 >= BATCH_SIZE
      case Finish(outcome, _) => outcome.AppliedUnreported? && s.closed && s.channel == [] && s.queued != []
      case _ => false
  }

  lemma StepRepeats(s: State, step: Step)
    ensures Next(s, step).repeatedEvents == [] <==> s.repeatedEvents == [] && !Unreported(s, step)
  {
  }

  ghost predicate AllReported(steps: seq<Step>) {
    forall k :: 0 <= k < |steps| ==> !Unreported(Run(steps[..k]), steps[k])
  }

  lemma ReportedStep(steps: seq<Step>, rest: seq<Step>)
    requires steps != [] && rest == steps[..|steps| - 1]
    ensures AllReported(steps) <==> AllReported(rest) && !Unreported(Run(rest), steps[|steps| - 1])
  {
    assert forall k :: 0 <= k < |rest| ==> rest[..k] == steps[..k] && rest[k] == steps[k];
  }

  lemma {:induction false} RepeatsExactly(steps: seq<Step>)
    ensures Run(steps).repeatedEvents == [] <==> AllReported(steps)
  {
    if steps != [] {
      var rest := steps[..|steps| - 1];
      RepeatsExactly(rest);
      StepRepeats(Run(rest), steps[|steps| - 1]);
      ReportedStep(steps, rest);
    }
  }

  ghost predicate ExactlyOnce(s: State) {
    forall e :: multiset(Logged(s.log))[e] + multiset(s.queued)[e] + multiset(Events(s.channel))[e]
                == multiset(Events(s.accepted))[e]
  }

  // Every accepted event is kept exactly once, and in order, exactly when no append was applied without being reported.
  lemma ExactlyOnceExactly(steps: seq<Step>)
    ensures ExactlyOnce(Run(steps)) <==> AllReported(steps)
    ensures AllReported(steps) ==>
              Logged(Run(steps).log) + Run(steps).queued + Events(Run(steps).channel) == Events(Run(steps).accepted)
  {
    var s := Run(steps);
    EventsAreConserved(steps);
    RepeatsExactly(steps);
    if s.repeatedEvents != [] {
      var e := s.repeatedEvents[0];
      assert multiset(s.repeatedEvents)[e] > 0;
    }
  }

  // ------------------------------------------------------------ the ends

  predicate Bounded(s: State) {
    |s.channel| <= QUEUE_CAPACITY && (s.stopped ==> s.closed && s.channel == [])
  }

  lemma StepBounded(s: State, step: Step)
    requires Bounded(s)
    ensures Bounded(Next(s, step))
  {
  }

  // The channel never holds more than it can, and a stopped task has emptied it.
  lemma {:induction false} ChannelBounded(steps: seq<Step>)
    ensures Bounded(Run(steps))
  {
    if steps != [] {
      ChannelBounded(steps[..|steps| - 1]);
      StepBounded(Run(steps[..|steps| - 1]), steps[|steps| - 1]);
    }
  }

  lemma Finishes(s: State, t: State, events: Outcome, tokens: Outcome)
    requires t == Next(s, Finish(events, tokens)) && !s.stopped && s.closed && s.channel == []
    ensures t.stopped && t.channel == [] && t.accepted == s.accepted
    ensures t.queued == if events.Applied? then [] else s.queued
    ensures t.repeatedEvents == s.repeatedEvents + if events.AppliedUnreported? then s.queued else []
  {
  }

  predicate EventsApplied(step: Step) {
    match step
    case EventTick(outcome) => outcome.Applied?
    case Receive(outcome) => outcome.Applied?
    case Finish(outcome, _) => outcome.Applied?
    case _ => true
  }

  // While appends succeed the queue never reaches a full batch, so no append holds more than one.
  lemma {:induction false} QueueBounded(steps: seq<Step>)
    requires forall k :: 0 <= k < |steps| ==> EventsApplied(steps[k])
    ensures |Run(steps).queued| < BATCH_SIZE
  {
    if steps != [] {
      QueueBounded(steps[..|steps| - 1]);
    }
  }

  // Once nothing waits, all that was accepted is in the log exactly when all that is still queued was appended before
  // without being reported.
  lemma MissingExactly(logged: seq<Event>, queued: seq<Event>, waiting: seq<Event>, accepted: seq<Event>, repeated: seq<Event>)
    requires Balanced(logged, queued, waiting, accepted, repeated) && waiting == []
    ensures multiset(accepted) <= multiset(logged) <==> multiset(queued) <= multiset(repeated)
  {
    forall e
      ensures multiset(accepted)[e] <= multiset(logged)[e] <==> multiset(queued)[e] <= multiset(repeated)[e]
    {
      assert multiset(logged)[e] + multiset(queued)[e] + multiset(waiting)[e] == multiset(accepted)[e] + multiset(repeated)[e];
    }
  }

  // When the task ends, whatever was reported or not before, nothing that was accepted is missing from the log exactly
  // when its last append was applied, reported or not, or all it tried to append was in the log already.
  lemma EndLosesExactly(steps: seq<Step>, s: State, t: State, events: Outcome, tokens: Outcome)
    requires s == Run(steps) && !s.stopped && s.closed && s.channel == [] && t == Next(s, Finish(events, tokens))
    ensures t.stopped && t.channel == []
    ensures multiset(Events(t.accepted)) <= multiset(Logged(t.log))
            <==> !events.NotApplied? || multiset(s.queued) <= multiset(s.repeatedEvents)
    ensures AllReported(steps) && events.Applied? ==> Logged(t.log) == Events(t.accepted)
    ensures AllReported(steps) && events.NotApplied? ==> Logged(t.log) + s.queued == Events(t.accepted)
  {
    EventsAreConserved(steps);
    StepKeepsEvents(s, Finish(events, tokens));
    Finishes(s, t, events, tokens);
    MissingExactly(Logged(t.log), t.queued, Events(t.channel), Events(t.accepted), t.repeatedEvents);
    assert multiset(s.repeatedEvents + s.queued) == multiset(s.repeatedEvents) + multiset(s.queued);
    assert s.repeatedEvents + [] == s.repeatedEvents;
    RepeatsExactly(steps);
    assert Logged(t.log) + t.queued + [] == Logged(t.log) + t.queued && Logged(t.log) + [] == Logged(t.log);
  }

  // ------------------------------------------------------------ nothing is kept back

  // A tick whose append succeeds leaves nothing queued, or nothing counted.
  lemma TicksPersist(s: State)
    requires !s.stopped
    ensures var t := Next(s, EventTick(Applied)); t.queued == [] && Logged(t.log) == Logged(s.log) + s.queued
    ensures var t := Next(s, TokenTick(Applied));
            t.tokenCount == 0 && t.subjects == (if s.tokenCount == 0 then s.subjects else {})
            && t.log == s.log + if s.tokenCount == 0 then [] else [Tokens(s.tokenCount, s.subjects)]
  {
    LoggedConcat(s.log, s.queued);
    assert s.log + [] == s.log && Logged(s.log) + [] == Logged(s.log);
  }

  // What is offered is taken exactly while the channel is open and has room.
  lemma TakenExactly(s: State, item: Item)
    ensures var t := Next(s, Record(item));
            if s.closed || |s.channel| >= QUEUE_CAPACITY then t == s
            else t == s.(channel := s.channel + [item], accepted := s.accepted + [item])
  {
  }

  // Every item that waits is received.
  function Receives(n: nat): seq<Step> {
    seq(n, _ => Receive(Applied))
  }

  lemma {:induction false} Received(steps: seq<Step>, s: State, n: nat, all: seq<Step>)
    requires s == Run(steps) && !s.stopped && n <= |s.channel| && all == steps + Receives(n)
    ensures var t := Run(all);
            t.channel == s.channel[n..] && !t.stopped && t.closed == s.closed && t.accepted == s.accepted
            && t.repeatedEvents == s.repeatedEvents && t.repeatedTokens == s.repeatedTokens
    decreases n
  {
    if n == 0 {
      assert all == steps;
    } else {
      var before := steps + Receives(n - 1);
      assert all[..|all| - 1] == before && all[|all| - 1] == Receive(Applied);
      Received(steps, s, n - 1, before);
      ReceivedOne(Run(before));
    }
  }

  lemma ReceivedOne(s: State)
    requires !s.stopped && s.channel != []
    ensures var t := Next(s, Receive(Applied));
            t.channel == s.channel[1..] && !t.stopped && t.closed == s.closed && t.accepted == s.accepted
            && t.repeatedEvents == s.repeatedEvents && t.repeatedTokens == s.repeatedTokens
  {
  }

  // Closing the channel, receiving what waits and finishing, with appends that succeed, gets every accepted event and
  // token into the log.
  function Drain(s: State): seq<Step> {
    [Close] + Receives(|s.channel|) + [Finish(Applied, Applied)]
  }

  lemma DrainLosesNothing(steps: seq<Step>, s: State, t: State)
    requires s == Run(steps) && !s.stopped && t == Run(steps + Drain(s)) && |s.accepted| <= U64_MAX
    ensures t.stopped && t.channel == [] && t.queued == [] && t.tokenCount == 0 && t.accepted == s.accepted
    ensures multiset(Events(s.accepted)) <= multiset(Logged(t.log))
    ensures Counted(t.log) == Issued(s.accepted) + s.repeatedTokens
  {
    var closing := steps + [Close];
    var received := closing + Receives(|s.channel|);
    var all := steps + Drain(s);
    assert closing[..|closing| - 1] == steps;
    assert all[..|all| - 1] == received && all[|all| - 1] == Finish(Applied, Applied);
    var c := Run(closing);
    Received(closing, c, |s.channel|, received);
    var r := Run(received);
    assert s.channel[|s.channel|..] == [];
    EndLosesExactly(received, r, t, Applied, Applied);
    TokensAreConserved(all);
    Finishes(r, t, Applied, Applied);
  }

  // ------------------------------------------------------------ what each token entry stands for

  function TokensIn(items: seq<Item>): seq<nat> {
    if items == [] then []
    else
      var rest, last := TokensIn(items[..|items| - 1]), items[|items| - 1];
      if last.TokenIssued? then rest + [last.subject] else rest
  }

  function SetOf(tokens: seq<nat>): set<nat> {
    set x | x in tokens
  }

  // The token entries of the log, one after the other, count the tokens and name exactly their subjects.
  ghost predicate Splits(log: seq<Entry>, tokens: seq<nat>) {
    if log == [] then tokens == []
    else
      var init, e := log[..|log| - 1], log[|log| - 1];
      if e.Stored? then Splits(init, tokens)
      else e.count <= |tokens| && e.subjects == SetOf(tokens[|tokens| - e.count..]) && Splits(init, tokens[..|tokens| - e.count])
  }

  // `logged` is what the entries count, `pending` what has been counted since the last append, `waiting` the channel.
  ghost predicate Batches(s: State, logged: seq<nat>, pending: seq<nat>, waiting: seq<nat>) {
    && TokensIn(s.accepted) == logged + pending + waiting && TokensIn(s.channel) == waiting
    && Splits(s.log, logged) && s.tokenCount == |pending| && s.subjects == SetOf(pending)
  }

  lemma {:induction false} TokensConcat(a: seq<Item>, b: seq<Item>)
    ensures TokensIn(a + b) == TokensIn(a) + TokensIn(b)
    decreases |b|
  {
    if b == [] {
      assert a + b == a;
    } else {
      assert (a + b)[..|a + b| - 1] == a + b[..|b| - 1];
      TokensConcat(a, b[..|b| - 1]);
    }
  }

  lemma {:induction false} SplitsEvents(log: seq<Entry>, events: seq<Event>, tokens: seq<nat>)
    requires Splits(log, tokens)
    ensures Splits(log + AsEntries(events), tokens)
    decreases |events|
  {
    if events == [] {
      assert log + [] == log;
    } else {
      var init := AsEntries(events[..|events| - 1]);
      SplitsEvents(log, events[..|events| - 1], tokens);
      assert (log + AsEntries(events))[..|log + AsEntries(events)| - 1] == log + init;
    }
  }

  lemma SplitsTokens(log: seq<Entry>, logged: seq<nat>, pending: seq<nat>)
    requires Splits(log, logged)
    ensures Splits(log + [Tokens(|pending|, SetOf(pending))], logged + pending)
  {
    var longer, tokens := log + [Tokens(|pending|, SetOf(pending))], logged + pending;
    assert longer[..|longer| - 1] == log;
    assert tokens[|tokens| - |pending|..] == pending && tokens[..|tokens| - |pending|] == logged;
  }

  lemma PersistTokensBatches(s: State, outcome: Outcome, logged: seq<nat>, pending: seq<nat>, waiting: seq<nat>)
    returns (l: seq<nat>, p: seq<nat>)
    requires Batches(s, logged, pending, waiting) && !(outcome.AppliedUnreported? && s.tokenCount > 0)
    ensures Batches(PersistTokens(s, outcome), l, p, waiting)
  {
    l, p := logged, pending;
    if s.tokenCount > 0 && outcome.Applied? {
      SplitsTokens(s.log, logged, pending);
      l, p := logged + pending, [];
      assert logged + pending + waiting == l + p + waiting;
    }
  }

  lemma PersistEventsBatches(s: State, outcome: Outcome, logged: seq<nat>, pending: seq<nat>, waiting: seq<nat>)
    requires Batches(s, logged, pending, waiting)
    ensures Batches(PersistEvents(s, outcome), logged, pending, waiting)
  {
    SplitsEvents(s.log, s.queued, logged);
  }

  lemma ReceiveBatches(s: State, outcome: Outcome, logged: seq<nat>, pending: seq<nat>, waiting: seq<nat>)
    returns (p: seq<nat>, w: seq<nat>)
    requires Batches(s, logged, pending, waiting) && |s.accepted| <= U64_MAX
    ensures Batches(OnReceive(s, outcome), logged, p, w)
  {
    p, w := pending, waiting;
    if !s.stopped && s.channel != [] {
      var head, rest := s.channel[0], s.channel[1..];
      assert s.channel == [head] + rest;
      TokensConcat([head], rest);
      assert [head][..0] == [];
      if head.Plain? {
        assert TokensIn([head]) == [];
        assert waiting == TokensIn(rest);
        PersistEventsBatches(s.(channel := rest, queued := s.queued + [head.event]), outcome, logged, pending, waiting);
      } else {
        p, w := pending + [head.subject], TokensIn(rest);
        assert waiting == [head.subject] + w;
        assert logged + pending + waiting == logged + p + w;
        TokensAtMost(s.accepted);
        assert SetOf(p) == SetOf(pending) + {head.subject};
      }
    }
  }

  lemma {:induction false} TokensAtMost(items: seq<Item>)
    ensures |TokensIn(items)| <= |items|
  {
    if items != [] {
      TokensAtMost(items[..|items| - 1]);
    }
  }

  predicate TokensUnreported(s: State, step: Step) {
    match step
    case TokenTick(outcome) => outcome.AppliedUnreported?
    case Finish(_, outcome) => outcome.AppliedUnreported?
    case _ => false
  }

  // While every append of a count is reported, each entry counts exactly the tokens since the one before, and names
  // exactly the subjects they were issued to.
  lemma {:induction false} TokenEntriesAreExact(steps: seq<Step>) returns (logged: seq<nat>, pending: seq<nat>, waiting: seq<nat>)
    requires |Run(steps).accepted| <= U64_MAX
    requires forall k :: 0 <= k < |steps| ==> !TokensUnreported(Run(steps[..k]), steps[k])
    ensures Batches(Run(steps), logged, pending, waiting)
  {
    if steps == [] {
      logged, pending, waiting := [], [], [];
      assert SetOf([]) == {};
    } else {
      var before, step := steps[..|steps| - 1], steps[|steps| - 1];
      var s := Run(before);
      AcceptedGrows(s, step);
      assert forall k :: 0 <= k < |before| ==> before[..k] == steps[..k];
      logged, pending, waiting := TokenEntriesAreExact(before);
      match step
      case Record(item) => waiting := RecordBatches(s, item, logged, pending, waiting);
      case Receive(outcome) => pending, waiting := ReceiveBatches(s, outcome, logged, pending, waiting);
      case EventTick(outcome) => PersistEventsBatches(s, outcome, logged, pending, waiting);
      case TokenTick(outcome) =>
        if !s.stopped {
          logged, pending := PersistTokensBatches(s, outcome, logged, pending, waiting);
        }
      case Close =>
      case Finish(events, tokens) =>
        if !s.stopped && s.closed && s.channel == [] {
          PersistEventsBatches(s, events, logged, pending, waiting);
          logged, pending := PersistTokensBatches(PersistEvents(s, events), tokens, logged, pending, waiting);
        }
    }
  }

  lemma RecordBatches(s: State, item: Item, logged: seq<nat>, pending: seq<nat>, waiting: seq<nat>) returns (w: seq<nat>)
    requires Batches(s, logged, pending, waiting)
    ensures Batches(OnRecord(s, item), logged, pending, w)
  {
    w := waiting;
    if !s.closed && |s.channel| < QUEUE_CAPACITY {
      TokensConcat(s.channel, [item]);
      TokensConcat(s.accepted, [item]);
      w := waiting + TokensIn([item]);
      assert logged + pending + waiting + TokensIn([item]) == logged + pending + w;
    }
  }
}
