// The resumable event stream: src/event_rpc.rs.

module EventStream {
  import opened Numbers
  import opened EventLog

  const BATCH_SIZE: nat := 100
  // The last second that a timestamp can be written for.
  const LAST_SECOND: nat := 253_402_300_799

  datatype Filter = Filter(eventTypes: set<string>, tenantIds: set<string>)

  predicate Wanted(f: Filter, e: Event) {
    (f.eventTypes == {} || e.eventType in f.eventTypes) && (f.tenantIds == {} || e.tenantId in f.tenantIds)
  }

  function Kept(f: Filter, e: Event): seq<Event> {
    if Wanted(f, e) then [e] else []
  }

  function Matching(f: Filter, events: seq<Event>): seq<Event> {
    if events == [] then [] else Kept(f, events[0]) + Matching(f, events[1..])
  }

  lemma {:induction false} MatchingConcat(f: Filter, a: seq<Event>, b: seq<Event>)
    ensures Matching(f, a + b) == Matching(f, a) + Matching(f, b)
  {
    if a == [] {
      assert a + b == b;
    } else {
      assert (a + b)[1..] == a[1..] + b;
      MatchingConcat(f, a[1..], b);
    }
  }

  // An event matches when its type is one of those asked for, if any are, and so for its tenant.
  lemma {:induction false} MatchingExactly(f: Filter, events: seq<Event>, e: Event)
    ensures e in Matching(f, events) <==>
            e in events && (f.eventTypes != {} ==> e.eventType in f.eventTypes) && (f.tenantIds != {} ==> e.tenantId in f.tenantIds)
  {
    if events != [] {
      MatchingExactly(f, events[1..], e);
      assert events == [events[0]] + events[1..];
    }
  }

  // ------------------------------------------------------------ the loop

  datatype Failure = DataLoss | Exhausted | BadTimestamp | Source(error: Integrity) | WentBackwards

  // `sent` is how many events went out before the checkpoint.
  datatype Checkpoint = Checkpoint(sent: nat, cursor: nat, latest: nat)
  datatype Stream = Stream(cursor: nat, emitted: seq<Event>, checkpoints: seq<Checkpoint>, failure: Option<Failure>)

  function Open(after: nat): Stream {
    Stream(after, [], [], None)
  }

  // What one turn of the loop sees: the answer of the source and, when a checkpoint is due, the latest sequence.
  datatype Turn = Turn(batch: Batch, latest: Option<nat>)

  // Why an event stops the stream, if it does.
  function Stop(f: Filter, cursor: nat, e: Event): Option<Failure> {
    if cursor >= U64_MAX then Some(Exhausted)
    else if e.sequence != cursor + 1 then Some(DataLoss)
    else if Wanted(f, e) && e.occurredAt > LAST_SECOND then Some(BadTimestamp)
    else None
  }

  predicate Carries(f: Filter, cursor: nat, e: Event) {
    Stop(f, cursor, e).None?
  }

  // How much of a batch carries on from the cursor without a gap, and can be sent.
  function Carried(f: Filter, cursor: nat, batch: seq<Event>): (n: nat)
    ensures n <= |batch|
    decreases |batch|
  {
    if batch == [] || !Carries(f, cursor, batch[0]) then 0 else 1 + Carried(f, cursor + 1, batch[1..])
  }

  lemma {:induction false} CarriedExactly(f: Filter, cursor: nat, batch: seq<Event>, n: nat)
    requires n <= |batch| && forall i :: 0 <= i < n ==> Carries(f, cursor + i, batch[i])
    requires n < |batch| ==> !Carries(f, cursor + n, batch[n])
    ensures Carried(f, cursor, batch) == n
    decreases |batch|
  {
    if n > 0 {
      assert Carries(f, cursor + 0, batch[0]);
      forall i | 0 <= i < n - 1
        ensures Carries(f, cursor + 1 + i, batch[1..][i])
      {
        assert Carries(f, cursor + (i + 1), batch[i + 1]);
      }
      CarriedExactly(f, cursor + 1, batch[1..], n - 1);
    }
  }

  // The matching events up to the first one that does not carry on are sent, in order and once each, and that one
  // stops the stream.
  function OnBatch(f: Filter, s: Stream, batch: seq<Event>): Stream {
    var n := Carried(f, s.cursor, batch);
    var sent := s.(cursor := s.cursor + n, emitted := s.emitted + Matching(f, batch[..n]));
    if n == |batch| then sent
    else
      var stop := Stop(f, s.cursor + n, batch[n]);
      sent.(cursor := if stop == Some(BadTimestamp) then sent.cursor + 1 else sent.cursor, failure := stop)
  }

  function OnCheckpoint(s: Stream, latest: nat): Stream {
    if latest < s.cursor then s.(failure := Some(WentBackwards))
    else s.(checkpoints := s.checkpoints + [Checkpoint(|s.emitted|, s.cursor, latest)])
  }

  function OnTurn(f: Filter, s: Stream, turn: Turn): Stream {
    if s.failure.Some? then s
    else match turn.batch
      case Refused(error) => s.(failure := Some(Source(error)))
      case Batch(events) =>
        var t := OnBatch(f, s, events);
        if t.failure.Some? || |events| == BATCH_SIZE || turn.latest.None? then t else OnCheckpoint(t, turn.latest.value)
  }

  function Run(f: Filter, s: Stream, turns: seq<Turn>): Stream
    decreases |turns|
  {
    if turns == [] then s else Run(f, OnTurn(f, s, turns[0]), turns[1..])
  }

  class Subscription {
    const filter: Filter
    var stream: Stream

    constructor (after: nat, filter: Filter)
      ensures stream == Open(after) && this.filter == filter
    {
      this.filter, stream := filter, Open(after);
    }

    method Consume(batch: seq<Event>)
      requires stream.failure.None?
      modifies this
      ensures stream == OnBatch(filter, old(stream), batch)
    {
      var i := 0;
      while i < |batch|
        invariant 0 <= i <= |batch|
        invariant forall j :: 0 <= j < i ==> Carries(filter, old(stream).cursor + j, batch[j])
        invariant stream == old(stream).(cursor := old(stream).cursor + i,
                                         emitted := old(stream).emitted + Matching(filter, batch[..i]))
      {
        var event := batch[i];
        if stream.cursor >= U64_MAX {
          CarriedExactly(filter, old(stream).cursor, batch, i);
          stream := stream.(failure := Some(Exhausted));
          return;
        }
        if event.sequence != stream.cursor + 1 {
          CarriedExactly(filter, old(stream).cursor, batch, i);
          stream := stream.(failure := Some(DataLoss));
          return;
        }
        stream := stream.(cursor := event.sequence);
        if Wanted(filter, event) {
          if event.occurredAt > LAST_SECOND {
            CarriedExactly(filter, old(stream).cursor, batch, i);
            stream := stream.(failure := Some(BadTimestamp));
            return;
          }
          stream := stream.(emitted := stream.emitted + [event]);
        }
        MatchingConcat(filter, batch[..i], [event]);
        assert batch[..i + 1] == batch[..i] + [event];
        i := i + 1;
      }
      CarriedExactly(filter, old(stream).cursor, batch, |batch|);
    }

    // The turns of the loop until it fails or nobody listens any more.
    method Serve(turns: seq<Turn>)
      modifies this
      ensures stream == Run(filter, old(stream), turns)
    {
      var i := 0;
      while i < |turns|
        invariant 0 <= i <= |turns|
        invariant Run(filter, old(stream), turns) == Run(filter, stream, turns[i..])
      {
        assert turns[i..][1..] == turns[i + 1..];
        if stream.failure.None? {
          match turns[i].batch {
            case Refused(error) =>
              stream := stream.(failure := Some(Source(error)));
            case Batch(events) =>
              Consume(events);
              if stream.failure.None? && |events| != BATCH_SIZE && turns[i].latest.Some? {
                stream := OnCheckpoint(stream, turns[i].latest.value);
              }
          }
        }
        i := i + 1;
      }
    }
  }

  // ------------------------------------------------------------ what stops it, and what it says between batches

  // The first `n` events follow on from the cursor, and those that match can be written.
  predicate Follows(f: Filter, cursor: nat, batch: seq<Event>, n: nat)
    requires n <= |batch|
  {
    cursor + n <= U64_MAX
    && forall i :: 0 <= i < n ==> batch[i].sequence == cursor + 1 + i && (Wanted(f, batch[i]) ==> batch[i].occurredAt <= LAST_SECOND)
  }

  // At the first event that does not follow, the matching ones before it have been sent and the stream says why it stops:
  // a gap is data lost, after the last sequence there is none, and a time that cannot be written is told apart from both.
  lemma StopsAtTheFirstGap(f: Filter, s: Stream, batch: seq<Event>, n: nat)
    requires s.failure.None? && n < |batch| && Follows(f, s.cursor, batch, n)
    ensures var t, next := OnBatch(f, s, batch), s.cursor + n + 1;
            && (next <= U64_MAX && batch[n].sequence != next ==>
                  t == s.(cursor := s.cursor + n, emitted := s.emitted + Matching(f, batch[..n]), failure := Some(DataLoss)))
            && (next > U64_MAX ==>
                  t == s.(cursor := s.cursor + n, emitted := s.emitted + Matching(f, batch[..n]), failure := Some(Exhausted)))
            && (next <= U64_MAX && batch[n].sequence == next && Wanted(f, batch[n]) && batch[n].occurredAt > LAST_SECOND ==>
                  t == s.(cursor := next, emitted := s.emitted + Matching(f, batch[..n]), failure := Some(BadTimestamp)))
  {
    if !Carries(f, s.cursor + n, batch[n]) {
      CarriedExactly(f, s.cursor, batch, n);
    }
  }

  // A checkpoint is sent exactly when one is due after a batch that was not full; it says where the log ends, and a log
  // that ends before the cursor stops the stream.
  lemma CheckpointsExactly(f: Filter, s: Stream, turn: Turn, t: Stream)
    requires s.failure.None? && turn.batch.Batch? && t == OnBatch(f, s, turn.batch.events) && t.failure.None?
    ensures var after, due := OnTurn(f, s, turn), turn.latest.Some? && |turn.batch.events| != BATCH_SIZE;
            && (!due ==> after == t)
            && (due && turn.latest.value >= t.cursor ==>
                  after == t.(checkpoints := s.checkpoints + [Checkpoint(|t.emitted|, t.cursor, turn.latest.value)]))
            && (due && turn.latest.value < t.cursor ==> after == t.(failure := Some(WentBackwards)))
  {
  }

  // ------------------------------------------------------------ stopping and resuming

  lemma BatchFromAnyStart(f: Filter, s: Stream, batch: seq<Event>)
    requires s.failure.None?
    ensures OnBatch(f, s, batch).emitted == s.emitted + OnBatch(f, Open(s.cursor), batch).emitted
    ensures OnBatch(f, s, batch).cursor == OnBatch(f, Open(s.cursor), batch).cursor
    ensures OnBatch(f, s, batch).failure == OnBatch(f, Open(s.cursor), batch).failure
  {
  }

  lemma TurnFromAnyStart(f: Filter, s: Stream, turn: Turn)
    requires s.failure.None?
    ensures OnTurn(f, s, turn).emitted == s.emitted + OnTurn(f, Open(s.cursor), turn).emitted
    ensures OnTurn(f, s, turn).cursor == OnTurn(f, Open(s.cursor), turn).cursor
    ensures OnTurn(f, s, turn).failure == OnTurn(f, Open(s.cursor), turn).failure
  {
    if turn.batch.Batch? {
      BatchFromAnyStart(f, s, turn.batch.events);
    }
  }

  lemma {:induction false} FailedStays(f: Filter, s: Stream, turns: seq<Turn>)
    requires s.failure.Some?
    ensures Run(f, s, turns) == s
    decreases |turns|
  {
    if turns != [] {
      FailedStays(f, s, turns[1..]);
    }
  }

  lemma {:induction false} RunFromAnyStart(f: Filter, s: Stream, turns: seq<Turn>)
    requires s.failure.None?
    ensures Run(f, s, turns).emitted == s.emitted + Run(f, Open(s.cursor), turns).emitted
    ensures Run(f, s, turns).cursor == Run(f, Open(s.cursor), turns).cursor
    decreases |turns|
  {
    if turns != [] {
      TurnFromAnyStart(f, s, turns[0]);
      var t, u := OnTurn(f, s, turns[0]), OnTurn(f, Open(s.cursor), turns[0]);
      if t.failure.Some? {
        FailedStays(f, t, turns[1..]);
        FailedStays(f, u, turns[1..]);
      } else {
        RunFromAnyStart(f, t, turns[1..]);
        RunFromAnyStart(f, u, turns[1..]);
      }
    }
  }

  lemma {:induction false} RunConcat(f: Filter, s: Stream, a: seq<Turn>, b: seq<Turn>)
    ensures Run(f, s, a + b) == Run(f, Run(f, s, a), b)
    decreases |a|
  {
    if a == [] {
      assert a + b == b;
    } else {
      assert (a + b)[1..] == a[1..] + b;
      RunConcat(f, OnTurn(f, s, a[0]), a[1..], b);
    }
  }

  // Stopping anywhere and opening again at the last scanned sequence sends what one uninterrupted run sends.
  lemma ResumeIsSeamless(f: Filter, after: nat, a: seq<Turn>, b: seq<Turn>)
    requires Run(f, Open(after), a).failure.None?
    ensures Run(f, Open(after), a + b).emitted
         == Run(f, Open(after), a).emitted + Run(f, Open(Run(f, Open(after), a).cursor), b).emitted
  {
    RunConcat(f, Open(after), a, b);
    RunFromAnyStart(f, Run(f, Open(after), a), b);
  }

  // ------------------------------------------------------------ the store as the source

  // One turn against the store: the three reads of a batch, and the read of a checkpoint that is due.
  datatype Poll = Poll(first: Log, second: Log, third: Log, fourth: Log, due: bool)

  ghost predicate InOrder(before: Log, p: Poll) {
    && ValidLog(before) && ValidLog(p.first) && ValidLog(p.second) && ValidLog(p.third) && ValidLog(p.fourth)
    && Later(before, p.first) && Later(p.first, p.second) && Later(p.second, p.third) && Later(p.third, p.fourth)
    && forall e :: e in p.fourth.all ==> e.occurredAt <= LAST_SECOND
  }

  function TurnOf(p: Poll, cursor: nat): Turn {
    Turn(Read(p.first, p.second, p.third, cursor, BATCH_SIZE), if p.due then Some(|p.fourth.all|) else None)
  }

  function Watch(f: Filter, s: Stream, polls: seq<Poll>): Stream
    decreases |polls|
  {
    if polls == [] then s
    else
      var t := Watch(f, s, polls[..|polls| - 1]);
      OnTurn(f, t, TurnOf(polls[|polls| - 1], t.cursor))
  }

  // The turns that the loop makes against those polls: each reads on from where the one before has got to.
  function TurnsOf(f: Filter, s: Stream, polls: seq<Poll>): seq<Turn>
    decreases |polls|
  {
    if polls == [] then []
    else
      var rest := polls[..|polls| - 1];
      TurnsOf(f, s, rest) + [TurnOf(polls[|polls| - 1], Watch(f, s, rest).cursor)]
  }

  // Watching the store is the loop over those turns.
  lemma {:induction false} WatchIsTheLoop(f: Filter, s: Stream, polls: seq<Poll>)
    ensures Watch(f, s, polls) == Run(f, s, TurnsOf(f, s, polls))
    decreases |polls|
  {
    if polls != [] {
      var rest := polls[..|polls| - 1];
      var turn := TurnOf(polls[|polls| - 1], Watch(f, s, rest).cursor);
      WatchIsTheLoop(f, s, rest);
      RunConcat(f, s, TurnsOf(f, s, rest), [turn]);
      RunOne(f, Watch(f, s, rest), turn);
    }
  }

  lemma RunOne(f: Filter, s: Stream, turn: Turn)
    ensures Run(f, s, [turn]) == OnTurn(f, s, turn)
  {
    assert [turn][1..] == [];
  }

  function LastLog(base: Log, polls: seq<Poll>): Log {
    if polls == [] then base else polls[|polls| - 1].fourth
  }

  ghost predicate Chronicle(base: Log, polls: seq<Poll>) {
    ValidLog(base) && forall i :: 0 <= i < |polls| ==> InOrder(LastLog(base, polls[..i]), polls[i])
  }

  // What a stream has sent is exactly the matching part of the log between where it began and where it has got to.
  ghost predicate Faithful(f: Filter, after: nat, s: Stream, log: Log) {
    && after <= s.cursor <= |log.all| && s.emitted == Matching(f, log.all[after..s.cursor])
    && (s.failure.None? || (s.failure.value.Source? && (s.failure.value.error.CursorExpired?
                                                        || s.failure.value.error == MissingSequence(s.cursor + 1))))
  }

  lemma StoreBatchCarries(f: Filter, all: seq<Event>, from: nat, end: nat)
    requires Numbered(all) && from <= end <= |all| && forall e :: e in all ==> e.occurredAt <= LAST_SECOND
    ensures Carried(f, from, all[from..end]) == end - from
  {
    var batch := all[from..end];
    assert forall i :: 0 <= i < |batch| ==> batch[i] == all[from + i] && all[from + i] in all;
    CarriedExactly(f, from, batch, |batch|);
  }

  lemma BatchIsFaithful(f: Filter, after: nat, s: Stream, all: seq<Event>, end: nat)
    requires Numbered(all) && after <= s.cursor <= end <= |all| && forall e :: e in all ==> e.occurredAt <= LAST_SECOND
    requires s.failure.None? && s.emitted == Matching(f, all[after..s.cursor])
    ensures OnBatch(f, s, all[s.cursor..end])
         == s.(cursor := end, emitted := Matching(f, all[after..end]))
  {
    var batch := all[s.cursor..end];
    StoreBatchCarries(f, all, s.cursor, end);
    assert batch[..|batch|] == batch;
    MatchingConcat(f, all[after..s.cursor], batch);
    assert all[after..end] == all[after..s.cursor] + batch;
  }

  // The batch that a poll reads, when it is not refused, is the next stretch of the log.
  lemma PollReads(before: Log, p: Poll, cursor: nat)
    requires InOrder(before, p) && cursor <= |before.all|
    ensures var batch := TurnOf(p, cursor).batch;
            if batch.Batch? then
              cursor + |batch.events| == End(|p.second.all|, cursor, BATCH_SIZE)
              && batch.events == p.fourth.all[cursor..cursor + |batch.events|]
            else batch.error.CursorExpired? || batch.error == MissingSequence(cursor + 1)
  {
    var end := End(|p.second.all|, cursor, BATCH_SIZE);
    assert p.third.all[cursor..end] == p.fourth.all[cursor..end];
  }

  lemma TurnSends(f: Filter, s: Stream, turn: Turn, t: Stream)
    requires s.failure.None? && turn.batch.Batch? && t == OnBatch(f, s, turn.batch.events) && t.failure.None?
    requires turn.latest.Some? ==> t.cursor <= turn.latest.value
    ensures OnTurn(f, s, turn) == t.(checkpoints := OnTurn(f, s, turn).checkpoints)
  {
  }

  lemma FaithfulGrows(f: Filter, after: nat, s: Stream, a: Log, b: Log)
    requires Faithful(f, after, s, a) && a.all <= b.all
    ensures Faithful(f, after, s, b)
  {
    assert a.all[after..s.cursor] == b.all[after..s.cursor];
  }

  lemma TurnOnLog(f: Filter, after: nat, s: Stream, log: Log, turn: Turn)
    requires Faithful(f, after, s, log) && ValidLog(log) && forall e :: e in log.all ==> e.occurredAt <= LAST_SECOND
    requires turn.batch.Batch? ==>
               s.cursor + |turn.batch.events| <= |log.all|
               && turn.batch.events == log.all[s.cursor..s.cursor + |turn.batch.events|]
    requires turn.batch.Refused? ==> turn.batch.error.CursorExpired? || turn.batch.error == MissingSequence(s.cursor + 1)
    requires turn.latest.Some? ==> turn.latest.value == |log.all|
    ensures Faithful(f, after, OnTurn(f, s, turn), log)
  {
    if s.failure.None? && turn.batch.Batch? {
      var end := s.cursor + |turn.batch.events|;
      BatchIsFaithful(f, after, s, log.all, end);
      TurnSends(f, s, turn, s.(cursor := end, emitted := Matching(f, log.all[after..end])));
    }
  }

  lemma TurnIsFaithful(f: Filter, after: nat, s: Stream, before: Log, p: Poll)
    requires Faithful(f, after, s, before) && InOrder(before, p)
    ensures Faithful(f, after, OnTurn(f, s, TurnOf(p, s.cursor)), p.fourth)
  {
    FaithfulGrows(f, after, s, before, p.fourth);
    PollReads(before, p, s.cursor);
    TurnOnLog(f, after, s, p.fourth, TurnOf(p, s.cursor));
  }

  // Over a log that is appended to and pruned while it is read.
  lemma {:induction false} StreamIsTheLog(f: Filter, after: nat, base: Log, polls: seq<Poll>)
    requires Chronicle(base, polls) && after <= |base.all|
    ensures Faithful(f, after, Watch(f, Open(after), polls), LastLog(base, polls))
    ensures base.all <= LastLog(base, polls).all
  {
    if polls == [] {
      assert base.all[after..after] == [];
    } else {
      var rest := polls[..|polls| - 1];
      assert forall i :: 0 <= i < |rest| ==> rest[..i] == polls[..i];
      StreamIsTheLog(f, after, base, rest);
      TurnIsFaithful(f, after, Watch(f, Open(after), rest), LastLog(base, rest), polls[|polls| - 1]);
    }
  }

  // ------------------------------------------------------------ catching up

  function Still(log: Log, k: nat): seq<Poll> {
    if k == 0 then [] else Still(log, k - 1) + [Poll(log, log, log, log, false)]
  }

  // The stream has scanned `n` events, or all there are, and sent what matches.
  ghost predicate Scanned(f: Filter, after: nat, all: seq<Event>, s: Stream, n: nat)
    requires after <= |all|
  {
    s.failure.None? && s.cursor == Min(|all|, after + n) && s.emitted == Matching(f, all[after..s.cursor])
  }

  lemma StillTurn(f: Filter, after: nat, log: Log, s: Stream, n: nat)
    requires ValidLog(log) && log.minimum <= after + 1 && after <= |log.all| && Scanned(f, after, log.all, s, n)
    requires forall e :: e in log.all ==> e.occurredAt <= LAST_SECOND
    ensures Scanned(f, after, log.all, OnTurn(f, s, TurnOf(Poll(log, log, log, log, false), s.cursor)), n + BATCH_SIZE)
  {
    var end := Min(|log.all|, s.cursor + BATCH_SIZE);
    assert Read(log, log, log, s.cursor, BATCH_SIZE) == Batch(log.all[s.cursor..end]);
    BatchIsFaithful(f, after, s, log.all, end);
  }

  lemma StillStep(f: Filter, after: nat, log: Log, k: nat)
    requires k > 0
    ensures var t := Watch(f, Open(after), Still(log, k - 1));
            Watch(f, Open(after), Still(log, k)) == OnTurn(f, t, TurnOf(Poll(log, log, log, log, false), t.cursor))
  {
    var polls := Still(log, k);
    assert polls[..|polls| - 1] == Still(log, k - 1);
  }

  // Against a log that stands still and keeps what the stream needs, every turn scans a hundred events on: what the
  // stream has sent is in the end exactly the matching part of the log.
  lemma {:induction false} CatchesUp(f: Filter, after: nat, log: Log, k: nat)
    requires ValidLog(log) && log.minimum <= after + 1 && after <= |log.all|
    requires forall e :: e in log.all ==> e.occurredAt <= LAST_SECOND
    ensures Scanned(f, after, log.all, Watch(f, Open(after), Still(log, k)), BATCH_SIZE * k)
  {
    if k == 0 {
      assert log.all[after..after] == [];
    } else {
      CatchesUp(f, after, log, k - 1);
      StillStep(f, after, log, k);
      StillTurn(f, after, log, Watch(f, Open(after), Still(log, k - 1)), BATCH_SIZE * (k - 1));
    }
  }

  // ------------------------------------------------------------ checkpoints

  // A checkpoint names the end of the log as it was read after the batch: it is never behind the cursor, and what it
  // is ahead by is what was appended between the two reads.
  lemma CheckpointIsAhead(f: Filter, s: Stream, before: Log, p: Poll)
    requires InOrder(before, p) && s.cursor <= |before.all| && s.failure.None?
    requires |OnTurn(f, s, TurnOf(p, s.cursor)).checkpoints| > |s.checkpoints|
    ensures var t := OnTurn(f, s, TurnOf(p, s.cursor));
            var c := t.checkpoints[|s.checkpoints|];
            t.failure.None? && c.cursor == t.cursor == |p.second.all| <= c.latest == |p.fourth.all| && c.sent == |t.emitted|
  {
    PollReads(before, p, s.cursor);
    var batch := TurnOf(p, s.cursor).batch;
    assert batch.Batch?;
    StoreBatchCarries(f, p.fourth.all, s.cursor, s.cursor + |batch.events|);
  }

  lemma {:induction false} MatchesNone(f: Filter, events: seq<Event>)
    ensures Matching(f, events) == [] <==> forall i :: 0 <= i < |events| ==> !Wanted(f, events[i])
  {
    if events != [] {
      MatchesNone(f, events[1..]);
      assert forall i :: 0 < i < |events| ==> events[i] == events[1..][i - 1];
    }
  }

  lemma SkippingMatchesExactly(f: Filter, all: seq<Event>, cursor: nat, latest: nat, end: nat)
    requires cursor <= latest <= end <= |all|
    ensures Matching(f, all[cursor..end]) == Matching(f, all[latest..end])
            <==> forall i :: cursor <= i < latest ==> !Wanted(f, all[i])
  {
    assert all[cursor..end] == all[cursor..latest] + all[latest..end];
    MatchingConcat(f, all[cursor..latest], all[latest..end]);
    MatchesNone(f, all[cursor..latest]);
    assert forall i :: cursor <= i < latest ==> all[i] == all[cursor..latest][i - cursor];
    assert forall i :: 0 <= i < latest - cursor ==> all[cursor..latest][i] == all[cursor + i];
    var skipped, rest := Matching(f, all[cursor..latest]), Matching(f, all[latest..end]);
    assert skipped == [] ==> skipped + rest == rest;
    assert |skipped + rest| == |skipped| + |rest|;
  }

  // Opening again at a checkpoint instead of at the cursor sends the same, once both have got equally far, exactly when
  // nothing between the two matches.
  lemma CheckpointResumesExactly(f: Filter, base: Log, polls: seq<Poll>, cursor: nat, latest: nat)
    requires Chronicle(base, polls) && cursor <= latest <= |base.all|
    requires Watch(f, Open(cursor), polls).cursor == Watch(f, Open(latest), polls).cursor
    ensures Watch(f, Open(cursor), polls).emitted == Watch(f, Open(latest), polls).emitted
            <==> forall i :: cursor <= i < latest ==> !Wanted(f, base.all[i])
  {
    StreamIsTheLog(f, cursor, base, polls);
    StreamIsTheLog(f, latest, base, polls);
    SkippingMatchesExactly(f, LastLog(base, polls).all, cursor, latest, Watch(f, Open(cursor), polls).cursor);
  }
}
