// A run of the metric projector: src/store/analytics_store.rs.

module Projection {
  import opened Numbers
  import opened Buckets
  import opened Projector
  import opened Windows

  type Stored = map<nat, LocalBucket>

  function Applied(stored: LocalBucket, x: Entry): LocalBucket {
    var b := Normalize(stored);
    NormalizeShapes(stored);
    var after := Apply(b, x.event, x.sequence);
    if b.closed && !x.event.kind.Other? then after.(revision := Max(SaturatingAdd(b.revision, 1), 2)) else after
  }

  // Beside the event, only the revision changes, and only for a contribution to a closed bucket: it grows.
  lemma AppliedIs(b: LocalBucket, x: Entry, r: u64)
    requires Shaped(b) && b.revision > 0 && r == Applied(b, x).revision
    ensures Applied(b, x) == Apply(b, x.event, x.sequence).(revision := r)
    ensures r > 0 && Shaped(Applied(b, x)) && Applied(b, x).start == b.start && Applied(b, x).closed == b.closed
    ensures r == if b.closed && !x.event.kind.Other? then SaturatingAdd(b.revision, 1) else b.revision
  {
    NormalizeShapes(b);
  }

  lemma AppliedRepresents(b: LocalBucket, mine: seq<Entry>, x: Entry, after: LocalBucket, next: seq<Entry>)
    requires Shaped(b) && b.revision > 0 && Represents(b, mine) && |mine| < U64_MAX && x.sequence > 0
    requires after == Applied(b, x) && next == mine + [x]
    ensures after.start == b.start && after.revision > 0 && Shaped(after) && Represents(after, next)
  {
    AppliedIs(b, x, after.revision);
    ApplyRepresents(b, mine, x);
    RevisionFree(Apply(b, x.event, x.sequence), after, next);
  }

  lemma RevisionFree(a: LocalBucket, b: LocalBucket, es: seq<Entry>)
    requires b == a.(revision := b.revision, closed := b.closed)
    ensures Represents(a, es) <==> Represents(b, es)
  {
  }

  ghost predicate Good(start: nat, b: LocalBucket, mine: seq<Entry>) {
    b.start == start && start % BUCKET_WIDTH_SECONDS == 0 && b.revision > 0 && Shaped(b) && Represents(b, mine)
  }

  lemma NewIsGood(x: Entry, none: seq<Entry>)
    requires none == []
    ensures Good(Window(x.event), NewBucket(Window(x.event)), none)
  {
    NewRepresents(NewBucket(Window(x.event)), none);
  }

  lemma AppliedIsGood(b: LocalBucket, mine: seq<Entry>, x: Entry)
    requires Good(Window(x.event), b, mine) && |mine| < U64_MAX && x.sequence > 0
    ensures Good(Window(x.event), Applied(b, x), mine + [x])
  {
    AppliedRepresents(b, mine, x, Applied(b, x), mine + [x]);
  }

  lemma NewMakesGood()
    ensures Makes(NewBucket, Good)
  {
    forall x: Entry, none: seq<Entry> | none == []
      ensures Good(Window(x.event), NewBucket(Window(x.event)), none)
    {
      NewIsGood(x, none);
    }
  }

  lemma AppliedStepsGood()
    ensures Steps(Applied, Good)
  {
    forall b, mine, x: Entry | Good(Window(x.event), b, mine) && |mine| < U64_MAX && x.sequence > 0
      ensures Good(Window(x.event), Applied(b, x), mine + [x])
    {
      AppliedIsGood(b, mine, x);
    }
  }

  // ------------------------------------------------------------ a run

  // Exported closed buckets that still wait, by window and revision.
  type Queue = set<(nat, nat)>
  type Goodness = (nat, LocalBucket, seq<Entry>) -> bool

  function Entries(log: seq<Event>, from: nat, to: nat): seq<Entry>
    requires from <= to <= |log| <= U64_MAX
  {
    seq(to - from, i requires 0 <= i < to - from => Entry(from + i + 1, log[from + i]))
  }

  function ClosureBefore(now: nat): nat {
    Max(0, now - CLOSE_GRACE_SECONDS)
  }

  function LatestClosable(now: nat): nat {
    var t := Max(0, ClosureBefore(now) - BUCKET_WIDTH_SECONDS);
    t - t % BUCKET_WIDTH_SECONDS
  }

  // The windows looked at for closing, after `from`.
  predicate Candidate(from: nat, latest: nat, start: nat) {
    from < start <= latest && (start - from) % BUCKET_WIDTH_SECONDS == 0
    && start <= from + MAX_PROJECTION_BATCH * BUCKET_WIDTH_SECONDS
  }

  function Close(b: LocalBucket, now: nat): LocalBucket {
    if b.start + BUCKET_WIDTH_SECONDS <= ClosureBefore(now) then b.(closed := true) else b
  }

  // A bucket is closed once its five minutes and two minutes of grace have passed.
  lemma ClosedExactly(b: LocalBucket, now: nat)
    ensures Close(b, now).closed <==> b.closed || b.start + BUCKET_WIDTH_SECONDS + CLOSE_GRACE_SECONDS <= now
  {
  }

  // And those are the windows up to the latest closable one.
  lemma ClosableExactly(start: nat, now: nat)
    requires start % BUCKET_WIDTH_SECONDS == 0 && now >= BUCKET_WIDTH_SECONDS + CLOSE_GRACE_SECONDS
    ensures start <= LatestClosable(now) <==> start + BUCKET_WIDTH_SECONDS + CLOSE_GRACE_SECONDS <= now
  {
    var t := now - CLOSE_GRACE_SECONDS - BUCKET_WIDTH_SECONDS;
    var q, r := start / BUCKET_WIDTH_SECONDS, t / BUCKET_WIDTH_SECONDS;
    assert start == q * BUCKET_WIDTH_SECONDS && LatestClosable(now) == r * BUCKET_WIDTH_SECONDS;
    assert q <= r <==> start <= t;
  }

  predicate Waits(b: LocalBucket, queue: Queue) {
    b.closed && (b.start, b.revision as nat) !in queue
  }

  ghost predicate Exportable(b: LocalBucket, queue: Queue, realmId: string, epoch: u64) {
    Waits(b, queue) ==> Shaped(b) && ValidBucket(Export(b, realmId, epoch))
  }

  // What a sense of "stands for" must have: kept by every event, blind to closing, and of the right shape.
  ghost predicate Fine(good: Goodness) {
    && Keeps(Applied, NewBucket, good)
    && forall start, b, es :: good(start, b, es) ==> Shaped(b) && b.start == start && good(start, b.(closed := true), es)
  }

  method ApplyBatch(buckets: Stored, batch: seq<Entry>) returns (touched: Stored)
    ensures touched == Touch(Applied, NewBucket, buckets, batch)
  {
    touched := map[];
    for i := 0 to |batch|
      invariant touched == Touch(Applied, NewBucket, buckets, batch[..i])
    {
      var x := batch[i];
      var start := Window(x.event);
      var record := if start in touched then touched[start] else if start in buckets then buckets[start] else NewBucket(start);
      touched := touched[start := Applied(record, x)];
      assert batch[..i + 1][..i] == batch[..i];
    }
    assert batch[..|batch|] == batch;
  }

  // How far the windows after `from` have been looked at.
  function Reached(from: nat, latest: nat): nat {
    from + Min(MAX_PROJECTION_BATCH, Max(0, latest - from) / BUCKET_WIDTH_SECONDS) * BUCKET_WIDTH_SECONDS
  }

  // Looks at the windows after `from` for buckets to close.
  method AddCandidates(buckets: Stored, touched: Stored, from: nat, latest: nat) returns (all: Stored, to: nat)
    ensures to == Reached(from, latest)
    ensures forall start :: start in all <==> start in touched || (start in buckets && Candidate(from, latest, start))
    ensures forall start :: start in all ==> all[start] == if start in touched then touched[start] else buckets[start]
  {
    all, to := touched, from;
    var i := 0;
    while i < MAX_PROJECTION_BATCH && to + BUCKET_WIDTH_SECONDS <= latest
      invariant 0 <= i <= MAX_PROJECTION_BATCH && to == from + i * BUCKET_WIDTH_SECONDS && (to > from ==> to <= latest)
      invariant forall start :: start in all <==> start in touched || (start in buckets && Candidate(from, to, start))
      invariant forall start :: start in all ==> start in touched || start in buckets
      invariant forall start :: start in all ==> all[start] == if start in touched then touched[start] else buckets[start]
    {
      to := to + BUCKET_WIDTH_SECONDS;
      if to !in all && to in buckets {
        all := all[to := buckets[to]];
      }
      i := i + 1;
    }
    forall start
      ensures Candidate(from, to, start) <==> Candidate(from, latest, start)
    {
      CandidatesReached(from, to, latest, i, start);
    }
    assert i == Min(MAX_PROJECTION_BATCH, Max(0, latest - from) / BUCKET_WIDTH_SECONDS);
  }

  lemma CandidatesReached(from: nat, to: nat, latest: nat, i: nat, start: nat)
    requires i <= MAX_PROJECTION_BATCH && to == from + i * BUCKET_WIDTH_SECONDS && (to > from ==> to <= latest)
    requires i == MAX_PROJECTION_BATCH || latest < to + BUCKET_WIDTH_SECONDS
    ensures Candidate(from, to, start) <==> Candidate(from, latest, start)
  {
    if from < start && (start - from) % BUCKET_WIDTH_SECONDS == 0 {
      var j := (start - from) / BUCKET_WIDTH_SECONDS;
      assert start == from + j * BUCKET_WIDTH_SECONDS;
      assert j <= i <==> start <= to;
    }
  }

  function CloseAll(all: Stored, now: nat): Stored {
    map start | start in all :: Close(all[start], now)
  }

  method CloseBuckets(all: Stored, now: nat) returns (closed: Stored)
    ensures closed == CloseAll(all, now)
  {
    closed := all;
    var todo := all.Keys;
    while todo != {}
      invariant todo <= all.Keys && closed.Keys == all.Keys
      invariant forall start :: start in all ==> closed[start] == if start in todo then all[start] else Close(all[start], now)
      decreases todo
    {
      var start :| start in todo;
      closed := closed[start := Close(all[start], now)];
      todo := todo - {start};
    }
  }

  // Every closed bucket that does not wait already is checked before anything is written.
  method Validate(all: Stored, queue: Queue, realmId: string, epoch: u64) returns (ok: bool)
    requires forall start :: start in all ==> Shaped(all[start])
    ensures ok <==> forall start :: start in all ==> Exportable(all[start], queue, realmId, epoch)
  {
    var todo := all.Keys;
    while todo != {}
      invariant todo <= all.Keys
      invariant forall start :: start in all && start !in todo ==> Exportable(all[start], queue, realmId, epoch)
      decreases todo
    {
      var start :| start in todo;
      if Waits(all[start], queue) {
        var v := ValidateBucket(Export(all[start], realmId, epoch));
        if v != Verdict.Valid {
          return false;
        }
      }
      todo := todo - {start};
    }
    return true;
  }

  lemma CloseAllFine(good: Goodness, stored: Stored, all: Stored, now: nat, es: seq<Entry>)
    requires Fine(good) && Holds(good, stored, es)
    requires forall start :: start in all ==> start in stored && stored[start] == all[start]
    ensures forall start :: start in all ==> Shaped(all[start]) && Shaped(CloseAll(all, now)[start])
    ensures forall start :: start in all ==> good(start, CloseAll(all, now)[start], InWindow(es, start))
  {
    forall start | start in all
      ensures Shaped(all[start]) && Shaped(CloseAll(all, now)[start])
      ensures good(start, CloseAll(all, now)[start], InWindow(es, start))
    {
      assert good(start, stored[start], InWindow(es, start));
    }
  }

  lemma OverlayHolds(good: Goodness, buckets: Stored, stored: Stored, closed: Stored, es: seq<Entry>)
    requires Holds(good, stored, es) && (buckets + closed).Keys == stored.Keys
    requires forall start :: start in closed ==> good(start, closed[start], InWindow(es, start))
    requires forall start :: start in buckets && start !in closed ==> stored[start] == buckets[start]
    ensures Holds(good, buckets + closed, es)
  {
    forall start | start in buckets + closed
      ensures good(start, (buckets + closed)[start], InWindow(es, start))
    {
      if start !in closed {
        assert good(start, stored[start], InWindow(es, start));
      }
    }
  }

  // Adding buckets that are stored already, and closing some, changes nothing about what the buckets stand for.
  lemma CommitHolds(good: Goodness, buckets: Stored, touched: Stored, all: Stored, now: nat, es: seq<Entry>)
    requires Fine(good) && Holds(good, buckets + touched, es)
    requires forall start :: start in touched ==> start in all
    requires forall start :: start in all ==> start in touched || start in buckets
    requires forall start :: start in all ==> all[start] == if start in touched then touched[start] else buckets[start]
    ensures Holds(good, buckets + CloseAll(all, now), es)
    ensures forall start :: start in all ==> Shaped(all[start]) && Shaped(CloseAll(all, now)[start])
  {
    var stored := buckets + touched;
    assert forall start :: start in all ==> start in stored && stored[start] == all[start];
    CloseAllFine(good, stored, all, now, es);
    OverlayHolds(good, buckets, stored, CloseAll(all, now), es);
  }

  function Batch(log: seq<Event>, from: nat, limit: nat): seq<Entry>
    requires from <= |log| <= U64_MAX
  {
    Entries(log, from, Min(|log|, from + Max(1, Min(limit, MAX_PROJECTION_BATCH))))
  }

  // A window that a run looks at and whose bucket it would have to export, but cannot.
  ghost predicate Blocks(buckets: Stored, batch: seq<Entry>, closure: Option<nat>, now: nat, queue: Queue, realmId: string,
                         epoch: u64, start: nat)
  {
    var touched := Touch(Applied, NewBucket, buckets, batch);
    && (start in touched || (closure.Some? && start in buckets && Candidate(closure.value, LatestClosable(now), start)))
    && !Exportable(Close(Current(NewBucket, buckets, touched, start), now), queue, realmId, epoch)
  }

  ghost predicate Unblocked(buckets: Stored, batch: seq<Entry>, closure: Option<nat>, now: nat, queue: Queue, realmId: string,
                            epoch: u64)
  {
    forall start :: !Blocks(buckets, batch, closure, now, queue, realmId, epoch, start)
  }

  predicate Idle(batch: seq<Entry>, cursor: Option<nat>, closure: Option<nat>, now: nat) {
    batch == [] && cursor.Some? && closure == Some(LatestClosable(now))
  }

  // What a run looks at.
  ghost predicate Looks(buckets: Stored, touched: Stored, closure: Option<nat>, now: nat, all: Stored) {
    && (forall start :: start in all <==>
          start in touched || (closure.Some? && start in buckets && Candidate(closure.value, LatestClosable(now), start)))
    && (forall start :: start in all ==> all[start] == Current(NewBucket, buckets, touched, start))
  }

  lemma BlocksExactly(buckets: Stored, touched: Stored, closure: Option<nat>, now: nat, all: Stored, batch: seq<Entry>,
                      queue: Queue, realmId: string, epoch: u64)
    requires touched == Touch(Applied, NewBucket, buckets, batch) && Looks(buckets, touched, closure, now, all)
    ensures (forall start :: start in CloseAll(all, now) ==> Exportable(CloseAll(all, now)[start], queue, realmId, epoch))
       <==> Unblocked(buckets, batch, closure, now, queue, realmId, epoch)
  {
    var closed := CloseAll(all, now);
    forall start
      ensures (start in closed ==> Exportable(closed[start], queue, realmId, epoch))
         <==> !Blocks(buckets, batch, closure, now, queue, realmId, epoch, start)
    {
      assert start in all ==> closed[start] == Close(all[start], now);
    }
  }

  function ClosureFrom(closure: Option<nat>, now: nat): nat {
    if closure.Some? then closure.value else Max(0, LatestClosable(now) - BUCKET_WIDTH_SECONDS)
  }

  function LookedAt(buckets: Stored, touched: Stored, closure: Option<nat>, now: nat): Stored {
    map start | start in touched.Keys + buckets.Keys
                && (start in touched || (closure.Some? && Candidate(closure.value, LatestClosable(now), start))) ::
      Current(NewBucket, buckets, touched, start)
  }

  lemma LookedAtIs(buckets: Stored, touched: Stored, closure: Option<nat>, now: nat, all: Stored)
    requires Looks(buckets, touched, closure, now, all)
    ensures all == LookedAt(buckets, touched, closure, now)
  {
  }

  function Closing(buckets: Stored, closure: Option<nat>, batch: seq<Entry>, now: nat): Stored {
    CloseAll(LookedAt(buckets, Touch(Applied, NewBucket, buckets, batch), closure, now), now)
  }

  ghost predicate AllShaped(buckets: Stored) {
    forall start :: start in buckets ==> Shaped(buckets[start])
  }

  lemma ClosingHolds(good: Goodness, buckets: Stored, closure: Option<nat>, batch: seq<Entry>, now: nat, seen: seq<Entry>)
    requires Fine(good) && Holds(good, buckets, seen) && |seen| + |batch| <= U64_MAX && Sequenced(batch)
    ensures var closed := Closing(buckets, closure, batch, now);
            AllShaped(closed) && Holds(good, buckets + closed, seen + batch)
  {
    var touched := Touch(Applied, NewBucket, buckets, batch);
    var all := LookedAt(buckets, touched, closure, now);
    TouchHolds(Applied, NewBucket, good, buckets, seen, batch);
    CommitHolds(good, buckets, touched, all, now, seen + batch);
  }

  // Everything up to the commit.
  method Prepare(buckets: Stored, closure: Option<nat>, batch: seq<Entry>, now: nat, queue: Queue, realmId: string, epoch: u64)
    returns (ok: bool, closed: Stored, to: nat)
    requires (closure.None? ==> buckets == map[]) && AllShaped(Closing(buckets, closure, batch, now))
    ensures ok <==> Unblocked(buckets, batch, closure, now, queue, realmId, epoch)
    ensures closed == Closing(buckets, closure, batch, now)
    ensures to == Reached(ClosureFrom(closure, now), LatestClosable(now))
  {
    var touched := ApplyBatch(buckets, batch);
    var all;
    all, to := AddCandidates(buckets, touched, ClosureFrom(closure, now), LatestClosable(now));
    LookedAtIs(buckets, touched, closure, now, all);
    closed := CloseBuckets(all, now);
    ok := Validate(closed, queue, realmId, epoch);
    BlocksExactly(buckets, touched, closure, now, all, batch, queue, realmId, epoch);
  }

  // ------------------------------------------------------------ run after run

  // What is stored, and how much of the log had gone before the first run.
  datatype State = State(base: nat, cursor: Option<nat>, closure: Option<nat>, buckets: Stored)

  // One run: the log as it is then, from its oldest record on, and the rest of what the run reads.
  datatype Call = Call(log: seq<Event>, minimum: nat, now: nat, limit: nat, queue: Queue, realmId: string, epoch: u64)

  function Fresh(): State {
    State(0, None, None, map[])
  }

  function From(s: State, c: Call): nat {
    if s.cursor.Some? then s.cursor.value else Max(0, c.minimum - 1)
  }

  predicate Readable(s: State, c: Call) {
    c.minimum - 1 <= From(s, c) <= |c.log| <= U64_MAX
  }

  function BatchOf(s: State, c: Call): seq<Entry>
    requires Readable(s, c)
  {
    Batch(c.log, From(s, c), c.limit)
  }

  ghost predicate Succeeds(s: State, c: Call) {
    && Readable(s, c)
    && (|| Idle(BatchOf(s, c), s.cursor, s.closure, c.now)
        || Unblocked(s.buckets, BatchOf(s, c), s.closure, c.now, c.queue, c.realmId, c.epoch))
  }

  function Committed(s: State, c: Call): State
    requires Readable(s, c)
  {
    var from, batch := From(s, c), BatchOf(s, c);
    State(if s.cursor.Some? then s.base else from, Some(from + |batch|),
          Some(Reached(ClosureFrom(s.closure, c.now), LatestClosable(c.now))),
          s.buckets + Closing(s.buckets, s.closure, batch, c.now))
  }

  // All of a run is committed, or none of it.
  ghost function OnRun(s: State, c: Call): State {
    if !Succeeds(s, c) || Idle(BatchOf(s, c), s.cursor, s.closure, c.now) then s else Committed(s, c)
  }

  // What has been projected of the log.
  function Seen(s: State, log: seq<Event>): seq<Entry>
    requires |log| <= U64_MAX
  {
    if s.cursor.Some? && s.base <= s.cursor.value <= |log| then Entries(log, s.base, s.cursor.value) else []
  }

  ghost predicate Projected(good: Goodness, s: State, log: seq<Event>) {
    && |log| <= U64_MAX && (s.cursor.Some? ==> s.base <= s.cursor.value <= |log|)
    && (s.closure.None? ==> s.buckets == map[]) && Holds(good, s.buckets, Seen(s, log))
  }

  // What a run relies on: the records it would write have the right shape, and there are none before the first run.
  ghost predicate Consistent(s: State, c: Call) {
    && (s.closure.None? ==> s.buckets == map[])
    && (Readable(s, c) ==> AllShaped(Closing(s.buckets, s.closure, BatchOf(s, c), c.now)))
  }

  lemma EntriesConcat(log: seq<Event>, a: nat, b: nat, c: nat)
    requires a <= b <= c <= |log| <= U64_MAX
    ensures Entries(log, a, b) + Entries(log, b, c) == Entries(log, a, c)
    ensures |Entries(log, a, b)| + |Entries(log, b, c)| <= U64_MAX && Sequenced(Entries(log, b, c))
  {
  }

  lemma SeenGrows(s: State, c: Call)
    requires Readable(s, c) && (s.cursor.Some? ==> s.base <= s.cursor.value)
    ensures var batch, after := BatchOf(s, c), Committed(s, c);
            && Sequenced(batch) && |Seen(s, c.log)| + |batch| <= U64_MAX
            && after.base <= after.cursor.value <= |c.log| && Seen(after, c.log) == Seen(s, c.log) + batch
  {
    var from, to := From(s, c), From(s, c) + |BatchOf(s, c)|;
    EntriesConcat(c.log, if s.cursor.Some? then s.base else from, from, to);
    assert BatchOf(s, c) == Entries(c.log, from, to);
    assert s.cursor.None? ==> Entries(c.log, from, from) == [];
  }

  lemma CommitKeeps(good: Goodness, s: State, c: Call, seen: seq<Entry>, batch: seq<Entry>)
    requires Fine(good) && Projected(good, s, c.log) && Readable(s, c) && seen == Seen(s, c.log) && batch == BatchOf(s, c)
    ensures Projected(good, Committed(s, c), c.log) && AllShaped(Closing(s.buckets, s.closure, batch, c.now))
  {
    SeenGrows(s, c);
    ClosingHolds(good, s.buckets, s.closure, batch, c.now, seen);
  }

  // Every run keeps each bucket standing for exactly the events of its window that have been projected.
  lemma RunKeeps(good: Goodness, s: State, c: Call)
    requires Fine(good) && Projected(good, s, c.log)
    ensures Projected(good, OnRun(s, c), c.log)
    ensures Consistent(s, c)
  {
    if Readable(s, c) {
      CommitKeeps(good, s, c, Seen(s, c.log), BatchOf(s, c));
    }
  }

  // A run that succeeds has read on: up to its limit, of at least one and at most ten thousand events, or to the end.
  lemma RunAdvances(s: State, c: Call)
    requires Succeeds(s, c)
    ensures OnRun(s, c).cursor == Some(Min(|c.log|, From(s, c) + Max(1, Min(c.limit, MAX_PROJECTION_BATCH))))
  {
  }

  // What a run comes to once it has read its batch and looked for windows that block it.
  lemma RunIs(s: State, c: Call, from: nat, batch: seq<Entry>, ok: bool, closed: Stored, to: nat)
    requires Readable(s, c) && from == From(s, c) && batch == BatchOf(s, c) && !Idle(batch, s.cursor, s.closure, c.now)
    requires ok <==> Unblocked(s.buckets, batch, s.closure, c.now, c.queue, c.realmId, c.epoch)
    requires closed == Closing(s.buckets, s.closure, batch, c.now)
    requires to == Reached(ClosureFrom(s.closure, c.now), LatestClosable(c.now))
    ensures ok <==> Succeeds(s, c)
    ensures OnRun(s, c) == if ok then State(if s.cursor.Some? then s.base else from, Some(from + |batch|), Some(to), s.buckets + closed)
                           else s
  {
  }

  class MetricProjector {
    var cursor: Option<nat>
    var closure: Option<nat>
    var buckets: Stored
    ghost var base: nat

    ghost function Snapshot(): State
      reads this
    {
      State(base, cursor, closure, buckets)
    }

    constructor ()
      ensures Snapshot() == Fresh()
    {
      cursor, closure, buckets, base := None, None, map[], 0;
    }

    method Project(c: Call) returns (ok: bool)
      requires |c.log| <= U64_MAX && Consistent(Snapshot(), c)
      modifies this
      ensures ok <==> Succeeds(old(Snapshot()), c)
      ensures Snapshot() == OnRun(old(Snapshot()), c)
    {
      var from := if cursor.Some? then cursor.value else Max(0, c.minimum - 1);
      if from + 1 < c.minimum || from > |c.log| {
        return false;
      }
      var batch := Batch(c.log, from, c.limit);
      ghost var s := Snapshot();
      assert Readable(s, c) && batch == BatchOf(s, c);
      if Idle(batch, cursor, closure, c.now) {
        return true;
      }
      var closed, to;
      ok, closed, to := Prepare(buckets, closure, batch, c.now, c.queue, c.realmId, c.epoch);
      RunIs(s, c, from, batch, ok, closed, to);
      if ok {
        base := if cursor.Some? then base else from;
        buckets, closure, cursor := buckets + closed, Some(to), Some(from + |batch|);
      }
    }
  }

  // ------------------------------------------------------------ what this comes to

  // "Stands for" in the sense of Projector.Represents has what a run asks for: so after every run each bucket counts
  // exactly the events of its window, however the log was cut into batches and whenever the task was restarted.
  lemma GoodIsFine()
    ensures Fine(Good)
  {
    NewMakesGood();
    AppliedStepsGood();
    forall start, b, es | Good(start, b, es)
      ensures Shaped(b) && b.start == start && Good(start, b.(closed := true), es)
    {
      RevisionFree(b, b.(closed := true), es);
    }
  }

  lemma {:induction false} TouchOutside(buckets: Stored, batch: seq<Entry>, more: seq<Entry>, start: nat)
    requires forall i :: 0 <= i < |more| ==> Window(more[i].event) != start
    ensures var a, b := Touch(Applied, NewBucket, buckets, batch), Touch(Applied, NewBucket, buckets, batch + more);
            (start in a <==> start in b) && Current(NewBucket, buckets, a, start) == Current(NewBucket, buckets, b, start)
    decreases |more|
  {
    if more == [] {
      assert batch + more == batch;
    } else {
      var init := more[..|more| - 1];
      TouchOutside(buckets, batch, init, start);
      assert (batch + more)[..|batch + more| - 1] == batch + init;
    }
  }

  lemma LatestMonotone(a: nat, b: nat)
    requires a <= b
    ensures LatestClosable(a) <= LatestClosable(b) && ClosureBefore(a) <= ClosureBefore(b)
  {
  }

  // A run that fails leaves everything as it was, and fails again at any later time, whatever has been appended since
  // outside the window that blocks it.
  lemma StaysBlocked(buckets: Stored, batch: seq<Entry>, more: seq<Entry>, closure: Option<nat>, now: nat, later: nat,
                     queue: Queue, queueLater: Queue, realmId: string, epoch: u64, start: nat)
    requires Blocks(buckets, batch, closure, now, queue, realmId, epoch, start) && now <= later && queueLater <= queue
    requires forall i :: 0 <= i < |more| ==> Window(more[i].event) != start
    ensures Blocks(buckets, batch + more, closure, later, queueLater, realmId, epoch, start)
  {
    TouchOutside(buckets, batch, more, start);
    LatestMonotone(now, later);
    var b := Current(NewBucket, buckets, Touch(Applied, NewBucket, buckets, batch), start);
    assert Close(b, later) == Close(b, now);
  }

  // What a later run reads is what this one read, and then events appended since.
  lemma BatchGrows(log: seq<Event>, longer: seq<Event>, from: nat, limit: nat)
    requires log <= longer && from <= |log| && |longer| <= U64_MAX
    ensures var a, b := Batch(log, from, limit), Batch(longer, from, limit);
            |a| <= |b| && a == b[..|a|] && forall i :: |a| <= i < |b| ==> b[i].sequence > |log|
  {
  }

  // A waiting bucket can be exported exactly when the events of its window fit.
  lemma ExportableExactly(start: nat, b: LocalBucket, mine: seq<Entry>, queue: Queue, realmId: string, epoch: u64)
    requires Good(start, b, mine)
    ensures Exportable(b, queue, realmId, epoch)
            <==> !b.closed || (b.start, b.revision as nat) in queue || (ValidRealmId(realmId) && epoch > 0 && Fits(b, mine))
  {
    if b.closed {
      ExportValidExactly(b, mine, realmId, epoch);
    }
  }
}
