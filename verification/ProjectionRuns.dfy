// Runs of the metric projector, one after the other: src/store/analytics_store.rs.

module ProjectionRuns {
  import opened Numbers
  import opened Buckets
  import opened Projector
  import opened Windows
  import opened Projection

  ghost function RunAll(s: State, calls: seq<Call>): State
    decreases |calls|
  {
    if calls == [] then s else OnRun(RunAll(s, calls[..|calls| - 1]), calls[|calls| - 1])
  }

  // Each run sees the log of the run before, and what was appended since.
  ghost predicate Growing(calls: seq<Call>, log: seq<Event>) {
    && |log| <= U64_MAX && (calls != [] ==> calls[|calls| - 1].log <= log)
    && forall i :: 0 < i < |calls| ==> calls[i - 1].log <= calls[i].log
  }

  lemma ProjectedGrows(good: Goodness, s: State, log: seq<Event>, longer: seq<Event>)
    requires Projected(good, s, log) && log <= longer && |longer| <= U64_MAX
    ensures Projected(good, s, longer)
  {
    assert Seen(s, log) == Seen(s, longer);
  }

  // However the log is cut into batches, whatever fails and whenever the task is restarted, there is a bucket for each
  // window of what has been projected, and it counts exactly the events of its window.
  lemma {:induction false} ProjectionIsTheLog(calls: seq<Call>, log: seq<Event>)
    requires Growing(calls, log)
    ensures Projected(Good, RunAll(Fresh(), calls), log)
    decreases |calls|
  {
    if calls != [] {
      var before, c := calls[..|calls| - 1], calls[|calls| - 1];
      ProjectionIsTheLog(before, c.log);
      GoodIsFine();
      RunKeeps(Good, RunAll(Fresh(), before), c);
      ProjectedGrows(Good, RunAll(Fresh(), calls), c.log, log);
    }
  }

  // ------------------------------------------------------------ when a run succeeds

  ghost predicate AllExportable(closing: Stored, c: Call) {
    forall start :: start in closing ==> Exportable(closing[start], c.queue, c.realmId, c.epoch)
  }

  lemma UnblockedExactly(s: State, c: Call, closing: Stored)
    requires Readable(s, c) && closing == Closing(s.buckets, s.closure, BatchOf(s, c), c.now)
    ensures Unblocked(s.buckets, BatchOf(s, c), s.closure, c.now, c.queue, c.realmId, c.epoch)
            <==> AllExportable(closing, c)
  {
    var touched := Touch(Applied, NewBucket, s.buckets, BatchOf(s, c));
    BlocksExactly(s.buckets, touched, s.closure, c.now, LookedAt(s.buckets, touched, s.closure, c.now), BatchOf(s, c),
                  c.queue, c.realmId, c.epoch);
  }

  lemma ClosingIsGood(s: State, c: Call, closing: Stored, es: seq<Entry>)
    requires Projected(Good, s, c.log) && Readable(s, c) && closing == Closing(s.buckets, s.closure, BatchOf(s, c), c.now)
    requires es == Seen(s, c.log) + BatchOf(s, c)
    ensures Holds(Good, s.buckets + closing, es)
  {
    GoodIsFine();
    SeenGrows(s, c);
    ClosingHolds(Good, s.buckets, s.closure, BatchOf(s, c), c.now, Seen(s, c.log));
  }

  // What the events of a window must be for its bucket not to stop the run.
  ghost predicate Passes(b: LocalBucket, mine: seq<Entry>, c: Call) {
    b.closed && (b.start, b.revision as nat) !in c.queue ==> ValidRealmId(c.realmId) && c.epoch > 0 && Fits(b, mine)
  }

  ghost predicate AllPass(closing: Stored, es: seq<Entry>, c: Call) {
    forall start :: start in closing ==> Passes(closing[start], InWindow(es, start), c)
  }

  lemma ClosingPasses(buckets: Stored, c: Call, closing: Stored, es: seq<Entry>)
    requires Holds(Good, buckets + closing, es)
    ensures AllExportable(closing, c) <==> AllPass(closing, es, c)
  {
    forall start | start in closing
      ensures Exportable(closing[start], c.queue, c.realmId, c.epoch) <==> Passes(closing[start], InWindow(es, start), c)
    {
      assert (buckets + closing)[start] == closing[start];
      ExportableExactly(start, closing[start], InWindow(es, start), c.queue, c.realmId, c.epoch);
    }
  }

  lemma ClosingUnblocked(s: State, c: Call, closing: Stored, es: seq<Entry>)
    requires Projected(Good, s, c.log) && Readable(s, c) && closing == Closing(s.buckets, s.closure, BatchOf(s, c), c.now)
    requires es == Seen(s, c.log) + BatchOf(s, c)
    ensures AllExportable(closing, c) <==> AllPass(closing, es, c)
  {
    ClosingIsGood(s, c, closing, es);
    ClosingPasses(s.buckets, c, closing, es);
  }

  // A run that has something to do succeeds exactly when the events of every closed window it looks at, and has not
  // exported yet, fit.
  lemma RunSucceedsExactly(s: State, c: Call, closing: Stored, es: seq<Entry>)
    requires Projected(Good, s, c.log) && Readable(s, c) && !Idle(BatchOf(s, c), s.cursor, s.closure, c.now)
    requires closing == Closing(s.buckets, s.closure, BatchOf(s, c), c.now) && es == Seen(s, c.log) + BatchOf(s, c)
    ensures Succeeds(s, c) <==> AllPass(closing, es, c)
  {
    UnblockedExactly(s, c, closing);
    ClosingUnblocked(s, c, closing, es);
  }

  // ------------------------------------------------------------ a registration across a boundary

  // Five minutes and the grace have passed.
  predicate Due(c: Call, start: nat) {
    start + BUCKET_WIDTH_SECONDS + CLOSE_GRACE_SECONDS <= c.now
  }

  // No revision of the window waits in the outbox.
  ghost predicate NotQueued(c: Call, start: nat) {
    forall revision :: (start, revision) !in c.queue
  }

  // The run reads an event of the window, or its closure cursor reaches it.
  ghost predicate Reaches(s: State, c: Call, start: nat)
    requires Readable(s, c)
  {
    InWindow(BatchOf(s, c), start) != [] || (s.closure.Some? && Candidate(s.closure.value, LatestClosable(c.now), start))
  }

  // The run would close a window whose registrations do not narrow, whether it stored the window before or not.
  ghost predicate Straddled(s: State, c: Call, start: nat) {
    && Projected(Good, s, c.log) && Readable(s, c) && Reaches(s, c, start) && Due(c, start) && NotQueued(c, start)
    && !Narrows(InWindow(Seen(s, c.log) + BatchOf(s, c), start))
  }

  lemma {:induction false} TouchedExactly(buckets: Stored, batch: seq<Entry>, start: nat)
    ensures start in Touch(Applied, NewBucket, buckets, batch) <==> InWindow(batch, start) != []
  {
    if batch != [] {
      TouchedExactly(buckets, batch[..|batch| - 1], start);
    }
  }

  lemma ClosedByNow(s: State, c: Call, closing: Stored, start: nat)
    requires Readable(s, c) && closing == Closing(s.buckets, s.closure, BatchOf(s, c), c.now) && start in closing
    requires closing[start].start == start && Due(c, start)
    ensures closing[start].closed
  {
  }

  lemma ReachedIsClosing(s: State, c: Call, closing: Stored, start: nat)
    requires Readable(s, c) && Reaches(s, c, start) && closing == Closing(s.buckets, s.closure, BatchOf(s, c), c.now)
    requires start in s.buckets + closing
    ensures start in closing
  {
    TouchedExactly(s.buckets, BatchOf(s, c), start);
  }

  lemma StraddledIsNotIdle(s: State, c: Call, start: nat)
    requires Straddled(s, c, start)
    ensures !Idle(BatchOf(s, c), s.cursor, s.closure, c.now)
  {
  }

  lemma StraddledFails(s: State, c: Call, start: nat)
    requires Straddled(s, c, start)
    ensures !Succeeds(s, c)
  {
    var closing := Closing(s.buckets, s.closure, BatchOf(s, c), c.now);
    var es := Seen(s, c.log) + BatchOf(s, c);
    StraddledIsNotIdle(s, c, start);
    ClosingIsGood(s, c, closing, es);
    StraddledBlocks(s, c, closing, es, start);
    UnblockedExactly(s, c, closing);
  }

  lemma StraddledBlocks(s: State, c: Call, closing: Stored, es: seq<Entry>, start: nat)
    requires Holds(Good, s.buckets + closing, es) && Readable(s, c) && Reaches(s, c, start) && Due(c, start) && NotQueued(c, start)
    requires closing == Closing(s.buckets, s.closure, BatchOf(s, c), c.now) && !Narrows(InWindow(es, start))
    ensures !AllExportable(closing, c)
  {
    var mine := InWindow(es, start);
    assert mine != [] by {
      if mine == [] {
        NothingCounted(mine);
      }
    }
    ReachedIsClosing(s, c, closing, start);
    assert (s.buckets + closing)[start] == closing[start];
    ClosedByNow(s, c, closing, start);
    StraddlingRegistration(closing[start], mine, c.realmId, c.epoch);
    assert !Exportable(closing[start], c.queue, c.realmId, c.epoch);
  }

  // As long as that is so, every run fails, and the projector stays where it is.
  lemma {:induction false} StraddledForever(s: State, calls: seq<Call>, start: nat)
    requires forall i :: 0 <= i < |calls| ==> Straddled(s, calls[i], start)
    ensures RunAll(s, calls) == s
    decreases |calls|
  {
    if calls != [] {
      StraddledForever(s, calls[..|calls| - 1], start);
      StraddledFails(s, calls[|calls| - 1], start);
    }
  }

  // ------------------------------------------------------------ the window that is never passed

  // From its `k`th event on the log leaves the window with registrations that do not narrow.
  ghost predicate Hampers(log: seq<Event>, k: nat, start: nat) {
    k <= |log| <= U64_MAX && forall end :: k <= end <= |log| ==> !Narrows(InWindow(Entries(log, 0, end), start))
  }

  // The runs may come at any time, in any number and with any limit, but the projector starts at the beginning of the
  // log and has read those events by the time the window is due.
  ghost predicate Meets(s: State, c: Call, k: nat, start: nat) {
    && Hampers(c.log, k, start) && NotQueued(c, start) && (s.cursor.None? ==> c.minimum <= 1)
    && (Due(c, start) && Readable(s, c) ==> k <= From(s, c) + |BatchOf(s, c)|)
  }

  // The closure cursor has not got to the window.
  predicate Behind(s: State, start: nat) {
    && s.base == 0 && (s.cursor.None? <==> s.closure.None?)
    && (s.closure.Some? ==> s.closure.value % BUCKET_WIDTH_SECONDS == 0 && s.closure.value < start)
  }

  // One run can look that far.
  predicate InReach(s: State, start: nat) {
    s.closure.Some? ==> start <= s.closure.value + MAX_PROJECTION_BATCH * BUCKET_WIDTH_SECONDS
  }

  lemma SeenFromTheStart(s: State, c: Call)
    requires Readable(s, c) && s.base == 0 && (s.cursor.None? ==> c.minimum <= 1)
    ensures Seen(s, c.log) + BatchOf(s, c) == Entries(c.log, 0, From(s, c) + |BatchOf(s, c)|)
  {
    var from, to := From(s, c), From(s, c) + |BatchOf(s, c)|;
    EntriesConcat(c.log, 0, from, to);
    assert BatchOf(s, c) == Entries(c.log, from, to);
    assert Seen(s, c.log) == Entries(c.log, 0, from);
  }

  lemma DueIsStraddled(s: State, c: Call, k: nat, start: nat)
    requires Projected(Good, s, c.log) && Behind(s, start) && Meets(s, c, k, start) && Readable(s, c)
    requires Due(c, start) && InReach(s, start) && start % BUCKET_WIDTH_SECONDS == 0
    ensures Straddled(s, c, start)
  {
    var es := Seen(s, c.log) + BatchOf(s, c);
    SeenFromTheStart(s, c);
    assert !Narrows(InWindow(es, start));
    ClosableExactly(start, c.now);
    if s.closure.None? {
      assert es == BatchOf(s, c);
      if InWindow(es, start) == [] {
        NothingCounted(InWindow(es, start));
        assert false;
      }
    }
  }

  lemma ReachedBefore(from: nat, latest: nat, start: nat)
    requires from < start && from % BUCKET_WIDTH_SECONDS == 0
    requires latest < start || from + MAX_PROJECTION_BATCH * BUCKET_WIDTH_SECONDS < start
    ensures Reached(from, latest) < start && Reached(from, latest) % BUCKET_WIDTH_SECONDS == 0
  {
    var n := Min(MAX_PROJECTION_BATCH, Max(0, latest - from) / BUCKET_WIDTH_SECONDS);
    assert n * BUCKET_WIDTH_SECONDS <= Max(0, latest - from);
  }

  lemma ClosureStays(s: State, c: Call, start: nat)
    requires Behind(s, start) && start > 0 && start % BUCKET_WIDTH_SECONDS == 0
    requires !Due(c, start) || (s.closure.Some? && !InReach(s, start))
    ensures var after := Reached(ClosureFrom(s.closure, c.now), LatestClosable(c.now));
            after < start && after % BUCKET_WIDTH_SECONDS == 0
  {
    if !Due(c, start) {
      NotDueNotClosable(start, c.now);
    }
    ReachedBefore(ClosureFrom(s.closure, c.now), LatestClosable(c.now), start);
  }

  lemma NotDueNotClosable(start: nat, now: nat)
    requires start > 0 && start % BUCKET_WIDTH_SECONDS == 0 && now < start + BUCKET_WIDTH_SECONDS + CLOSE_GRACE_SECONDS
    ensures LatestClosable(now) < start && LatestClosable(now) % BUCKET_WIDTH_SECONDS == 0
  {
    if now >= BUCKET_WIDTH_SECONDS + CLOSE_GRACE_SECONDS {
      ClosableExactly(start, now);
    }
  }

  lemma BehindStep(s: State, c: Call, k: nat, start: nat)
    requires Projected(Good, s, c.log) && Behind(s, start) && Meets(s, c, k, start)
    requires start > 0 && start % BUCKET_WIDTH_SECONDS == 0
    ensures Behind(OnRun(s, c), start)
    ensures Due(c, start) && InReach(s, start) ==> !Succeeds(s, c)
  {
    if Readable(s, c) {
      if Due(c, start) && InReach(s, start) {
        DueIsStraddled(s, c, k, start);
        StraddledFails(s, c, start);
      } else {
        ClosureStays(s, c, start);
      }
    }
  }

  ghost predicate MeetsAll(calls: seq<Call>, k: nat, start: nat) {
    forall i :: 0 <= i < |calls| ==> Meets(RunAll(Fresh(), calls[..i]), calls[i], k, start)
  }

  // Whatever is run and whenever, the closure cursor never gets to such a window; and no run that could close it succeeds.
  lemma {:induction false} NeverGetsPast(calls: seq<Call>, log: seq<Event>, k: nat, start: nat)
    requires Growing(calls, log) && MeetsAll(calls, k, start) && start > 0 && start % BUCKET_WIDTH_SECONDS == 0
    ensures Behind(RunAll(Fresh(), calls), start)
    ensures calls != [] && Due(calls[|calls| - 1], start) && InReach(RunAll(Fresh(), calls[..|calls| - 1]), start) ==>
              !Succeeds(RunAll(Fresh(), calls[..|calls| - 1]), calls[|calls| - 1])
    decreases |calls|
  {
    if calls != [] {
      var before, c := calls[..|calls| - 1], calls[|calls| - 1];
      assert forall i :: 0 <= i < |before| ==> before[..i] == calls[..i];
      NeverGetsPast(before, c.log, k, start);
      ProjectionIsTheLog(before, c.log);
      BehindStep(RunAll(Fresh(), before), c, k, start);
    }
  }

  // ------------------------------------------------------------ a registration that does that

  lemma {:induction false} CompletionCounts(log: seq<Event>, end: nat, j: nat, start: nat)
    requires end <= |log| <= U64_MAX && j < |log| && Window(log[j]) == start && log[j].kind.RegistrationCompleted?
    requires forall i :: 0 <= i < |log| && Window(log[i]) == start ==> !log[i].kind.RegistrationResponse?
    ensures var mine := InWindow(Entries(log, 0, end), start);
            Count(mine, RegistrationResponse) == 0 && (j < end ==> Count(mine, RegistrationCompleted) > 0)
    decreases end
  {
    if end == 0 {
      NothingCounted(InWindow(Entries(log, 0, end), start));
    } else {
      CompletionCounts(log, end - 1, j, start);
      var before, x := Entries(log, 0, end - 1), Entry(end, log[end - 1]);
      assert Entries(log, 0, end) == before + [x];
      InWindowStep(before, x, start);
      CountStep(InWindow(before, start), x);
    }
  }

  // A window with a completed registration and no returned response, whatever else happens in it.
  lemma CompletionHampers(log: seq<Event>, j: nat, start: nat)
    requires j < |log| <= U64_MAX && Window(log[j]) == start && log[j].kind.RegistrationCompleted?
    requires forall i :: 0 <= i < |log| && Window(log[i]) == start ==> !log[i].kind.RegistrationResponse?
    ensures Hampers(log, j + 1, start)
  {
    forall end | j + 1 <= end <= |log|
      ensures !Narrows(InWindow(Entries(log, 0, end), start))
    {
      CompletionCounts(log, end, j, start);
    }
  }

  // Such a registration: begun just before a boundary, its session and its completion recorded on it.
  function StraddlingLog(start: nat): seq<Event>
    requires start >= 3
  {
    [At(RegistrationOptions, start - 3), At(RegistrationOpened, start - 2), At(RegistrationResponse, start - 1),
     At(SessionCreated, start), At(RegistrationCompleted, start)]
  }

  function At(kind: Kind, occurredAt: nat): Event {
    Event(kind, None, occurredAt, None, 0, None, {}, None)
  }

  lemma AppliedKeepsClosed(b: LocalBucket, x: Entry)
    ensures Applied(b, x).closed == b.closed
  {
    NormalizeShapes(b);
  }

  ghost predicate AllOpen(buckets: Stored) {
    forall start :: start in buckets ==> !buckets[start].closed
  }

  lemma CurrentIsOpen(buckets: Stored, touched: Stored, start: nat)
    requires AllOpen(buckets) && AllOpen(touched)
    ensures !Current(NewBucket, buckets, touched, start).closed
  {
    assert !NewBucket(start).closed;
  }

  lemma {:induction false} TouchedStaysOpen(buckets: Stored, batch: seq<Entry>)
    requires AllOpen(buckets)
    ensures AllOpen(Touch(Applied, NewBucket, buckets, batch))
  {
    if batch != [] {
      var init, x := batch[..|batch| - 1], batch[|batch| - 1];
      var touched, start := Touch(Applied, NewBucket, buckets, init), Window(x.event);
      TouchedStaysOpen(buckets, init);
      CurrentIsOpen(buckets, touched, start);
      AppliedKeepsClosed(Current(NewBucket, buckets, touched, start), x);
      assert AllOpen(touched[start := Applied(Current(NewBucket, buckets, touched, start), x)]);
    }
  }

  lemma {:induction false} InWindowMember(es: seq<Entry>, start: nat) returns (i: nat)
    requires InWindow(es, start) != []
    ensures i < |es| && Window(es[i].event) == start
  {
    var n := |es| - 1;
    if Window(es[n].event) == start {
      i := n;
    } else {
      i := InWindowMember(es[..n], start);
    }
  }

  ghost predicate NoneDue(c: Call, batch: seq<Entry>) {
    forall i :: 0 <= i < |batch| ==> !Due(c, Window(batch[i].event))
  }

  lemma NothingCloses(c: Call, batch: seq<Entry>, buckets: Stored, closing: Stored)
    requires NoneDue(c, batch) && buckets == map[] && closing == Closing(buckets, None, batch, c.now)
    requires forall start :: start in closing ==> closing[start].start == start
    ensures forall start :: start in closing ==> !closing[start].closed
  {
    TouchedStaysOpen(buckets, batch);
    forall start | start in closing
      ensures !closing[start].closed
    {
      TouchedExactly(buckets, batch, start);
      var i := InWindowMember(batch, start);
    }
  }

  // A first run that finds no window due closes nothing, and succeeds.
  lemma OpenRunSucceeds(c: Call, batch: seq<Entry>, closing: Stored)
    requires Readable(Fresh(), c) && batch == BatchOf(Fresh(), c) && NoneDue(c, batch)
    requires closing == Closing(Fresh().buckets, None, batch, c.now)
    ensures Succeeds(Fresh(), c)
  {
    FreshIsProjected(c.log);
    assert Seen(Fresh(), c.log) + batch == batch;
    ClosingIsGood(Fresh(), c, closing, batch);
    ClosingStarts(Fresh().buckets, closing, batch);
    NothingCloses(c, batch, Fresh().buckets, closing);
    UnblockedExactly(Fresh(), c, closing);
  }

  lemma ClosingStarts(buckets: Stored, closing: Stored, es: seq<Entry>)
    requires Holds(Good, buckets + closing, es)
    ensures forall start :: start in closing ==> closing[start].start == start
  {
    forall start | start in closing
      ensures closing[start].start == start
    {
      assert Good(start, (buckets + closing)[start], InWindow(es, start));
    }
  }

  lemma StraddlingLogHampers(log: seq<Event>, start: nat)
    requires start >= 300 && start % BUCKET_WIDTH_SECONDS == 0 && StraddlingLog(start) <= log && |log| <= U64_MAX
    requires forall i :: 5 <= i < |log| && Window(log[i]) == start ==> !log[i].kind.RegistrationResponse?
    ensures Hampers(log, 5, start)
  {
    assert forall i :: 0 <= i < 5 ==> log[i] == StraddlingLog(start)[i];
    CompletionHampers(log, 4, start);
  }

  lemma FirstBatch(first: Call, start: nat, batch: seq<Entry>)
    requires start >= 900 && start % BUCKET_WIDTH_SECONDS == 0 && first.log == StraddlingLog(start) && first.minimum == 1
    requires first.now == start + 1 && first.limit >= 5 && batch == BatchOf(Fresh(), first)
    ensures |batch| == 5 && NoneDue(first, batch)
  {
  }

  // The first run, one second after.
  lemma FirstRunStores(first: Call, start: nat, s: State)
    requires start >= 900 && start % BUCKET_WIDTH_SECONDS == 0 && first.log == StraddlingLog(start) && first.minimum == 1
    requires first.now == start + 1 && first.limit >= 5 && NotQueued(first, start) && s == OnRun(Fresh(), first)
    ensures Succeeds(Fresh(), first) && s.cursor == Some(5) && Projected(Good, s, first.log)
    ensures Behind(s, start) && InReach(s, start)
  {
    var batch := BatchOf(Fresh(), first);
    FirstBatch(first, start, batch);
    OpenRunSucceeds(first, batch, Closing(Fresh().buckets, None, batch, first.now));
    StraddlingLogHampers(first.log, start);
    FreshIsProjected(first.log);
    BehindStep(Fresh(), first, 5, start);
    GoodIsFine();
    RunKeeps(Good, Fresh(), first);
  }

  lemma FreshIsProjected(log: seq<Event>)
    requires |log| <= U64_MAX
    ensures Projected(Good, Fresh(), log)
  {
    var none: seq<Call> := [];
    ProjectionIsTheLog(none, log);
  }

  // A run soon after stores both windows. Every run once the second one is due fails, whatever else is appended short of
  // another returned response in that window, and the projector stays where it is.
  lemma StraddlingStopsTheProjector(first: Call, calls: seq<Call>, start: nat, s: State)
    requires start >= 900 && start % BUCKET_WIDTH_SECONDS == 0 && first.log == StraddlingLog(start) && first.minimum == 1
    requires first.now == start + 1 && first.limit >= 5 && NotQueued(first, start) && s == OnRun(Fresh(), first)
    requires forall i :: 0 <= i < |calls| ==> FollowsUp(calls[i], start)
    ensures Succeeds(Fresh(), first) && s.cursor == Some(5)
    ensures RunAll(s, calls) == s && forall i :: 0 <= i < |calls| ==> !Succeeds(s, calls[i])
  {
    FirstRunStores(first, start, s);
    forall i | 0 <= i < |calls|
      ensures Straddled(s, calls[i], start) && !Succeeds(s, calls[i])
    {
      FollowUpStraddles(first, calls[i], start, s);
      StraddledFails(s, calls[i], start);
    }
    StraddledForever(s, calls, start);
  }

  ghost predicate FollowsUp(c: Call, start: nat)
    requires start >= 3
  {
    && StraddlingLog(start) <= c.log && |c.log| <= U64_MAX && c.minimum <= 6 && Due(c, start) && NotQueued(c, start)
    && forall i :: 5 <= i < |c.log| && Window(c.log[i]) == start ==> !c.log[i].kind.RegistrationResponse?
  }

  lemma FollowUpStraddles(first: Call, c: Call, start: nat, s: State)
    requires start >= 900 && start % BUCKET_WIDTH_SECONDS == 0 && first.log == StraddlingLog(start) && FollowsUp(c, start)
    requires s.cursor == Some(5) && Projected(Good, s, first.log) && Behind(s, start) && InReach(s, start)
    ensures Straddled(s, c, start)
  {
    ProjectedGrows(Good, s, first.log, c.log);
    StraddlingLogHampers(c.log, start);
    DueIsStraddled(s, c, 5, start);
  }
}
