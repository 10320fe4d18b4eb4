# rustyauth: a verified model

rustyauth is a passkey authentication server. Realms serve sign-ins; a fleet control plane manages realms and collects
their metrics. This project models the parts of it whose correctness spans many calls, and proves what they promise.
`dafny verify dfyconfig.toml` checks everything.

| module | part of the system | main result |
|---|---|---|
| `RateLimit`, `SharedLimit`, `ClientAddress` | request limits | budgets over every run, replica and restart; eviction changes no answer |
| `RemoteMutation` | commands sent to a realm | at most once under stalls, crashes and retries, with the exact bound on stalls; a retry gets the first answer |
| `Rotation`, `RotationRetries`, `RotationRuns` | two-sided credential rotation | never locked out exactly when no rotation is executed a day after its staging; which cut-short rotations a retry finishes |
| `EventLog`, `EventStream` | the event log and its resumable stream | the stream is the matching part of a log that is appended to and pruned meanwhile |
| `AuthTelemetry` | telemetry batching | conservation in order, exactly once exactly when every append is reported |
| `Projector`, `Windows`, `Projection`, `ProjectionRuns`, `Exports` | local metric projection | each bucket counts exactly the events of its window, however the log is cut and restarted, and its record tells them field by field |
| `Buckets`, `Histogram`, `Aggregate` | the bucket contract and aggregation | validators decide the contract; totals, overflow bound and end-to-end percentile |
| `WideRows`, `Families`, `Rollups` | the analytics store | wide rows and materialized rollups agree with direct aggregation, in every family |
| `Series`, `Breakdown`, `Coverage` | analytics queries | series, overview and breakdown add up; coverage partitions the connections |
| `Parquet`, `Archive` | signed archives | rows and buckets are in bijection; what is built verifies, nothing else does under its signature, and when it imports |
| `Base64Url`, `Paging` | page tokens | exact codec; walks are complete although records come and go |
| `Numbers` | shared arithmetic | sums and remainders |

Protocols are state machines whose steps are single datastore calls, messages and clock ticks; a theorem about a protocol
is about every finite sequence of steps. Objects that the source updates in place are classes or methods, tied to a
function of their old state, and the properties are proved of that function.

## What turned out differently from what the code or its comments suggest

- A fixed window is documented to admit up to twice its budget across a boundary. In a half-open interval of one window
  it is at most twice the budget less one, and that is reached (`RateLimit.AtMostTwiceTheBudget`).
- The shared counter keeps to its budget exactly when increments run within 60 seconds of the clock reading
  (`SharedLimit.EpochBudgetExactly`).
- A remote mutation runs at most once exactly when no handler takes more than 86 100 seconds from checking the expiry to
  claiming the id (`RemoteMutation.AtMostOnceExactly`). A changed operation never runs under a used id exactly when ids
  are reached for again only within 86 400 seconds of their claim; at that age one does
  (`RemoteMutation.OneOperationExactly`).
- Waiting the advertised retry time is enough; waiting a second less is enough too exactly when the window ends on a whole
  second (`RateLimit.RetryAfterIsTight`). However many keys come and are evicted, the limiter answers like one without
  capacity fed the same requests exactly when there is room for all the windows that are open at one time
  (`RateLimit.EvictionIsInvisibleExactly`).
- What a client puts in front of the forwarded header is ignored exactly when the header has an entry for each trusted hop;
  with fewer the client can choose the address (`ClientAddress.ForgedPrefixIsIgnoredExactly`).
- The realm authenticates a rotation and executes it later without looking at the bearer again, and forgets a rotation
  after 86 400 seconds. The control plane is never locked out exactly when no rotation is executed 86 400 seconds or more
  after it was staged; one second later an old credential can come back after the next rotation has completed
  (`RotationRuns.NeverLockedOutExactly`, `RotationRuns.LockOutIsReachable`).
- Two concurrent rotations with one request id can stage a credential for a request that has completed. Such a rotation
  can never be finished and blocks every later one (`RotationRuns.WedgeIsReachable`, `RotationRetries.FinishableExactly`).
- A reader whose records are pruned between its first and last read is told of a missing record instead of an expired
  cursor (`EventLog.ReadIsTheNextStretch`).
- A checkpoint of the event stream loses events as a resume point exactly when something matching was appended between
  the two reads (`EventStream.CheckpointResumesExactly`).
- A registration that straddles a five-minute boundary can leave a window with more registrations in a later stage than in
  an earlier one, which the contract refuses. Whatever is run and whenever, the projector's closure cursor then never gets to
  that window, and every run that could close it fails (`ProjectionRuns.NeverGetsPast`,
  `ProjectionRuns.StraddlingStopsTheProjector`).
- A decoded rollup is a valid bucket only for an idle five-minute window, yet rollups are aggregated through the bucket
  validator (`Rollups.RollupRecordIsValidExactly`).
- Coverage is computed as partial for disabled or unsupported realms, which the coverage contract refuses unless a realm
  is stale (`Coverage.CoverageIsValidExactly`).
- An archive with two revisions of one window in a chunk can be built and never imported
  (`Archive.TwoRevisionsCannotBeImported`).

## Model

| member | source | states |
|---|---|---|
| RateLimit.RateLimiter.constructor | src/rate_limit.rs:98-106 | a new limiter has an empty map and the given capacity |
| RateLimit.RateLimiter.CheckAt | src/rate_limit.rs:154-194 | one check, in place: eviction, the new or restarted window, the saturating count and the decision; the map never outgrows its capacity and a poisoned lock refuses |
| RateLimit.MapNeverExceedsCapacity | src/rate_limit.rs:166-179 | over every run the tracked keys stay within the capacity |
| RateLimit.EvictionIsInvisible | src/rate_limit.rs:166-193 | every request not refused for capacity gets the decision and retry time of an unbounded limiter fed the requests that were not refused for capacity, and a refused one is turned away for a whole window |
| RateLimit.EvictionIsInvisibleExactly | src/rate_limit.rs:166-193 | also fed the refused requests, the unbounded limiter gives the same answers over every run with at most n windows open at one time, however many keys it has, if and only if n is within the capacity (or the capacity is zero and everything is refused) |
| RateLimit.EvictsWithRoom | src/rate_limit.rs:166-179 | among those runs are ones that fill the map and evict from it |
| RateLimit.AtMostTwiceTheBudget | src/rate_limit.rs:82-86 | over every run with a nondecreasing clock, a key is allowed at most 2 × budget − 1 requests in any half-open interval one window long |
| RateLimit.TwiceTheBudgetLessOneIsReached | src/rate_limit.rs:82-86 | that bound is reached |
| RateLimit.BurstIsCut | src/rate_limit.rs:39-48 | of any number of requests of one key at once, an empty limiter lets through thirty ceremonies, sixty exchanges and ten of all else |
| RateLimit.EachWindowAdmitsExactlyItsBudget | src/rate_limit.rs:154-194 | each window admits exactly the first budget of the requests counted in it, even when entries are evicted and re-created |
| RateLimit.RetryAfterIsHonest | src/rate_limit.rs:69-74 | waiting the advertised time gets a key that nobody else used allowed again, unless the map is full |
| RateLimit.RetryAfterIsTight | src/rate_limit.rs:187-193 | a refused client that waits one second less is refused again if and only if its window does not end on a whole second from then |
| RateLimit.RefusalIsHonest | src/rate_limit.rs:166-179 | a client that is refused because the map is full, and waits the advertised time while nobody else comes, is allowed |
| RateLimit.RefusalIsTight | src/rate_limit.rs:170-173 | no shorter time would do: a nanosecond less after a crowd, the map is still full |
| RateLimit.SubjectBudget | src/rate_limit.rs:245-254 | the interval bound holds per class and subject whatever the digest, even when digests collide |
| SharedLimit.CounterOutlivesItsEpoch | src/rate_limit.rs:221-236 | with timely increments the counter of an epoch is never reset before the epoch ends, and counts what was allowed |
| SharedLimit.EpochBudget | src/rate_limit.rs:131-152 | all replicas and restarted processes together are allowed at most one budget per key and epoch |
| SharedLimit.SharedBudget | src/rate_limit.rs:198-242 | and at most two budgets in any interval one window long |
| SharedLimit.StalledIncrementOverspends | src/rate_limit.rs:221-236 | an increment one second later than that is admitted beyond the budget |
| SharedLimit.EpochBudgetExactly | src/rate_limit.rs:203-241 | the epoch budget holds of every run if and only if increments run within 60 seconds of the clock reading |
| SharedLimit.RetryEndsTheEpoch | src/rate_limit.rs:203-241 | the advertised seconds, between one and sixty, end the epoch, and one second less does not |
| SharedLimit.SharedRetryIsHonest | src/rate_limit.rs:203-241 | a key refused by the counter that waits the advertised seconds is allowed, if nobody has used the new epoch and its replica lets it through |
| SharedLimit.SharedRetryIsTight | src/rate_limit.rs:203-241 | and before that no check of the key is allowed, on any replica, whatever else happens meanwhile |
| SharedLimit.AllowedIsMetered | src/rate_limit.rs:131-152 | what is allowed has passed the replica's limiter and been counted within the budget; a local refusal leaves the counter alone, and a counter that does not answer refuses for a whole window |
| ClientAddress.ForgedPrefixIsIgnoredExactly | src/rate_limit.rs:263-284 | nothing that a client puts in front of a forwarded header changes the address if and only if the header has an entry for each trusted hop; otherwise any address can be put there |
| ClientAddress.SelectsWhatTheOutermostSaw | src/rate_limit.rs:263-284 | with an entry for each trusted hop, the address is what the outermost of them appended, or the peer if that is no address |
| ClientAddress.NobodyIsTrusted | src/rate_limit.rs:268-273 | without trusted hops or a header it is the peer |
| ClientAddress.NonEmptyExactly | src/rate_limit.rs:274-278 | the entries are the trimmed parts that are not blank |
| RemoteMutation.AtMostOnce | src/management_rpc.rs:501-624 | over every interleaving of handlers, crashes and retries no request is claimed, applied, audited or completed twice, and an id is claimed again only after the retention |
| RemoteMutation.AtMostOnceExactly | src/store/remote_mutations.rs:41-135 | at most once holds of every run if and only if the stall between validation and claim plus the longest expiry stays within the retention |
| RemoteMutation.SuccessIsBacked | src/management_rpc.rs:564-623 | every success reply has been claimed, applied, audited and recorded before, in that order |
| RemoteMutation.RepliesAgree | src/management_rpc.rs:540-562 | all success replies for a request, first answer or replay, carry the same completion |
| RemoteMutation.RetryIsAnswered | src/management_rpc.rs:533-562 | in any state, asking again while the receipt is there gets exactly the stored success, no reply when the operation differs, is unfinished or failed, and changes nothing else |
| RemoteMutation.FirstIsAnswered | src/management_rpc.rs:533-623 | an undisturbed handler on a free id claims, applies, audits, records and answers, with the receipt and the trace of every outcome |
| RemoteMutation.FirstThenRetry | src/management_rpc.rs:533-623 | asking again, by any handler before the retention ends and while the request has not expired, gets the completion of the first answer |
| RemoteMutation.ClaimsAreFresh | src/management_rpc.rs:924-936 | over every run a request is claimed only within the stall of a moment before its expiry, and never one dated more than five minutes ahead |
| RemoteMutation.OneOperationExactly | src/store/remote_mutations.rs:41-135 | whatever the stall, over every run in which an id is reached for less than a given time after its claim, effects under one id are of one operation, if and only if that time is at most the retention |
| RemoteMutation.UsedIdRunsAgainAfterRetention | src/store/remote_mutations.rs:50-70 | a run that lasts exactly the retention applies a second operation under a used id |
| Rotation.NeverLockedOut | src/fleet_rpc.rs:1493-1646 | over every run with lost, repeated and late messages, crashes and retries in which no rotation is executed a day or more after it was staged, the realm's credential is the active or the staged one, the active one when nothing is staged, and never one it gave up |
| RotationRuns.NeverLockedOutExactly | src/store/management.rs:318-372 | with executions less than a given time after staging, the control plane is locked out in no run if and only if that time is at most 86 400 seconds |
| RotationRuns.NeverGoesBackExactly | src/store/management.rs:304-372 | and the same bound is exact for the realm never returning to a credential it gave up |
| RotationRetries.RetryFinishes | src/fleet_rpc.rs:1541-1646 | from any point where a rotation was cut short, the steps of one more call with the same request id, and of the realm task it talks to, complete it on both sides |
| RotationRetries.LateStagerFinishes | src/store/fleet.rs:1233-1325 | a call that looked before another call with its request id staged joins it: it is given what is staged and completes it |
| RotationRetries.FinishableExactly | src/store/fleet.rs:1233-1325 | a staged rotation can be finished by some run if and only if its request has not completed |
| RotationRuns.WedgeIsReachable | src/store/fleet.rs:1293-1325 | a run in which no time passes stages a credential for a completed request |
| RotationRetries.WedgedForever | src/store/fleet.rs:1305-1310 | from there no run changes what is staged |
| RotationRetries.CompletedStaysLocal | src/fleet_rpc.rs:1526-1540 | once a request has completed and no call for it is past the check, no call sends the realm a message about it |
| Rotation.LocksOutExactly | src/management_rpc.rs:654-718 | executing a task locks the control plane out if and only if its request is not recorded any more and its credential is neither the active nor the staged one |
| Rotation.AnswerMeansHeld | src/management_rpc.rs:693-704 | when the realm answers a rotation it holds the credential of that rotation |
| Rotation.BearersWereHeld | src/store/management.rs:229-247 | over every run, what the realm lets in and what it answers carries a credential it has held |
| Rotation.NeverSendsThrice | src/fleet_rpc.rs:1582-1619 | over every run no call sends the realm more than two messages |
| Rotation.AgreesOnItsOwnAnswer | src/fleet_rpc.rs:1582-1646 | over every run a call goes on to commit only on the realm's answer to a message of its own |
| RotationRuns.LockOutIsReachable | src/store/management.rs:318-331 | a run that lasts exactly 86 400 seconds, so that nothing is executed later than that after its staging, ends with the realm holding a credential the control plane no longer has |
| EventLog.Events | src/store/events.rs:154-200 | a read answers with the records after the cursor in order, up to the limit, or with the first thing wrong with them |
| EventLog.ReadIsTheNextStretch | src/store/events.rs:154-200 | across concurrent appends and pruning a batch is the next stretch of everything ever appended; an expired cursor is reported, and a missing record exactly when pruning ran between the reads |
| EventLog.EventStore.constructor | src/store/events.rs:197-206 | an empty store starts at sequence one |
| EventLog.EventStore.Append | src/store/events.rs:69-92 | all inputs are numbered without a gap after the latest, or none is when sequences run out |
| EventLog.EventStore.Store | src/store/events.rs:285-306 | records and latest sequence change together |
| EventLog.EventStore.Prune | src/store/events.rs:211-278 | removes the longest prefix that is old enough, within the maximum and read by every consumer, and leaves every such consumer able to read on |
| EventLog.Slowest | src/store/events.rs:217-231 | the slowest of the log end, the projector and the webhooks |
| EventStream.Subscription.constructor | src/event_rpc.rs:118-121 | a stream opens at its cursor |
| EventStream.Subscription.Consume | src/event_rpc.rs:122-142 | from any source, the matching events up to the first gap are sent in order, once each, and the gap stops the stream |
| EventStream.Subscription.Serve | src/event_rpc.rs:118-163 | the loop is the fold of its turns, with checkpoints only after short batches |
| EventStream.CarriedExactly | src/event_rpc.rs:128-141 | how much of a batch is consumed: up to the first event that does not carry on |
| EventStream.MatchingExactly | src/event_rpc.rs:137-141 | an event is sent if and only if its type and its tenant are asked for, where any are |
| EventStream.StopsAtTheFirstGap | src/event_rpc.rs:122-142 | at the first event that does not follow, the matching ones before it have been sent and the stream says whether data was lost, sequences ran out or a time cannot be written |
| EventStream.CheckpointsExactly | src/event_rpc.rs:145-160 | a checkpoint is sent if and only if one is due after a batch that was not full, and a log that ends before the cursor stops the stream |
| EventStream.WatchIsTheLoop | src/event_rpc.rs:118-163 | watching the store is the loop over the turns in which each read starts where the one before has got to |
| EventStream.StreamIsTheLog | src/event_rpc.rs:118-163 | over a log that grows and is pruned between and during polls, what was sent is exactly the matching part from the opening cursor to the scanned one, and the only failures are expired or just pruned records |
| EventStream.CatchesUp | src/event_rpc.rs:122-145 | against a log that stands still each turn scans a hundred events on, so all matching events are sent |
| EventStream.ResumeIsSeamless | src/event_rpc.rs:118-163 | stopping anywhere and opening again at the scanned sequence sends what one run sends |
| EventStream.CheckpointIsAhead | src/event_rpc.rs:147-159 | a checkpoint is never behind the cursor; it is ahead by what was appended between the two reads |
| EventStream.CheckpointResumesExactly | src/event_rpc.rs:148-158 | a stream opened at a checkpoint has sent what one opened at the cursor has, once both have scanned equally far, if and only if nothing between cursor and checkpoint matches |
| AuthTelemetry.Task.constructor | src/auth.rs:76-90 | the task starts empty |
| AuthTelemetry.Task.TrySend | src/auth.rs:133-150 | an item is taken unless the channel is full or closed |
| AuthTelemetry.Task.Persist | src/auth.rs:153-165 | the queue is appended as one batch and cleared only when the append is reported |
| AuthTelemetry.Task.PersistTokenCount | src/auth.rs:167-186 | the count and its subjects are appended as one entry and cleared only when that is reported |
| AuthTelemetry.Task.Append | src/auth.rs:160-164 | a batch is appended in order |
| AuthTelemetry.Task.Turn | src/auth.rs:93-117 | one turn of the loop on the channel, and its end |
| AuthTelemetry.EventsAreConserved | src/auth.rs:80-128 | at every step of every run, log, queue and channel together hold what was accepted plus what was appended again, in order when nothing was |
| AuthTelemetry.ExactlyOnceExactly | src/auth.rs:153-165 | accepted events are kept exactly once if and only if no append was applied without being reported |
| AuthTelemetry.TokensAreConserved | src/auth.rs:103-106 | token counts in the log, pending and waiting add up to the tokens accepted plus those appended again, and the subjects are exactly theirs |
| AuthTelemetry.TokenEntriesAreExact | src/auth.rs:167-186 | each token entry counts the tokens since the entry before and names exactly their subjects |
| AuthTelemetry.QueueBounded | src/auth.rs:96-102 | while appends succeed the queue stays below one batch |
| AuthTelemetry.ChannelBounded | src/auth.rs:54-58 | the channel never holds more than 8 192 items, and a stopped task has emptied it |
| AuthTelemetry.EndLosesExactly | src/auth.rs:107-115 | when the task ends, after any run and with any outcome, nothing accepted is missing from the log if and only if the last append was applied, reported or not, or all it tried to append had been appended unreported before; with every append reported the log is the accepted events in order |
| AuthTelemetry.TicksPersist | src/auth.rs:117-126 | a tick whose append succeeds leaves nothing queued, or nothing counted, and the log holds it |
| AuthTelemetry.TakenExactly | src/auth.rs:133-150 | an offered item is taken if and only if the channel is open and has room |
| AuthTelemetry.DrainLosesNothing | src/auth.rs:93-117 | after any run, closing the channel and emptying it with successful appends stops the task with everything accepted in the log |
| Projector.NormalizeShapes | src/store/analytics_store.rs:106-113 | normalizing gives every record the right shape and changes none that has it |
| Projector.NormalizeKeeps | src/store/analytics_store.rs:106-113 | it keeps the counts that are there and starts the others at zero |
| Projector.ApplyRepresents | src/store/analytics_store.rs:115-253 | applying an event to a bucket that counts some events gives the bucket that counts one more: every counter, histogram, class, backlog, sequence bound and subject |
| Projector.NewRepresents | src/store/analytics_store.rs:87-104 | a new bucket counts no events |
| Projector.ClassesAddUp | src/store/analytics_store.rs:279-296 | each failure and denial has exactly one class |
| Projector.AuthenticationValidExactly | src/store/analytics_store.rs:342-390 | the exported authentication metrics are valid if and only if every outcome was timed, within a day on average, and counts are in bounds |
| Projector.ExportValidExactly | src/store/analytics_store.rs:342-443 | an exported closed bucket is valid if and only if its events fit: timed outcomes and deliveries, bounded counts, a registration funnel that narrows |
| Exports.ExportTellsTheEvents | src/store/analytics_store.rs:342-443 | the exported record of a bucket tells of exactly its events, every field of every family; service and webhook families are there if and only if such an event was |
| Exports.ExportNamesTheWindow | src/store/analytics_store.rs:355-366 | its header has the window in milliseconds, the realm, the revision and the least and greatest sequence that counted |
| Projector.WindowHoldsTheEvent | src/store/analytics_store.rs:778-780 | an event happens in its window, which is aligned |
| Projector.SubjectsAreShown | src/store/analytics_store.rs:233-250 | the active accounts are exactly those that some event shows |
| Projector.TimedExactly | src/store/analytics_store.rs:255-277 | there are as many latencies as outcomes if and only if every outcome event carries one |
| Projector.StraddlingRegistration | src/store/analytics_store.rs:152-171 | a closed window whose registrations do not narrow from stage to stage cannot be exported, whatever else happened in it |
| Windows.TouchHolds | src/store/analytics_store.rs:528-546 | applying a batch to stored buckets, window by window, keeps each bucket standing for exactly the events of its window |
| Projection.AppliedIs | src/store/analytics_store.rs:536-545 | a late contribution to a closed bucket raises its revision, and nothing else does |
| Projection.ApplyBatch | src/store/analytics_store.rs:526-546 | the loop over a batch, loading each window once |
| Projection.AddCandidates | src/store/analytics_store.rs:548-565 | the windows looked at for closing: every stored one after the closure cursor, up to the latest closable and at most ten thousand |
| Projection.CloseBuckets | src/store/analytics_store.rs:566-574 | exactly the buckets whose window and grace have passed are closed |
| Projection.ClosedExactly | src/store/analytics_store.rs:566-574 | a bucket is closed once its five minutes and two minutes of grace have passed |
| Projection.ClosableExactly | src/store/analytics_store.rs:505-508 | the latest closable window is the last one of which that holds |
| Projection.Validate | src/store/analytics_store.rs:600-617 | succeeds if and only if every closed bucket not yet waiting in the outbox is exportable |
| Projection.Prepare | src/store/analytics_store.rs:526-617 | everything up to the commit: the buckets looked at and closed, the new closure cursor, and success if and only if no window blocks the run |
| Projection.MetricProjector.constructor | src/store/analytics_store.rs:494-499 | nothing projected yet |
| Projection.MetricProjector.Project | src/store/analytics_store.rs:484-661 | a run commits buckets, cursor and closure together or changes nothing, advances over exactly the next events, and succeeds if and only if it can read them and no window blocks it |
| Projection.RunKeeps | src/store/analytics_store.rs:484-661 | every run keeps each bucket counting exactly the projected events of its window |
| Projection.RunAdvances | src/store/analytics_store.rs:484-500 | a run that succeeds has read on to the end or to its limit, of at least one and at most ten thousand events |
| ProjectionRuns.ProjectionIsTheLog | src/store/analytics_store.rs:484-661 | after every sequence of runs over a growing log, failed or not and however cut into batches, there is a bucket for exactly the windows of the log between the first run's start and the cursor, and it counts exactly the events of its window |
| ProjectionRuns.RunSucceedsExactly | src/store/analytics_store.rs:600-617 | a run with something to do succeeds if and only if the events of every closed window it looks at and has not exported fit |
| ProjectionRuns.StraddledForever | src/store/analytics_store.rs:484-661 | while a run would close a window whose registrations do not narrow, stored before or not, every run fails and leaves the projector where it was |
| ProjectionRuns.NeverGetsPast | src/store/analytics_store.rs:548-617 | over every sequence of runs at any times over a growing log with such a window, read by the time it is due, the closure cursor stays before the window and no run that could close it succeeds |
| ProjectionRuns.CompletionHampers | src/store/analytics_store.rs:152-171 | a window with a completed registration and no returned response is such a window, whatever else happens in it |
| ProjectionRuns.StraddlingStopsTheProjector | src/store/analytics_store.rs:484-661 | the events of one registration across a boundary, with its session, are stored by a run one second later; every run once the window is due then fails and changes nothing, whatever is appended short of another returned response in that window |
| Projection.StaysBlocked | src/store/analytics_store.rs:600-617 | a run that fails fails again at any later time, whatever is appended outside the blocking window |
| Projection.BatchGrows | src/store/analytics_store.rs:498-500 | a later run reads what this one read and then only later events |
| Projection.ExportableExactly | src/store/analytics_store.rs:600-617 | a bucket does not block a run if and only if it need not be exported or its events fit |
| Histogram.Observe | src/store/analytics_store.rs:255-277 | recording a latency in place turns the histogram of some latencies into that of one more |
| Histogram.MergeIsUnion | src/analytics.rs:1006-1034 | adding histograms column by column is the histogram of all the latencies |
| Histogram.QuantileIsThePercentilesEdge | src/analytics.rs:1368-1388 | the quantile bound is the bucket edge of the nearest-rank percentile, or none when empty or beyond the last edge |
| Histogram.EdgeIsUnique | src/analytics.rs:1368-1388 | there is only one such edge |
| Histogram.HistogramAggregate.constructor | src/metrics_rpc.rs:382-386 | an empty aggregate holds no latencies |
| Histogram.HistogramAggregate.AddBucket | src/metrics_rpc.rs:389-402 | adding a bucket's histogram adds its latencies |
| Histogram.LocalP95Agrees | src/metrics_rpc.rs:404-413 | the realm's percentile is the same edge as the fleet's |
| Histogram.WebhookP95 | src/metrics_rpc.rs:486-498 | the webhook percentile is the nearest-rank one |
| Buckets.ValidateHistogram | src/analytics.rs:1189-1237 | accepts exactly the valid histograms, and never answers with an overflow |
| Buckets.ValidateFlows | src/analytics.rs:1088-1140 | accepts exactly distinct, valid flows that add up to the totals |
| Buckets.ValidateFailures | src/analytics.rs:1142-1173 | accepts exactly distinct, valid classes that add up to failures and denials |
| Buckets.ValidateAuthentication | src/analytics.rs:1061-1175 | accepts exactly the valid authentication metrics |
| Buckets.RequireSum | src/analytics.rs:1352-1366 | the checked sum of the parts overflows if and only if their true sum leaves 64 bits, and otherwise equals the total or is refused |
| Buckets.RealmIdsAre | src/analytics.rs:1275-1285 | a realm identifier is one to sixty-four letters, digits, hyphens and underscores |
| Buckets.ValidatePlatformFamilies | src/analytics.rs:398-489 | accepts exactly valid webhook, platform and health metrics |
| Buckets.ValidateBucket | src/analytics.rs:256-491 | accepts exactly the valid buckets, and never answers with an overflow although every sum inside is checked |
| Aggregate.AggregateAuthentication | src/analytics.rs:979-1049 | succeeds if and only if every bucket is valid and every field total fits 64 bits, and then gives the totals |
| Aggregate.OrderDoesNotMatter | src/analytics.rs:979-1049 | the aggregate does not depend on the order of the buckets |
| Aggregate.GroupingDoesNotMatter | src/analytics.rs:979-1049 | aggregating parts and merging is aggregating the whole |
| Aggregate.OutcomesAddUp | src/analytics.rs:979-1049 | attempts are successes, failures and denials, and are the latency count |
| Aggregate.CumulativeStaysMonotone | src/analytics.rs:1006-1034 | aggregated cumulative counts never decrease and end at the latency count |
| Aggregate.FewBucketsNeverOverflow | src/analytics.rs:1390-1393 | no total of 213 or fewer valid buckets overflows |
| Aggregate.OneMoreCanOverflow | src/analytics.rs:1390-1393 | 214 can |
| Aggregate.ReportedP95 | src/analytics.rs:1035-1049 | end to end, the reported bound is the bucket edge of the 95th percentile of all raw latencies |
| WideRows.FillFailures | src/analytics_store.rs:80-97 | overwriting the cell of each class loses nothing on valid buckets |
| WideRows.FillLatency | src/analytics_store.rs:70-79 | the latency cells are the histogram |
| WideRows.FromBucket | src/analytics_store.rs:59-165 | the wide row of a valid bucket |
| WideRows.CellsAreTotals | src/analytics_store.rs:59-98 | summing a column of wide rows gives the field total of the aggregate |
| WideRows.DecodedRowIsTheAggregate | src/analytics_store.rs:747-795 | decoding column sums gives the counters, latency and cumulative counts of the aggregate |
| WideRows.DecodedFailuresAreTheBreakdown | src/analytics_store.rs:773-794 | decoded class counts are what the failure breakdown counts for each class |
| WideRows.DecodedRowIsValidExactly | src/analytics_store.rs:732-894 | a decoded row is a valid bucket if and only if the step is five minutes and the window had no attempts, webhook or platform metrics |
| WideRows.AbsentIsNotRead | src/analytics_store.rs:747-857 | whatever the cells of an absent family hold, even sums that fit no integer, the row decodes to the same |
| Families.RowHoldsTheNumbers | src/analytics_store.rs:100-165 | each registration, session, token, service and webhook number of a bucket is in its cell |
| Families.RowHoldsTheFamilies | src/analytics_store.rs:59-165 | each presence cell says whether the bucket has the family, platform and health among them |
| Families.DecodedNumbersAreTotals | src/analytics_store.rs:798-857 | decoding column sums gives, for every one of those numbers, its sum over the buckets |
| Families.DecodedFamiliesArePresent | src/analytics_store.rs:747-894 | a decoded record has a family if and only if some bucket had it |
| Families.DecodedProfile | src/analytics_store.rs:779-785 | the latency profile is kept if the schema names it, and is the interactive one otherwise |
| Families.DecodedWindow | src/analytics_store.rs:858-875 | a decoded record is of the window and width of the query, and of no one realm or stretch of events |
| Families.MetricsCountTheNumbers | src/analytics_rpc.rs:845-938 | each family metric counts the number it is named for |
| Families.RollupsCountLikeTheirBuckets | src/analytics_rpc.rs:845-938 | whatever metric is counted, a rollup counts what the buckets it was made of count |
| Rollups.MaterializedFold | src/analytics_store.rs:676-682 | aggregating materialized rows aggregates the canonical ones: sums of sums, maxima of maxima |
| Rollups.MaterializedPresence | src/analytics_store.rs:676-682 | presence counts differ, but not whether they are positive |
| Rollups.SplitIsTheDirectQuery | src/analytics_store.rs:480-556 | reading finalized windows from the materialized table and the current one from the canonical table gives, group for group, one direct query |
| Rollups.AlikeDecodesTheSame | src/analytics_store.rs:747-857 | groups that differ only in presence counts decode to the same record |
| Rollups.BoundaryIsAligned | src/analytics_store.rs:966-968 | the boundary between the two reads is a window start, that of the window it is now |
| Rollups.ShownExactly | src/analytics_store.rs:559-615 | a row is in a group of an answer if and only if it meets every filter and has that organization and window |
| Rollups.ForeignRowsDoNotShow | src/analytics_store.rs:559-615 | rows of others change no number of an answer |
| Rollups.BinIsTheWindow | src/analytics_store.rs:559-615 | a row's window is aligned and holds its time |
| Rollups.QueryRollups | src/analytics_store.rs:469-557 | the combined read returns exactly the groups of both parts in window order, or refuses more than the bound |
| Rollups.CompleteExactlyUnderTheLimit | src/analytics_store.rs:551-556 | nothing is dropped by the row limit if and only if the whole answer is within it |
| Rollups.RollupRecordIsValidExactly | src/analytics_rpc.rs:824-826 | which decoded rollups survive the validator they are passed through |
| Series.RangeIsTheSmallestCover | src/analytics_rpc.rs:734-774 | the effective range is the smallest step-aligned range that covers the request |
| Series.RangeIsGivenExactly | src/analytics_rpc.rs:734-774 | which ranges are answered, at which granularity and step, and that an unspecified one has at most 2 017 points |
| Series.Group | src/analytics_rpc.rs:364-373 | each point has exactly the records of its window, in order |
| Series.ThoseExactly | src/analytics_rpc.rs:364-373 | a record belongs to a point if and only if it starts in the point's window |
| Series.PointsAddUp | src/analytics_rpc.rs:364-377 | whatever is added up, the points together have what the records have |
| Series.FamilySum | src/analytics_rpc.rs:931-938 | the checked sum, or a failure exactly when it leaves 64 bits |
| Series.MetricPoint | src/analytics_rpc.rs:845-929 | when a point can be given, and its numerator, denominator, availability and percentile bound |
| Series.GetOverview | src/analytics_rpc.rs:776-843 | when an overview can be given, and its numbers |
| Series.QuerySeries | src/analytics_rpc.rs:348-389 | one point per window with a record, ascending; the series fails exactly when a point does |
| Series.SeriesAgreesWithOverview | src/analytics_rpc.rs:776-938 | whenever the overview succeeds every series does, and its numerators add up to the overview's number |
| Series.Grid | src/metrics_rpc.rs:164-169 | the realm's grid has each window of the query exactly once |
| Series.InRangeIsOnTheGrid | src/metrics_rpc.rs:170-198 | buckets and deliveries of the range add no window to the grid |
| Breakdown.AddFailures | src/analytics_rpc.rs:455-460 | one bucket's classes are added, or the call fails exactly when the total leaves 64 bits |
| Breakdown.FailureBreakdown | src/analytics_rpc.rs:441-462 | every class count is that class's total, and the total is that of all classes |
| Breakdown.BreakdownIsComplete | src/analytics_rpc.rs:452-480 | over valid buckets the breakdown accounts for exactly the failures and denials of the aggregate, under named classes only |
| Coverage.LatestReports | src/analytics_rpc.rs:967-975 | the latest window of each connection that reported the family |
| Coverage.StandsExactly | src/analytics_rpc.rs:982-1010 | each connection counts as exactly one of disabled, unsupported, reporting and stale |
| Coverage.CoverageFamily | src/analytics_rpc.rs:960-1026 | the counts are those of the standings, they add up to the connections, and the last window is the earliest of the reporting ones |
| Coverage.EarliestIsLeast | src/analytics_rpc.rs:1018-1021 | that window belongs to a reporting connection and none is earlier |
| Coverage.CoverageIsValidExactly | src/analytics.rs:575-626 | the contract accepts computed coverage if and only if some realm is stale or none is disabled or unsupported |
| Coverage.DisabledRealmIsRefused | src/analytics_rpc.rs:1023 | one disabled realm is enough to be refused |
| Parquet.BucketRoundTrip | src/analytics.rs:741-840 | every valid bucket survives the way to a row and back |
| Parquet.RowRoundTrip | src/analytics.rs:842-974 | every accepted row is reproduced exactly, because a number the schema does not name never passes |
| Parquet.CanonicalRow | src/analytics.rs:741-840 | a row is made exactly of valid buckets, and leads back to the bucket |
| Parquet.BucketFromRow | src/analytics.rs:842-974 | a bucket is made exactly of rows that decode to a valid one, and leads back to the row |
| Parquet.AcceptedRowsAreRowsOfBuckets | src/analytics.rs:741-974 | accepted rows and valid buckets correspond one to one |
| Archive.SignedVerifies | src/analytics_archive.rs:124-146 | a manifest can be signed if and only if it is valid, and then verifies, because the payload ignores the signature |
| Archive.TamperingShows | src/analytics_archive.rs:124-146 | under the signature of a manifest, a manifest verifies if and only if it is that one, field by field |
| Archive.ForeignSignatureIsRefused | src/analytics_archive.rs:124-146 | a signature over anything else than a manifest payload verifies no manifest |
| Archive.StartsAreTight | src/analytics_archive.rs:72-81 | the manifest's window bounds hold for every row and are those of some row |
| Archive.SequencesAreTight | src/analytics_archive.rs:82-93 | so are its sequence bounds, over the rows with events |
| Archive.UnsignedIsValid | src/analytics.rs:628-705 | the bounds taken from valid rows pass the manifest's own checks |
| Archive.ManifestAgreesWithBuckets | src/analytics.rs:628-705 | of realm, assignment, windows and sequences a manifest may say exactly what the bucket contract lets a bucket say of itself |
| Archive.EncodeRows | src/analytics_archive.rs:432-443 | rows are written exactly of valid buckets |
| Archive.Build | src/analytics_archive.rs:59-122 | an archive is built if and only if it can be; it verifies, its rows match its manifest, which names the key, object and id it was given, and its object reads back |
| Archive.ValidateBatch | src/analytics.rs:206-254 | accepts exactly the valid batches |
| Archive.ChunksPartition | src/analytics_archive.rs:354-362 | the chunks are the rows in order, none empty or longer than 288 |
| Archive.ImportChunks | src/analytics_archive.rs:354-381 | every row is imported if and only if every chunk is valid and accepted |
| Archive.DecodeRows | src/analytics_archive.rs:343-347 | rows become buckets exactly when all of them are valid |
| Archive.Import | src/analytics_archive.rs:316-388 | an import succeeds if and only if manifest, object, assignment, policy, rows and registration allow it and, unless the manifest is complete already, every chunk is accepted; then every row is imported, or none again |
| Archive.ImportedIsDescribed | src/analytics_archive.rs:391-430 | what is imported is what the manifest describes: as many rows, each of its realm, assignment, windows and sequences, and each bound is that of some row |
| Archive.TamperedIsNotImported | src/analytics_archive.rs:316-388 | nothing is imported under a manifest changed after it was signed |
| Archive.ForeignAssignmentIsNotImported | src/analytics_archive.rs:316-388 | nothing is imported for another realm or another assignment of the realm |
| Archive.SwappedObjectIsNotImported | src/analytics_archive.rs:148-163 | nothing is imported from bytes with another digest than the archived ones |
| Archive.BuiltImportsExactly | src/analytics_archive.rs:316-388 | importing what was built succeeds if and only if the policy permits it and the manifest is complete already, or no chunk repeats a window or is too long on the wire and all are accepted |
| Archive.TwoRevisionsCannotBeImported | src/analytics.rs:234-252 | two revisions of one window are built into an archive whenever their rows can be written, and once registered that archive is imported under no policy, ledger or completion |
| Base64Url.DecodesExactly | src/organization_rpc.rs:346-373 | a text decodes to some bytes if and only if it is their one encoding |
| Base64Url.LengthOfEncode | src/organization_rpc.rs:358-360 | the length of an encoding |
| Paging.TokensExactly | src/organization_rpc.rs:346-373 | both services take a token for a cursor if and only if it is the encoding of an identifier they can issue |
| Paging.SliceExactly | src/fleet_rpc.rs:1909-1924 | a page holds, in order, the records after the cursor up to its last one, and all of them when it is the last |
| Paging.PagesExactly | src/organization_rpc.rs:326-373 | a page is refused if and only if more than a hundred items are asked for or the token could not have been issued, and has at most the items asked for, twenty-five by default |
| Paging.WalkIsComplete | src/organization_rpc.rs:160-171 | although records come and go between pages, nothing is shown twice and a record that was there throughout is shown |
| Paging.WalkOfStillRecords | src/organization_rpc.rs:160-171 | over records that stand still the walk ends and shows the sorted records exactly once |
| Paging.TokensCarryTheWalk | src/fleet_rpc.rs:2711-2744 | following the tokens is that walk, and no page is refused |

## Left out

- SHA-256, AES-GCM, P-256, Parquet encoding and RFC 3339 are not modelled: digests are taken as injective where a receipt
  stores one, and as any function where only collisions could matter; a signature
  verifies what it signed and, in the results about tampering, nothing else, where the payload encoding is also taken as
  injective; the file format reads back what it wrote.
- The SQL text and GreptimeDB are not modelled: tables are sequences of rows, materialized tables are taken as flushed, and
  sums in SQL as unbounded until they are decoded.
- Clocks: the local limiter reads a clock that does not run backwards between calls that hold the lock; replicas and
  datastore share one clock; wall clocks are short of the end of 64-bit milliseconds.
- SharedLimit: counters do not reach the end of Redis integers.
- RemoteMutation: field validation, error codes and the operations themselves are not modelled, only that they take effect,
  fail, or do both.
- Rotation: one connection, whose two sides share one clock; revocation, pairing, grant expiry and response consistency checks are refusals that change
  nothing here, and credentials are drawn new each time.
- EventStream.StreamIsTheLog: takes the cursor as not ahead of the log, which subscribing checks, and event times as
  writable in RFC 3339.
- AuthTelemetry.TokensAreConserved: holds while fewer than 2^64 items have been accepted, before the count saturates.
- Projection.MetricProjector.Project: the outbox is the set of waiting keys; its trimming to 288 records, acknowledgement
  and the encoded size of a single bucket are not modelled.
- Projector: event names and the JSON of event data are constructors and fields.
- Archive.Import: policy lookup, manifest registration and completion, the acceptance ledger and the write to the analytics
  store are not modelled beyond their answers; the presigned download is not part of it.
- Archive: checks of object keys, key ids and UUID texts are left abstract.
- Paging: identifiers are unique, and for the organization service not nil.
- Series.GetOverview: makes its five sums one after the other instead of in one pass, with the same result.
- Ratios and other floating-point values are kept as numerator and denominator.
- HTTP and RPC plumbing, authorization tables, configuration, the console, WebAuthn ceremonies, sessions, tokens and backups
  are not part of this model.
