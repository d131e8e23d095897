# Codewave-Timer: a verified model

Codewave-Timer fires cron jobs by HTTP callback.  A migrator expands every enabled job over
the coming hour and writes the firings to a MySQL table and to Redis sorted sets, one set per
minute and bucket.  Nodes poll every second; for each bucket they try to lock the slice of the
current and of the previous minute.  A winner scans the slice window by window for a minute,
submits what it finds, and, if every window succeeded, extends the lock as an acknowledgement.
No slice lock is ever released: exclusion, retry after a crash and "at most n times" all
follow from the arithmetic of leases.  This project models that protocol and its surroundings
and proves what it guarantees, and exactly when.

## Structure

| file | content |
|---|---|
| `Redis.dfy` | the lock store: SET NX, the two Lua scripts, time; what a client can conclude from its own answers |
| `DistLock.dfy`, `WatchDog.dfy` | the lock object (in nanoseconds) over a faulty network with other clients at work; the watchdog against the clock |
| `SafeChan.dfy`, `TriggerWork.dfy`, `Windows.dfy` | one run of the trigger: ticker loop, goroutines, error channel, ack; the windows that tile a minute |
| `SliceProtocol.dfy`, `SliceDelivery.dfy`, `SliceRuns.dfy` | one slice under any number of nodes, crashes, lost messages and failing lookups (in milliseconds): invariants of every run, what is submitted and when, and runs which show that the conditions are exact |
| `SliceEffects.dfy` | what each kind of step changes and leaves alone |
| `SliceLatency.dfy` | how late a firing can be, exactly |
| `SliceFleet.dfy` | the slices of all minutes and buckets together |
| `Recovery.dfy`, `SliceRecovery.dfy`, `SliceSchedules.dfy` | one node and one outage: which outages every slice survives, first for its lock alone, then for what the slice protocol submits, with steps for every schedule |
| `EndToEnd.dfy` | from a timer's expression to the submission of its firings |
| `Keys.dfy`, `TaskIndex.dfy`, `TriggerBatch.dfy` | keys and their parsing, the table, the sorted sets, the fallback, and one batch from lookup to submission |
| `Cron.dfy`, `Migration.dfy` | expanding an expression, the double write, and the rhythm of migrations |
| `Jobs.dfy`, `Scheduler.dfy` | enable, disable, execute and migrate in any order; one poll and one attempt at a slice |
| `Clock.dfy`, `Wrappers.dfy` | minutes in milliseconds; optional values |

Code that updates state is written as classes and methods (`Server`, `RedisLock`, `SafeChan`,
`Trigger`, `TaskTable`, `TaskCache`, `Migrator`, `Service`), proved against functions and
predicates on values; the theorems are about those.  `Trigger` refines the state machine
`TriggerWork.Do`, which `SliceProtocol.Do` contains as the state of each run, and
`TriggerBatch.LookupIsAnswer` shows that the lookup code gives answers the protocol step
`Batch` allows for.  In both state machines a run is any sequence of steps; a step that is not
enabled changes nothing, so a theorem about every sequence is one about every reachable state.

## Assumptions

- There is one clock.  A lease lives strictly before its expiry.  Redis loses no keys.
- Each lock object draws its own token and has one user.
- The pair (timer id, run time) is the table's unique key; the schema is not part of the sources.
- Time zones have a fixed offset of whole minutes.  The calendar label of a minute
  (`2006-01-02 15:04`) is replaced by the decimal number of the minute; all that is used of it is
  that it has no `_` and reads back.
- A cron expression is the strictly ascending sequence of its firings, and `Next` a search in it.
- The environment (lost requests and answers, failing queries, pool refusals, callbacks, delays)
  is a parameter or a nondeterministic choice, unrestricted unless a theorem names its restriction.
- `SliceProtocol` assumes of the tickers only that a tick is never early, and that a lock request
  arrives within `delay` of its poll; `Recovery`, `SliceRecovery` and `SliceSchedules`
  assume in addition regular polls, one node and one outage.

## Where code and documentation differ

- The repository's `README.md` promises on line 9 that a restart within a minute loses nothing.  As shipped
  that holds, for minute-long runs, exactly for outages shorter than 58 seconds, and for runs longer than
  the 70s lease for none (`Recovery.ShippedConfigurationSurvives`).
- On line 5 it promises less than a second of latency.  No firing on a full second is ever submitted from the
  cache that soon (`SliceLatency.NeverWithinASecond`); the code gives one gap (as shipped 1s) plus the time the
  lock came into the minute plus scheduling lag, and no less (`SliceLatency.LatencyIff`).
- An ack implies success only for gaps of at most 60s: beyond that the error channel has capacity 0
  and drops every error (`TriggerWork.AckIsTrustworthyIff`).
- "Once acked, never taken again" needs run + successExpireSeconds to reach the last attempt
  (`SliceRuns.FinishedIsFinalIff`; as shipped 60 + 130 against 120).
- `NextsBetween` also returns the first firing at or after `end`; migration depends on it only in
  that the horizon is never cut short.
- Batches are begun every 30 minutes whatever `migrateStepMinutes` is (`internal/svc/servicecontext.go` line 90), although that
  setting is documented as the range of each migration: below 15 minutes firings are missed even with one timer
  (`Migration.ShippedBatchSize`).
- The cache range is [start, end - 1], the fallback's is [start, end] and skips what has run.
- A negative timer id does not survive the member round trip, and unless the bucket number divides it
  no scan ever returns its firings (`Keys.MemberRoundTripIff`, `TaskIndex.ScansPartitionTheMinute`).
- `DelayExpire` reports no error when the network fails, so its nil is no proof of an extended lease.
- Enabling is not all-or-nothing: the status update and the cache write escape the transaction.
- The executor does not look at a row's status, so a retried slice calls back again and can turn
  Successed into Failed (`Jobs.RetriesCanFlipOutcomes`); exactly when an outcome is final says `Jobs.OutcomeIsFinalIff`.
- The watchdog's step is a third of the expiry; the comment in `pkg/lock/redis.go` says a quarter.

## Model

Source paths are relative to the root of the repository.

| member | source | states |
|---|---|---|
| `SliceProtocol.TakenAtMost` | codewaveTimer/internal/biz/scheduler.go:77-116 | In every run of any number of nodes with crashes, errors and lost messages, a slice is locked, and a run of it started, at most ceil(attempt span / spacing) times; the spacing is the lease, or run + success lease if shorter. Any positive gap and lease will do. |
| `SliceRuns.GrantBoundIsReached` | codewaveTimer/internal/biz/scheduler.go:77-116 | That bound is the least one: for every configuration some run reaches it. |
| `SliceDelivery.SubmittedAtMost` | codewaveTimer/internal/biz/scheduler.go:77-116 | At most n for one slice: in every run it submits a firing from the cache at most that many times (twice as shipped), and at most twice as often when the fallback, whose closed ranges overlap at their edges, answers too. |
| `SliceFleet.SubmittedOverallAtMost` | codewaveTimer/internal/biz/trigger.go:53-140 | At most 2n over the slices of all minutes and all buckets, whatever happens to each, for gaps up to 60s and non-negative timer ids: any list of distinct slices submits a firing at most 2n times in total, from both stores. |
| `SliceFleet.OthersSubmitNothing` | codewaveTimer/internal/biz/trigger.go:53-140 | Only the slices of the firing's bucket in its own minute and in the one before submit it at all. |
| `SliceDelivery.NeighboursAtMost` | codewaveTimer/internal/biz/trigger.go:53-140 | Those two, the earlier of which reads past its minute's end, submit it at most 2n times together. |
| `SliceDelivery.SubmitsOwnBucket` | codewaveTimer/internal/biz/trigger.go:130-137 | From either store a slice submits non-negative timers of its own bucket only. |
| `SliceDelivery.EarlierSliceAtMost` | codewaveTimer/internal/biz/trigger.go:53-140 | A firing the previous minute's slice of its bucket submits is submitted at most n times by each of the two. |
| `SliceDelivery.SubmitsOwnOrNext` | codewaveTimer/internal/biz/trigger.go:53-140 | For gaps up to 60s a slice submits firings of its own minute and the next only. |
| `SliceRuns.SubmissionBoundIsReached` | codewaveTimer/internal/biz/scheduler.go:77-116 | The bound n is the least one: for every configuration and firing some run submits it from the cache exactly n times. |
| `SliceRuns.EveryTurnSubmits` | codewaveTimer/internal/biz/scheduler.go:95-116 | Nodes that take the slice in turn and scan their windows, late or on time, each submit the firing. |
| `SliceProtocol.FinishedStaysFinished` | codewaveTimer/internal/biz/scheduler.go:107-115 | If run + success lease reaches the last attempt, then once an ack has found its own token the slice is never locked again, whatever steps follow. |
| `SliceRuns.FinishedIsFinalIff` | codewaveTimer/internal/biz/scheduler.go:107-115 | Exactly the configurations in which a finished slice is final: the lease is too short to finish at all, or run + success lease covers the attempts. |
| `SliceRuns.FinishPossibleIff` | codewaveTimer/internal/biz/scheduler.go:96-115 | Some run finishes a slice if and only if the lock lease outlasts the windows. |
| `SliceRuns.TakenAgain` | codewaveTimer/internal/biz/scheduler.go:107-115 | For every other configuration, a concrete run in which a finished slice is locked again. |
| `SliceRuns.FinishedStoryFinishes` | codewaveTimer/internal/biz/trigger.go:39-86 | An undisturbed node finishes, whatever the cache holds: locked at the start of the minute, it acks one run later and leaves exactly the success lease behind. |
| `SliceRuns.ShortLeaseNeverFinishes` | codewaveTimer/pkg/lock/redis.go:384-394 | If the lease is no longer than a run, no ack in any run ever finds its own token, and no lease is ever extended. |
| `SliceRuns.FaultFreeScans` | codewaveTimer/internal/biz/trigger.go:55-74 | Over a cache with any contents, an undisturbed run scans every window in turn, each the same lag after lock time + (k+1) gaps, submits exactly what each window holds at its scan, and touches neither lock nor other runs. |
| `SliceRuns.AckExtends` | codewaveTimer/internal/biz/scheduler.go:107-115 | After a full undisturbed run over a cache with any contents the ack moves the expiry to now + success lease and finishes the slice. |
| `SliceRuns.TurnsTake` | codewaveTimer/internal/biz/scheduler.go:95-103 | Nodes that each ask the moment the key falls free are each granted it, one spacing apart. |
| `SliceProtocol.PollsForTwoMinutes` | codewaveTimer/internal/biz/scheduler.go:77-86 | A slice is attempted by exactly the polls of its own minute and of the next. |
| `SliceProtocol.TimingKept` | codewaveTimer/internal/biz/trigger.go:47-74 | Every step keeps each run's clock: the trigger invariant, and that window k is scanned no earlier than lock time + (k+1) gaps, once at most. |
| `SliceProtocol.TimingAlways` | codewaveTimer/internal/biz/trigger.go:47-74 | The same in every reachable state. |
| `SliceProtocol.LockingKept` | codewaveTimer/internal/biz/scheduler.go:95-116 | Every step keeps the grants at least one spacing apart and the last grant guarding the key for a spacing. |
| `SliceProtocol.LockingAlways` | codewaveTimer/internal/biz/scheduler.go:95-116 | The same in every reachable state. |
| `SliceProtocol.ConcludesLate` | codewaveTimer/internal/biz/trigger.go:76-83 | A run cannot ack before all its windows' time has passed since its lock. |
| `SliceProtocol.SealedKept` | codewaveTimer/internal/biz/scheduler.go:107-115 | No step takes a finished slice or ends its guard before the attempts end. |
| `SliceProtocol.SealedAlways` | codewaveTimer/internal/biz/scheduler.go:107-115 | The same in every reachable state. |
| `SliceDelivery.NeverEarly` | codewaveTimer/internal/biz/trigger.go:55-74 | In every run, whichever store answered, nothing is submitted before its run time; a window's scan is never before lock time + (k+1) gaps. |
| `SliceDelivery.AckedRunSubmitsAll` | codewaveTimer/internal/biz/trigger.go:39-86 | Late inserts are seen: an acked run whose lookups the cache answered has submitted every firing of the minute cached by its own run time, from its own window. |
| `SliceDelivery.LatencyBound` | codewaveTimer/internal/biz/trigger.go:47-74 | What a run submits whose scans are at most `slack` late is late by at most (lock time - minute) + one gap + slack. |
| `SliceDelivery.PunctualRunSubmits` | codewaveTimer/internal/biz/trigger.go:47-74 | Such a run that acks, its lookups answered by the cache, has submitted every firing cached in time within that bound. |
| `SliceLatency.LatencyIff` | codewaveTimer/internal/biz/trigger.go:47-74 | The latency, exactly: everything submitted by runs locked a into the minute and at most `slack` late is within a bound if and only if a + gap + slack is. |
| `SliceLatency.LatencyIsReached` | codewaveTimer/internal/biz/trigger.go:47-74 | For every such a and slack, a run that submits a firing from the cache exactly a + gap + slack late. |
| `SliceLatency.NeverWithinASecond` | README.md:5 | Whatever the gap, a firing on a full second is never submitted from the cache less than a second late, in any run. |
| `SliceDelivery.DeliveryAlways` | codewaveTimer/internal/biz/trigger.go:88-115 | In every reachable state each submission belongs to a recorded scan, no run submits a firing twice, save once inside a window and once at the edge of another, and every successful cache scan is complete. |
| `SliceDelivery.BatchKeepsDelivery` | codewaveTimer/internal/biz/trigger.go:88-115 | A batch step, whole, partial or failed, keeps that invariant; what it submits says BatchSubmits. |
| `SliceEffects.BatchSubmits` | codewaveTimer/internal/biz/trigger.go:104-114 | Whatever a batch submitted counts, for every error or none: each of its firings once, in order, with the time and the store that answered; every firing's count grows by exactly one if it is among them and not at all otherwise. |
| `SliceEffects.OnlyBatchesSubmit` | codewaveTimer/internal/biz/trigger.go:104-112 | No other kind of step changes what is submitted. |
| `SliceEffects.AttemptStarts` | codewaveTimer/internal/biz/scheduler.go:95-113 | A lock request that is refused changes nothing but that it was made; a granted one takes the lease, counts as a grant, and starts a run exactly if its answer arrives. |
| `SliceEffects.ConcludeAcks` | codewaveTimer/internal/biz/trigger.go:76-83 | The ack moves the expiry to now + success lease exactly for a run without queued errors whose request arrives and whose token still holds the lock; otherwise the lock is left alone. |
| `SliceEffects.OthersLeaveTheLock` | codewaveTimer/internal/biz/scheduler.go:95-116 | No other step touches the lock. |
| `SliceEffects.StoreIsReached` | codewaveTimer/internal/biz/scheduler.go:95-116 | Every store the protocol reaches is reached by lock operations on the slice's key, none of them a delete. |
| `SliceEffects.DeadStaysDead` | codewaveTimer/internal/biz/scheduler.go:78 | A run that died in a crash scans, submits and acks nothing in any continuation. |
| `SliceEffects.InsertedOnce` | codewaveTimer/internal/data/task_cache_redis.go:33-43 | The cache only grows; adding a firing again leaves its time of insertion. |
| `SliceDelivery.InsertKeepsDelivery` | codewaveTimer/internal/data/task_cache_redis.go:33-48 | So does a firing added to the cache at any moment. |
| `SliceDelivery.OneWindowEach` | codewaveTimer/internal/biz/trigger.go:64-73 | Of the closed ranges the fallback uses, a run time lies inside one at most and at the end of one at most. |
| `SliceDelivery.LateInsertIsUnscanned` | codewaveTimer/internal/biz/trigger.go:47-74 | The reason: a window is scanned only after all its run times have passed. |
| `Recovery.RecoveryIff` | codewaveTimer/internal/biz/scheduler.go:56-116 | For every run length R and lease L: every slice gets a run that scans all its windows, however polls and crash are placed, if and only if 2P + R + D < 120s and 2P + L + M < 120s, with M = min(R-1, floor((R-1)/L) * (L+P)), in ms (period P, outage D). |
| `Recovery.RobustRecovers` | codewaveTimer/internal/biz/scheduler.go:78-89 | Those conditions suffice, for runs of any length: the previous minute's second chance saves the slice. |
| `Recovery.SlowRestartLoses` | codewaveTimer/internal/biz/scheduler.go:78-89 | A schedule that loses the slice when the first fails, for runs of any length. |
| `Recovery.UnluckyLeaseLoses` | codewaveTimer/internal/biz/scheduler.go:96-103 | A schedule that loses the slice when only the second fails: the slice is granted again and again to a node whose runs all die, and the last lease runs out just after a poll. |
| `Recovery.ShippedConfigurationSurvives` | codewaveTimer/etc/codewavetimer-api.yaml:29-33 | As shipped: exactly the outages with R <= 70s and R + D < 118s (for minute-long runs, outages shorter than 58s). |
| `Recovery.LongRunsNeedMore` | codewaveTimer/internal/biz/scheduler.go:56-116 | With P = 1s, R = 75s, L = 70s, D = 5s the simpler inequalities without M hold and a slice is lost. |
| `Recovery.RobustSurvives` | codewaveTimer/internal/biz/scheduler.go:56-116 | The reason, for any lock whose grants are a lease apart and cover every poll: one robust outage leaves a grant whose run it does not hit. |
| `Recovery.LostGrantsDrift` | codewaveTimer/pkg/lock/redis.go:182-195 | Grants whose runs one crash all hits lie within M of the first. |
| `Recovery.StretchFindsGrant` | codewaveTimer/internal/biz/scheduler.go:40-52 | Any stretch of uptime of one polling period inside the slice contains or meets a grant. |
| `SliceSchedules.SubmittedDespiteOutageIff` | codewaveTimer/internal/biz/scheduler.go:56-116 | On the slice protocol, for gaps up to 60s: with one outage and no other fault (polls ask on time and hear, the cache answers, every run scans in time until it stops within its length or dies in the crash), every firing cached in time is submitted at least once and at most n times, however crash and polls fall, if and only if the outage meets the condition of RecoveryIff. |
| `SliceRecovery.SubmittedOnce` | codewaveTimer/internal/biz/scheduler.go:56-116 | On the slice protocol itself, for gaps up to 60s: under every robust outage and no other fault, a firing cached in time is submitted from the cache at least once and at most n times. The crash is a step that kills every run; runs it misses stop within their length, which is no shorter than their windows. |
| `SliceSchedules.LostStory` | codewaveTimer/internal/biz/scheduler.go:56-116 | For every schedule that no run survives, protocol steps in which each run scans every window due before the crash, and a firing of the last window, cached from the start, is not submitted. |
| `SliceSchedules.ExperienceExists` | codewaveTimer/internal/biz/scheduler.go:56-116 | For every placing of crash and polls, over a cache with any contents, some steps are such an outage: every run scans on time and stops by its length, or dies in the crash. |
| `SliceSchedules.MomentKeepsHistory` | codewaveTimer/internal/biz/trigger.go:55-85 | One millisecond of such a story: the crash, the poll and whatever scans and acks are due keep every run on course. |
| `SliceSchedules.HitsMissTheLast` | codewaveTimer/internal/biz/trigger.go:55-74 | A run that dies within its length has not submitted a firing of its last window. |
| `SliceRecovery.SomeRunAcks` | codewaveTimer/internal/biz/scheduler.go:105-115 | Under a robust outage some run acks. |
| `EndToEnd.FiringIsSubmitted` | codewaveTimer/internal/biz/migrator.go:48-78 | From expression to submission: with rounds at most `gap` apart (gap < 2M) whose writes reach the cache within 2M - gap, every firing at least 2M - gap after the first round is submitted at least once and at most n times, despite one robust outage. |
| `SliceRecovery.PlainAlways` | codewaveTimer/internal/biz/scheduler.go:95-116 | Until the first ack, every grant has a run and leases run from the last grant, in every reachable state in which answers arrive. |
| `Recovery.GrantsAreSpaced` | codewaveTimer/pkg/lock/redis.go:182-195 | Two grants of a never-released lock are at least a lease apart. |
| `Recovery.PollFindsGrant` | codewaveTimer/internal/biz/scheduler.go:96-103 | A poll in time takes the lock or meets a grant less than a lease old. |
| `TriggerWork.AckIffAllSucceeded` | codewaveTimer/internal/biz/trigger.go:50-85 | For gaps up to 60s, under every interleaving: an acked run started all windows and all returned nil, a stopped run acked iff none failed, and a returned error is some window's error. |
| `TriggerWork.AckIsTrustworthyIff` | codewaveTimer/internal/biz/trigger.go:50-85 | Acks imply full success in every interleaving if and only if the gap is at most 60s. |
| `TriggerWork.FailedRunReturns` | codewaveTimer/internal/biz/trigger.go:55-69 | For gaps up to 60s: after a failure the next tick returns the error of the first window to fail and starts no window; without one it starts exactly the next. |
| `TriggerWork.FailureStopsStarts` | codewaveTimer/internal/biz/trigger.go:55-74 | For gaps up to 60s, in every run: once a window has failed no other window starts. |
| `TriggerWork.FirstFailureLeads` | codewaveTimer/internal/utils/channel.go:23-29 | For gaps up to 60s, the error that leads the channel, or was returned, is that of the first window to fail; an acked run has none. |
| `TriggerWork.LongGapAcksFailures` | codewaveTimer/internal/utils/channel.go:23-29 | For any longer gap, a run that acks although its window failed: the channel has no room and drops the error. |
| `TriggerWork.InvKept` | codewaveTimer/internal/biz/trigger.go:53-85 | Each tick, each end of a goroutine and the final look keep the invariant of a run, in particular that a failure leaves an error in the channel and that no window starts after the minute. |
| `TriggerWork.InvRun` | codewaveTimer/internal/biz/trigger.go:53-85 | The same after every sequence of steps. |
| `TriggerWork.StoppedRun` | codewaveTimer/internal/biz/trigger.go:76-85 | What a stopped run guarantees for any gap. |
| `TriggerWork.WindowsIsCeiling` | codewaveTimer/internal/biz/trigger.go:53-73 | The loop starts ceil(60 / g) windows. |
| `TriggerWork.Trigger.constructor` | codewaveTimer/internal/biz/trigger.go:47-54 | A run starts ticking with an open channel of capacity floor(60 / g). |
| `TriggerWork.Trigger.Work` | codewaveTimer/internal/biz/trigger.go:39-86 | A bad key fails before anything starts. Otherwise the state is one the state machine reaches; nil is returned exactly after an ack, an ack implies all windows (and success of all for g <= 60); for g <= 60 the error is that of the first window to fail, and no window started after a failure. Window k is asked for [k, k+1) gaps into the key's minute, under that key. |
| `TriggerWork.Trigger.OnTick` | codewaveTimer/internal/biz/trigger.go:55-74 | One turn of the loop: the oldest error in the channel, which for g <= 60 is there iff a window has failed, ends the run and no window starts; otherwise exactly the next one does. |
| `TriggerWork.Trigger.StartWindow` | codewaveTimer/internal/biz/trigger.go:63-73 | The next window's request is appended and the start time moves by one gap; the loop ends iff it has reached the minute's end. |
| `TriggerWork.Trigger.LastLook` | codewaveTimer/internal/biz/trigger.go:76-85 | After the wait the run has acked, or returns the oldest error in the channel. |
| `TriggerWork.Trigger.HandleBatch` | codewaveTimer/internal/biz/trigger.go:64-69 | The end of one goroutine records its outcome and puts its error in the channel; the others are untouched. |
| `TriggerWork.Trigger.Wait` | codewaveTimer/internal/biz/trigger.go:76 | After the wait no goroutine of the run is left, however they interleave. |
| `SafeChannel.SafeChan.Put` | codewaveTimer/internal/utils/channel.go:23-29 | Appends at the end when there is room and otherwise drops, never blocking; after the close nothing is stored, and it may panic. |
| `SafeChannel.SafeChan.Poll` | codewaveTimer/internal/biz/trigger.go:56-61 | A non-blocking read takes the oldest element. |
| `Windows.WindowsAreDisjoint` | codewaveTimer/internal/biz/trigger.go:64-73 | No time lies in two windows. |
| `Windows.WindowsCoverTheMinute` | codewaveTimer/internal/biz/trigger.go:53-73 | Every time of the minute lies in one of the ceil(60 / g) windows, also when g does not divide 60. |
| `Redis.MutualExclusion` | codewaveTimer/pkg/lock/redis.go:182-195 | Over every run of the store, no two clients can both conclude from their own answers and the clock that they hold a key. |
| `Redis.ViewIsExact` | codewaveTimer/pkg/lock/redis.go:182-248 | A client's own answers determine exactly whether it holds the key and until when, whatever others do. |
| `Redis.OthersCannotTouch` | codewaveTimer/pkg/lock/redis.go:371-394 | Other tokens' late acks, late renewals and deferred unlocks neither delete, extend nor shorten a live lease. |
| `Redis.Server.SetIfAbsent` | codewaveTimer/pkg/lock/redis.go:184 | SET NX takes effect and is answered as the store's step function says. |
| `Redis.Server.CheckAndExpire` | codewaveTimer/pkg/lock/redis.go:384-394 | The expire script acts only for the owner of a live key. |
| `Redis.Server.CheckAndDelete` | codewaveTimer/pkg/lock/redis.go:372-381 | The delete script acts only for the owner of a live key. |
| `DistLock.LoserIsHarmless` | codewaveTimer/internal/biz/cron_job_biz.go:84-96 | A client none of whose SET NX was granted has every other request refused, its deferred unlock included. |
| `DistLock.Repair` | codewaveTimer/pkg/lock/redis.go:78-95 | Blocking without a limit waits 5s, and any other limit is kept; the watchdog runs iff asked for and the expiry is positive. |
| `DistLock.RedisLock.constructor` | codewaveTimer/pkg/lock/redis.go:101-114 | A lock has its key, token and repaired options, and no watchdog. |
| `DistLock.RedisLock.TryLock` | codewaveTimer/pkg/lock/redis.go:182-195 | One request; success iff it was granted and the answer arrived, taken-by-others iff refused and heard, else a transport error. |
| `DistLock.RedisLock.BlockingLock` | codewaveTimer/pkg/lock/redis.go:313-342 | Given how ticks, cancellations and requests fare: it asks at exactly the turns before the first that is cancelled, comes after W seconds, is granted or breaks; one request each, at most 20 W, none after a granted one; the outcome is that of the turn that ended it. |
| `DistLock.RedisLock.TakeTurn` | codewaveTimer/pkg/lock/redis.go:320-338 | One turn: it ends the wait if it is cancelled, late, granted or broken, and otherwise was one refused request. |
| `DistLock.TurnsInTime` | codewaveTimer/pkg/lock/redis.go:315-328 | At most 20 turns a second come before the limit. |
| `DistLock.RedisLock.Lock` | codewaveTimer/pkg/lock/redis.go:117-147 | One request first, whose answer decides without blocking and a transport error ends; with blocking a refusal is followed by turns as above, at most 20 W, honestly; a granted call starts the watchdog iff it wants one, and spins for ever iff an earlier one is still at work uncancelled. |
| `DistLock.RedisLock.WatchDog` | codewaveTimer/pkg/lock/redis.go:198-216 | Starts a dog, not cancelled, exactly in watchdog mode; it never returns iff an earlier dog is at work and nobody has cancelled it. |
| `DistLock.RedisLock.DelayExpire` | codewaveTimer/pkg/lock/redis.go:237-252 | One owner-checked renewal; an error only if the script itself said no, so a lost message reports success. |
| `DistLock.RedisLock.DogRound` | codewaveTimer/pkg/lock/redis.go:223-233 | A cancelled dog stops without a request; otherwise one renewal for the full expiry is sent. |
| `DistLock.RedisLock.Unlock` | codewaveTimer/pkg/lock/redis.go:345-365 | One owner-checked delete, its answer reported faithfully; the dog is cancelled on every path. |
| `WatchDog.WatchdogKeepsLease` | codewaveTimer/pkg/lock/redis.go:219-234 | With step E/3 and renewals less than E/3 late, the lease survives every run if and only if no two renewals in a row are lost. |
| `WatchDog.SafeRun` | codewaveTimer/pkg/lock/redis.go:219-234 | The lease invariant over every sequence of delays, renewals and foreign operations. |
| `WatchDog.TwoLossesLoseTheLease` | codewaveTimer/pkg/lock/redis.go:84-93 | If two in a row may be lost, a run in which the lease is gone. |
| `WatchDog.StoppedDogReleases` | codewaveTimer/pkg/lock/redis.go:345-365 | Once the dog has stopped, the key is held until E after the last renewal and not longer. |
| `Keys.MemberRoundTripIff` | codewaveTimer/internal/utils/timer.go:11-24 | Split after union returns every run time and exactly the ids in [0, 2^63); a negative id reads as the largest int64. |
| `Keys.MembersInjective` | codewaveTimer/internal/utils/timer.go:11-13 | Different (timer, time) pairs have different members, negative ids included. |
| `Keys.ParseFormatted` | codewaveTimer/internal/utils/timer.go:21-22 | Reading a formatted 64-bit number gives it back, clamped (or an error) beyond int64. |
| `Keys.SliceKeyRoundTrip` | codewaveTimer/internal/biz/trigger.go:142-157 | The trigger recovers from a slice's key the minute and bucket it was made from. |
| `Keys.SliceKeysInjective` | codewaveTimer/internal/utils/timer.go:34-48 | Lock keys, and message keys, are equal exactly for the same minute and bucket. |
| `Keys.EnableLocksAreOwn` | codewaveTimer/internal/utils/timer.go:50-52 | Each app has an enable lock of its own, and none is a slice's lock. |
| `Keys.TableIsSlice` | codewaveTimer/internal/data/task_cache_redis.go:72-75 | The writer's table is the reader's slice exactly for the firing's minute and its truncated remainder. |
| `TaskIndex.ScansPartitionTheMinute` | codewaveTimer/internal/biz/trigger.go:53-74 | The scans of all buckets and windows return a cached firing iff it is in the minute and its id is non-negative or a multiple of B, and each in one scan only. |
| `TaskIndex.FoundByIff` | codewaveTimer/internal/data/task_cache_redis.go:54-75 | Exactly which scan finds a firing. |
| `TaskIndex.NegativeRemainder` | codewaveTimer/internal/data/task_cache_redis.go:74 | Go's truncated remainder is a bucket iff the id is non-negative or a multiple of B. |
| `TaskIndex.FallbackAgainstCache` | codewaveTimer/internal/biz/trigger.go:117-140 | With the same firings in both stores, and as to non-negative timer ids, the fallback answers the cache's answer restricted to NotRunned plus the bucket's NotRunned firings from the window's (or minute's) end up to and including the window's end. |
| `TaskIndex.AddKeepsHolds` | codewaveTimer/internal/data/task_cache_redis.go:33-43 | ZADD keeps the sorted sets holding exactly the given firings, each in its own table under its run time. |
| `TaskIndex.TaskCache.BatchCreateTasks` | codewaveTimer/internal/data/task_cache_redis.go:26-52 | Exactly the listed firings are added, none twice; on a pipeline error, those whose commands were carried out, which may be any of them. |
| `TaskIndex.TaskCache.Add` | codewaveTimer/internal/data/task_cache_redis.go:33-43 | One firing added, whatever was there. |
| `TaskIndex.TaskCache.ZRangeByScore` | codewaveTimer/internal/data/task_cache_redis.go:55 | The members with a score in the closed range, each once. |
| `TaskIndex.TaskCache.GetTasksByTime` | codewaveTimer/internal/data/task_cache_redis.go:54-70 | The decoded firings of the window [start, end) of the slice; for non-negative ids exactly those, each once. |
| `TaskIndex.TaskTable.InsertOrIgnore` | codewaveTimer/internal/data/cron_task.go:22-25 | A pair already there leaves all rows as they are; otherwise one row of that pair and app is appended, NotRunned and without a result. |
| `TaskIndex.TaskTable.BatchSave` | codewaveTimer/internal/data/cron_task.go:21-27 | All or nothing: old rows untouched, keys grow by exactly the batch, none twice, new rows of the app, NotRunned and without a result. |
| `TaskIndex.TaskTable.Update` | codewaveTimer/internal/data/cron_task.go:29-32 | Exactly the rows with that id take the non-zero fields; on error nothing changes. |
| `TaskIndex.TaskTable.GetTasksByTimeRange` | codewaveTimer/internal/data/cron_task.go:34-45 | Exactly the rows of that status in the closed range. |
| `TaskIndex.TaskTable.Find` | codewaveTimer/internal/data/cron_task.go:47-57 | A row of that pair; an error iff the query fails or there is none. |
| `TaskIndex.GetTasks` | codewaveTimer/internal/biz/trigger.go:117-140 | The cache's answer; when it fails exactly the fallback's; nothing iff both fail. |
| `TriggerBatch.HandleBatch` | codewaveTimer/internal/biz/trigger.go:88-115 | Submits exactly what the request's lookup finds unless the pool refuses first, then that many; a bad key or two failing lookups submit nothing; every failure is returned; nothing is submitted twice unless the cache holds negative ids. |
| `TriggerBatch.LookupIsAnswer` | codewaveTimer/internal/biz/trigger.go:88-140 | Whole or in part, what is submitted of the request for window k, nothing twice, is an answer the slice protocol allows for, its firings as the reader decodes them, so the theorems hold of this code. |
| `TriggerBatch.HandledIsCounted` | codewaveTimer/internal/biz/trigger.go:103-113 | And the protocol counts it, whether the batch then failed or not: every firing submitted once more, no other. |
| `TriggerBatch.InsertsAreTheWriters` | codewaveTimer/internal/data/task_cache_redis.go:33-43 | The protocol inserts into a slice exactly what the writer puts into the slice's sorted set. |
| `Cron.NextsBetween` | codewaveTimer/internal/utils/cron.go:33-54 | Terminates; fails iff end < start, the expression does not parse, or firings run out; otherwise strictly ascending and exactly the firings in (start, end) and the first at or after end. |
| `Cron.Next` | codewaveTimer/internal/utils/cron.go:45-48 | The least firing after t, or the zero time iff there is none. |
| `Cron.ExpansionIsUnique` | codewaveTimer/internal/utils/cron.go:43-53 | Order and membership determine the expansion. |
| `Migration.NoGapIff` | codewaveTimer/internal/biz/migrator.go:56-76 | No firing from the first round to the last horizon is left out, for every expression whose rounds succeed, if and only if each round starts within 2M of the one before. |
| `Migration.LateRoundMisses` | codewaveTimer/internal/biz/migrator.go:56-58 | For any round later than that, an expression with a firing that no round writes. |
| `Migration.WrittenAhead` | codewaveTimer/internal/biz/migrator.go:56-76 | With rounds at most `gap` apart, gap < 2M, every firing at least 2M - gap after the first round is written at least 2M - gap ahead (M ahead for gaps of M). |
| `Migration.SerialBatchesIff` | codewaveTimer/internal/biz/migrator.go:38-44 | Batches begun every T, one timer after another with 5s sleeps in any order, keep every timer's rounds within 2M if and only if T + 5(n-1)s + the work is at most 2M. |
| `Migration.SerialBatchesMissNothingIff` | codewaveTimer/internal/biz/migrator.go:31-76 | No timer misses a firing, for any expression whose rounds succeed, from the round made on enabling it at any time and through the batches begun every T after that, if and only if T + 5(n-1)s + the work is at most 2M. |
| `Migration.ShippedBatchSize` | codewaveTimer/internal/svc/servicecontext.go:90-93 | With the program's fixed half hour and batches that cost only their sleeps: nothing is missed iff 30min + 5(n-1)s is at most 2M; never for M below 15min; for M = 30min exactly up to 361 timers. |
| `Migration.LastBatchBefore` | codewaveTimer/internal/biz/migrator.go:38-44 | The round that covers a time: the last batch over before it, or the first round. |
| `Migration.Migrator.MigratorTimer` | codewaveTimer/internal/biz/migrator.go:48-78 | From any state: succeeds iff it can, in a round that starts at the call's time; old rows untouched, nothing twice, only this timer's firings, under its app; on success both stores have gained exactly the window; after a failure no cache member lacks its row. |
| `Migration.Migrator.Write` | codewaveTimer/internal/biz/migrator.go:64-76 | The table first and the cache only after it: the table gains exactly the firings or nothing, the cache exactly those whose commands were carried out. |
| `Migration.Migrator.BatchMigratorTimer` | codewaveTimer/internal/biz/migrator.go:31-46 | Timers start in order 5s apart plus work; a failure does not stop the rest; each is done iff it can be, and then both stores hold its window; nothing but such windows is added, as rows of those timers and their apps that are NotRunned. |
| `Migration.Migrator.BatchTasksFromTimer` | codewaveTimer/internal/biz/cron_job_biz.go:63-74 | One firing for each time, in order. |
| `Migration.WindowIs` | codewaveTimer/internal/biz/cron_job_biz.go:63-74 | The firings of an expansion are exactly the round's window, and fit their 64-bit fields. |
| `Jobs.Service.Serve` | codewaveTimer/internal/biz/cron_job_biz.go:78-144 | Any sequence of enable, disable, migrate and execute with any failures makes no duplicate row, returns no finished row to NotRunned and loses no cache member; which timers end enabled, and the final status of every row there before, are a function of the commands alone; a row added on the way was added by some enable or migrate command and has the outcome of the last callback recorded in it since, or NotRunned. |
| `Jobs.Service.EnableTimer` | codewaveTimer/internal/biz/cron_job_biz.go:78-131 | Nothing changes without the lock; with it the outcome is EnableInTx's, of a round made during the call; the lock is granted whenever the request meets a store in which only other apps' enable locks and slice locks are held; the unlock is sent on every path, and a refused caller's unlock is refused. |
| `Jobs.FreeLockIsGranted` | codewaveTimer/internal/biz/cron_job_biz.go:80-91 | Locks of other apps and of slices never stand in the way of enabling. |
| `Jobs.Service.EnableInTx` | codewaveTimer/internal/biz/cron_job_biz.go:99-126 | Which outcome occurs when, failing lookups included, with a round made during the call; on success the status is Enabled, exactly the window is added, and both stores hold every firing after the round's clock up to the call's time + 2M; a failure leaves nothing behind iff it comes before the update. |
| `Jobs.Service.MigrateInTx` | codewaveTimer/internal/biz/cron_job_biz.go:120-126 | A failed migration or commit rolls back every row and no cache member; the round starts at the call's time. |
| `Jobs.Service.SetStatus` | codewaveTimer/internal/data/cron_job.go:24-27 | Status changes take effect at once, inside a transaction or not. |
| `Jobs.Service.DisableTimer` | codewaveTimer/internal/biz/cron_job_biz.go:133-144 | Only that job's status changes, and only on success; a missing job or a failing lookup panics. |
| `Jobs.Service.FindEnabled` | codewaveTimer/internal/data/cron_job.go:42-49 | Exactly the enabled jobs, each once, in any order, or an error. |
| `Jobs.Service.BatchMigrate` | codewaveTimer/internal/biz/migrator.go:31-46 | Whatever earlier failures left, every enabled timer that can be migrated ends with its window in both stores, and nothing else is added; rounds start in order 5s apart plus work, from the call's time on; a timer reported done has every firing after its clock reading up to the call's time + 2M in both stores; only a failing query for the timers ends the batch, changing nothing. |
| `Migration.BatchHoldsHorizon` | codewaveTimer/internal/biz/migrator.go:56-76 | Why: a round that starts at the batch's time or later covers the next 2M after its clock reading. |
| `Migration.SerialIsBatched` | codewaveTimer/internal/biz/migrator.go:38-44 | What batches begun every period do to one timer, wherever its place in each, is what the no-gap theorems ask for. |
| `Jobs.Service.ExecuteAndPostProcess` | codewaveTimer/internal/biz/executor.go:44-60 | The callback is made iff the timer is found and enabled, whatever the row's status, and recorded iff the row is found and the write succeeds; then the row has the callback's outcome, whatever it was before. |
| `Jobs.Service.PostProcess` | codewaveTimer/internal/biz/executor.go:81-115 | The outcome is recorded in that firing's row iff it is found and written, and no other row, key or id changes. |
| `Jobs.RecordOnce` | codewaveTimer/internal/data/cron_task.go:29-32 | Why: an update by id touches one row; zero fields keep their old value. |
| `Jobs.RetriesCanFlipOutcomes` | codewaveTimer/internal/biz/executor.go:46-59 | Over the commands Serve runs: a firing executed twice, first successfully and then not, is Successed in between and Failed at the end. |
| `Jobs.OutcomeIsFinalIff` | codewaveTimer/internal/biz/executor.go:44-115 | Over every command sequence: a status stays as it is throughout if and only if no callback with another outcome is recorded while the timer is enabled. |
| `Jobs.LastRecordedDecides` | codewaveTimer/internal/biz/executor.go:88-109 | The status at the end is the outcome of the last callback recorded since the row was there. |
| `Jobs.ServedStep` | codewaveTimer/internal/biz/executor.go:44-60 | One command after others: the row statuses and enabled timers go on as the commands say. |
| `Jobs.RecordingSteps` | codewaveTimer/internal/data/cron_task.go:29-32 | A recorded callback changes the status of the one row of its firing, by the unique key. |
| `Scheduler.HandleSlices` | codewaveTimer/internal/biz/scheduler.go:56-93 | With a clock reading for each bucket, every bucket is submitted for the last minute and then for this one; a refusal skips one and stops nothing. |
| `Scheduler.TakenInOrder` | codewaveTimer/internal/biz/scheduler.go:57-89 | Every wanted submission that the pool does not refuse is made exactly once, in order. |
| `Scheduler.SliceIsSubmittedForTwoMinutes` | codewaveTimer/internal/biz/scheduler.go:56-93 | Identified by its lock key, a slice is submitted iff its bucket's clock reading is in its own minute and the pool takes the bucket's second submission, or in the next minute and it takes the first. |
| `Scheduler.TakenIff` | codewaveTimer/internal/biz/scheduler.go:79-89 | Exactly the submissions the pool does not refuse are taken. |
| `Scheduler.AsyncHandleSlice` | codewaveTimer/internal/biz/scheduler.go:95-116 | One lock request; the trigger runs iff it was granted and heard, over the windows of the very slice whose lock was asked for; one extension is sent iff that run acked; the lock is never released. |
| `Scheduler.RunTrigger` | codewaveTimer/internal/biz/scheduler.go:113-115 | The run is one of the trigger's state machine that has stopped and returned nil iff it acked; every request's key decodes to the minute of t and the bucket, and window k is asked for [k, k+1) gaps into that minute. |
| `Scheduler.LockedIsScanned` | codewaveTimer/internal/biz/scheduler.go:96-113 | The slice whose lock an attempt asks for is the one it scans: window k is asked for as the slice protocol's batch k, with its key and bounds. |

## Left out

- HTTP handlers, configuration, logging, tracing and the JSON client: plumbing; a callback is a success or a failure with an output.
- Contexts and time-outs: cancellation appears only while a lock waits and as the watchdog's stop.
- `SingleFlightLock`, `blockingLock1`: gives no exclusion (it can return nil without a lock), and nothing calls it.
- One lock object used by several goroutines at once.
- The panic of a `Put` after `Close`: it ends the process, which the slice protocol has as a crash; `Trigger` goes on without the error.
- A batch's lookup, its submissions and its return are one step of the slice protocol.
- Pool capacity: a submission is taken or refused at once; its delay is part of `delay` in the slice protocol.
- The one-day expiry of the sorted sets, scores as floating point (exact for these times) and the order within an answer.
- Cron parsing and the calendar: library code; labels that are numbers but not calendar minutes are not rejected.
- gorm's error for an empty batch, which no expansion of a positive horizon yields.
- The exact text of errors.
- Linearizability of enabling against disabling: job updates are separate read and write and disabling takes no lock; `Jobs` runs operations one at a time.
- `pkg/cache/memory_cache.go`: unused.
- Recovery.RecoveryIff: one node and one outage; more nodes or outages are covered only by the other slice theorems.
- SliceSchedules.SubmittedDespiteOutageIff: polls reach the store at once, and only the outage goes wrong: answers arrive, the cache answers, and no lookup fails.
- SliceFleet.SubmittedOverallAtMost: gaps up to 60s, because with a longer gap the single window reaches further than the next minute; non-negative ids, because the two stores disagree on the bucket of others.
- TriggerBatch.LookupIsAnswer: what a lookup finds is compared as the reader decodes it, so a negative id stands for the largest int64.
- Redis.Server.SetIfAbsent: Redis failover and lost keys are not modelled.
- DistLock.RedisLock.BlockingLock: which ticks the ticker skips, and how late they are taken up, is given, because the runtime decides it.
- Migration.SerialBatchesIff: `work` stands for the time spent on migrating, which has no bound of its own.
