# feedgate-fetcher: a verified model of the crawler's core

feedgate-fetcher polls RSS and Atom feeds. Its replicas share nothing but two Postgres tables,
`feeds` and `entries`: a scheduler claims due feeds by writing a lease into their rows, a fetch moves
a feed through its lifecycle and upserts its entries, a sweep deletes old entries, and an API pages
through what is left. This project models those four parts in Dafny and proves what they promise, for
every input, every run and every interleaving. `dafny verify dfyconfig.toml` checks all of it.

## How the model is laid out

| file | what it holds |
|---|---|
| `Models.dfy` | rows of the two tables, settings, SQL NULL as an option |
| `Policy.dfy`, `FeedState.dfy`, `Fetch.dfy`, `Outcomes.dfy` | one attempt at one feed: backoff arithmetic, lifecycle marks, outcome branches, caps; what each answer does, column by column |
| `Lifecycle.dfy`, `Dying.dfy` | whole lives of one feed: invariant, reading of the history, bounds on dying |
| `Semaphore.dfy` | FIFO admission of a batch to `c` slots |
| `Scheduler.dfy`, `Progress.dfy`, `Fleet.dfy` | the claim/lease protocol as a transition system, safety and progress |
| `LostWrites.dfy` | writes lost between a job's load and its commit, and exactly when that can happen |
| `Traces.dfy` | what a run of the fleet is to one feed, and bounded dying in such runs |
| `Batches.dfy`, `FeedTables.dfy` | what a batch leaves of each of its feeds; the statements against `feeds`, tied to the protocol's steps |
| `EntryStore.dfy`, `Conditional.dfy`, `InitialCap.dfy`, `EntryLife.dfy` | the upsert, conditional requests and where the initial cap breaks them, runs of fetches and sweeps |
| `SortOrder.dfy`, `Retention.dfy`, `Pagination.dfy` | the descending order with NULLs first, and the two queries that rest on it |
| `Cursor.dfy`, `Errors.dfy` | the opaque page cursor; the walk along a chain of causes |

An SQL statement is one atomic step, and a job is several: its claim, its load of the feed when its slot
opens, and its commit, which writes the columns that the attempt changed on the loaded row to the row as
it then stands. Instants and spans are reals, in seconds; the jitter draw, the
database clock, the set of locked rows, the durations of fetches and the outcome of each exchange are
parameters, so a statement about them holds whatever they turn out to be.

## What the proofs say

* **Mutual exclusion.** `Scheduler.MutualExclusion` covers every interleaving of clock ticks, claims,
  loads, commits, rollbacks, crashes, registrations, deletions and reactivations of feeds nobody holds. Its
  condition, that a full batch ends before the lease and no later than the probe interval, is exact:
  whenever it fails, `Fleet.LeaseConditionIsExact` builds a run, from a table of feeds that all have a
  history, in which every job ends when the semaphore lets it and one feed is in two hands. The one
  kind of step that removes the protection is a reactivation of a feed in mid-fetch
  (`Scheduler.ProtectionLostOnlyByStealing`, with a run in `Fleet.ReactivationBreaksExclusion`).
* **Progress.** A lost feed is claimable from its gate on and not before (`Progress.CrashRecovery`);
  a due feed, or a dead one due for a probe, is claimed within `floor(A / batch) + 1` claims, whatever
  happens to other feeds (`Progress.BoundedWaiting`).
* **Lifecycle.** The row of a feed equals a declarative reading of everything that happened to it
  (`Lifecycle.HistoryCharacterisation`), and a feed that only fails is DEAD after a bounded number of
  polls and a bounded time (`Dying`). In a run of the whole fleet in which leases hold, no write is lost:
  every row keeps the lifecycle invariant (`Fleet.FleetKeepsLifecycle`) and is what its own leases, polls
  and reactivations make of it (`Traces.TraceIsHistory`). The claim gate makes those
  of a failing feed such a streak, lost leases included (`Traces.TraceIsStreak`), so the bounds hold
  there (`Traces.FailingFeedIsBounded`, `Traces.FailingFeedDies`).
* **Entries.** A batch of upserts amounts to a closed description of every row
  (`EntryStore.UpsertFold`); batched retention is confluent and ends in the one-shot result
  (`Retention.BatchedSweepIsOneShot`); conditional fetching stores what unconditional fetching stores
  (`Conditional.ConditionalRefines`).
* **Pagination.** The keyset walk is slicing of a sorted list on a fixed table
  (`Pagination.StaticWalk`), and returns every undisturbed entry exactly once while others change
  (`Pagination.WalkUnderMutation`).

### Promises that do not hold of the code as it stands

* That conditional requests never lose entries: when the initial-fetch cap cuts the first document, a
  304 hides the entries past the cap until the origin sends a full answer. For every run of polls, of any
  documents, `InitialCap.CapDecidesRefinement` gives the exact condition: the feed has entries already,
  or the cap is zero, or the first document stored is not cut, or the next answer is a full one (the
  origin prefers it, or the document has changed) or never comes.
* That every reachable row satisfies the lifecycle invariant: false when a feed is reactivated between a
  job's load and its commit. A dead feed reactivated in mid-probe that answers 410 again is left ACTIVE
  with two failures and no error code (`LostWrites.ReactivationBreaksLifecycle`);
  `LostWrites.DisturbedCommit` says exactly which commits break the invariant. False too when a lease can
  run out under a live worker, and only then (`LostWrites.LifecycleConditionIsExact`).
* That a claimed feed is never claimed again while its worker lives: false after a reactivation in
  mid-fetch, and false whenever `ceil(batch / concurrency) * bound` reaches the lease TTL or exceeds
  the probe interval. Both conditions are exact (`Scheduler.ProtectionLostOnlyByStealing`,
  `Fleet.LeaseConditionIsExact`).
* That upserting the same list again changes nothing: true of the rows if and only if all listings of
  one guid agree, or the database clock reads the same both times; otherwise `content_updated_at` moves
  for the guids that disagree, and nothing else does (`EntryStore.UpsertTwice`).
* That the initial-fetch cap cuts at most one fetch in the life of a feed: false at a cap of zero, where
  it cuts every fetch. `EntryLife.CutBoundIsExact` gives the exact condition.

### Where the code and its own text disagree

The model follows the code.

* `config.py:65-66` speaks of a lease of 180 s; the default in line 74 is 90 s.
* `entries.py:103-105` says that non-NULL entries sort before NULL ones; under `DESC` they sort after
  them, and the predicate in the code is the right one for that order (`Pagination.ClauseIsAfter`).
* `http.py:143-144` says that a 304 leaves failure count and status alone; it clears both for a BROKEN
  feed. A DEAD feed that answers 304 stays DEAD, an ACTIVE one keeps its count.
* `scheduler.py:128-130` says that a dead feed never comes back by the normal path; a 200 on a probe
  revives it.
* `upsert.py:56-58` says that updates stamp the caller's `now`; line 84 stamps the database clock.
* The documentation speaks of a per-host throttle; the scheduler has none.

## Model

| member | source | states |
|---|---|---|
| `Policy.BackoffDoubles` | src/feedgate_fetcher/fetcher/policy.py:57-60 | along a failing streak the unjittered delay is the smaller of twice the last one and the cap, so it never shrinks |
| `Policy.BackoffReachesCap` | src/feedgate_fetcher/fetcher/policy.py:57-60 | a least number of doublings meets the cap, and the delay equals the cap exactly from that failure on |
| `Policy.BackoffPositive` | src/feedgate_fetcher/fetcher/policy.py:57-60 | every delay is positive and at most the cap |
| `Policy.JitterBand` | src/feedgate_fetcher/fetcher/policy.py:57-63 | a BROKEN feed is rescheduled within `[(1-r)d, (1+r)d]` of now, whatever the draw |
| `Policy.NextFetchIsLater` | src/feedgate_fetcher/fetcher/policy.py:45-63 | every status, count, hint and draw yields an instant strictly after now |
| `Policy.FrequencyClamped` | src/feedgate_fetcher/fetcher/policy.py:45-55 | more entries a week never lengthen the interval, which stays within its two limits |
| `Policy.HintIsHonoured` | src/feedgate_fetcher/fetcher/policy.py:54-55 | unless BROKEN, the feed is due at the later of the server's hint and the instant without one; a hint at or above every interval of the settings is the answer itself |
| `Policy.IntervalIsExact` | src/feedgate_fetcher/fetcher/policy.py:45-55 | without a hint: the base interval for a week without entries, otherwise the interval that as many times as there are posts fills a week, kept within the two limits |
| `Policy.DrawSpansBand` | src/feedgate_fetcher/fetcher/policy.py:57-63 | a BROKEN feed takes no hint, and the draw moves it evenly from one edge of its band to the other |
| `Policy.FirstDelay` | src/feedgate_fetcher/fetcher/policy.py:57-60 | the first delay is the base interval, unless the cap is below it |
| `FeedState.Feed.MarkFetchSuccess` | src/feedgate_fetcher/feed_state.py:32-45 | the whole row after a success, from any status; a blank title keeps the old one |
| `FeedState.Feed.MarkFetchFailure` | src/feedgate_fetcher/feed_state.py:48-79 | the whole row after a failure: the cascade ACTIVE to BROKEN to DEAD in one call, 410, and DEAD staying DEAD, as one status function |
| `FeedState.FlushLaws` | src/feedgate_fetcher/fetcher/scheduler.py:76-100 | a commit over the row as loaded leaves what the session left; a session that changed nothing writes nothing |
| `FeedState.FlushesCommute` | src/feedgate_fetcher/fetcher/scheduler.py:76-100 | two sessions that changed no column both have their way in either order |
| `Fetch.FetchOne` | src/feedgate_fetcher/fetcher/http.py:68-288 | the whole feed row and the whole entries table after an attempt, for each of 200, 304, 429 and failure, as the functions that the `Outcomes` rows describe column by column |
| `Fetch.StoreEntries` | src/feedgate_fetcher/fetcher/http.py:225-239 | the cut and the upsert in place, as the function that `Outcomes.FullAnswerStoresFirst` describes |
| `Fetch.PollReschedulesLater` | src/feedgate_fetcher/fetcher/http.py:145-288 | every outcome reschedules strictly after the attempt |
| `Outcomes.AfterFullAnswer` | src/feedgate_fetcher/fetcher/http.py:201-247 | after a 200 the feed is ACTIVE and clean; title, validators and address are replaced by what the answer carries and kept where it carries none |
| `Outcomes.AfterUnchanged` | src/feedgate_fetcher/fetcher/http.py:145-150 | a 304 restarts the success clock and recovers a BROKEN feed only; nothing else of the row moves but the schedule |
| `Outcomes.AfterRateLimit` | src/feedgate_fetcher/fetcher/http.py:174-183 | after a 429 the feed is due at the later of Retry-After and the base interval; code and attempt are noted, every other column is as it was |
| `Outcomes.AfterFailedAttempt` | src/feedgate_fetcher/feed_state.py:48-79 | one more failure under its code; DEAD and BROKEN if and only if the count, the code and the age of the last success say so; every other column is as it was |
| `Outcomes.FullAnswerHint` | src/feedgate_fetcher/fetcher/http.py:249-251 | after a 200 the feed is due at the latest of cache header, TTL and entry frequency |
| `Outcomes.UnchangedHint` | src/feedgate_fetcher/fetcher/http.py:151-165 | after a 304 the feed is due at the later of cache header and entry frequency |
| `Outcomes.FailureSchedule` | src/feedgate_fetcher/fetcher/http.py:276-288 | after a failure a feed left BROKEN is due within the jitter band of its new count, any other by its entry frequency |
| `Outcomes.WeeklyCountIsExact` | src/feedgate_fetcher/fetcher/http.py:92-99 | each row of the feed fetched in the last 604800 seconds counts one, any other row nothing |
| `Outcomes.FullAnswerStoresFirst` | src/feedgate_fetcher/fetcher/http.py:225-239 | with `n` the smallest of list length, per-fetch cap and (while the feed has no entry) initial cap: each of the first `n` guids is stored with its last content among them, rows of other guids or feeds are neither inserted nor changed, and the two clocks move exactly when they should |
| `Outcomes.OthersStoreNothing` | src/feedgate_fetcher/fetcher/http.py:145-183 | no other answer touches the entries |
| `Lifecycle.EventKeepsConsistent` | src/feedgate_fetcher/feed_state.py:32-79 | every write to a row keeps the lifecycle invariant |
| `Lifecycle.LifecycleInvariant` | src/feedgate_fetcher/feed_state.py:38-79 | in every reachable row: ACTIVE below the threshold, BROKEN at or above it, DEAD with a failure, no failure means no code or rate_limited, no code means ACTIVE without failures |
| `Lifecycle.HistoryCharacterisation` | src/feedgate_fetcher/feed_state.py:32-79 | the counter counts the failures no later reset cleared; DEAD if and only if a failure since the last 200 or reactivation was a 410 or met the threshold with an old reference; BROKEN if and only if not DEAD and at the threshold |
| `Lifecycle.UnclearedSnoc` | src/feedgate_fetcher/fetcher/http.py:145-183 | how each kind of event changes the number of uncleared failures: a 200, a reactivation or a 304 while BROKEN clears them, a failure adds one, a 429 none |
| `Dying.LeasesCanBeErased` | src/feedgate_fetcher/fetcher/scheduler.py:160-167 | erasing the leases of a failing streak, lost ones included, keeps the row up to the last lease, the count of BROKEN polls and the gate |
| `Dying.StreakProgress` | src/feedgate_fetcher/feed_state.py:64-79 | at every point of a failing streak: how many BROKEN polls there were, how long they must have taken, and that this is below the dead duration |
| `Dying.BrokenPollsAreBounded` | src/feedgate_fetcher/fetcher/policy.py:57-63 | of the BROKEN polls of a streak, all but the first `k + 1` fit one shortest capped gap each into the dead duration |
| `Dying.DeadInTime` | src/feedgate_fetcher/feed_state.py:64-79 | past the threshold, the feed is DEAD by reference plus dead duration plus longest jittered delay plus scheduling latency |
| `Traces.TraceIsHistory` | src/feedgate_fetcher/fetcher/scheduler.py:63-168 | in every run in which leases hold and no held feed is reactivated, the row of a feed is what its own leases, polls and reactivations make of it |
| `Traces.TraceIsStreak` | src/feedgate_fetcher/fetcher/scheduler.py:139-167 | in every run in which all polls of a feed fail, its trace passes the claim gate each time and polls at the instant of its lease |
| `Traces.FailingFeedIsBounded` | src/feedgate_fetcher/fetcher/policy.py:57-63 | the bound on BROKEN polls, for any feed in any run of the fleet in which its polls all fail |
| `Traces.FailingFeedDies` | src/feedgate_fetcher/feed_state.py:64-79 | the bound on the time to DEAD, for any feed in any such run: DEAD from the bound on |
| `Semaphore.NeverTooMany` | src/feedgate_fetcher/fetcher/scheduler.py:206-207 | at no instant do more jobs run than there are slots; jobs start in list order and take turns in a slot |
| `Semaphore.Makespan` | src/feedgate_fetcher/config.py:58-67 | job `i` starts by `floor(i / c) * B`, and a batch of `n` ends by `ceil(n / c) * B` |
| `Semaphore.StartsBy` | src/feedgate_fetcher/fetcher/scheduler.py:206-207 | the same from a semaphore that is partly busy |
| `Scheduler.HeldIsIneligible` | src/feedgate_fetcher/fetcher/scheduler.py:139-152 | a feed in the hands of a live worker is eligible for nobody, dead or not |
| `Scheduler.ClaimDeadlines` | src/feedgate_fetcher/fetcher/scheduler.py:206-207 | every job of a claim ends within the batch time of the claim |
| `Scheduler.StepKeepsGood` | src/feedgate_fetcher/fetcher/scheduler.py:63-168 | every step of the system but a stolen lease keeps the inductive invariant: exclusive jobs, standing leases, deadlines within the batch time |
| `Scheduler.MutualExclusion` | src/feedgate_fetcher/fetcher/scheduler.py:139-168 | no two live jobs hold one feed, after any run of any length |
| `Scheduler.ProtectionLostOnlyByStealing` | src/feedgate_fetcher/api/feeds.py:191-194 | a step leaves every held feed ineligible if and only if it is not a reactivation of a held feed |
| `Fleet.LeaseConditionIsExact` | src/feedgate_fetcher/config.py:58-74 | all runs from tables with histories and unique URLs are exclusive if and only if the batch time is below the TTL and at most the probe interval |
| `Fleet.ShortLeaseBreaksExclusion` | src/feedgate_fetcher/fetcher/scheduler.py:160-166 | whenever that condition fails, a run from such a table, every job ending when its stay in the semaphore does, ends with one feed in two hands |
| `Fleet.FullLoad` | src/feedgate_fetcher/fetcher/scheduler.py:206-207 | a batch of longest jobs meets the makespan exactly |
| `Fleet.ReactivationBreaksExclusion` | src/feedgate_fetcher/api/feeds.py:188-194 | under any settings, a reactivation in mid-fetch leads to a second claim |
| `Fleet.FleetKeepsLifecycle` | src/feedgate_fetcher/fetcher/scheduler.py:63-168 | in every run in which leases hold and no held feed is reactivated, every row is the outcome of a history and satisfies the lifecycle invariant |
| `Fleet.Undisturbed` | src/feedgate_fetcher/fetcher/scheduler.py:76-100 | a commit over the row as it was loaded is the poll itself |
| `LostWrites.DisturbedCommit` | src/feedgate_fetcher/api/feeds.py:188-194 | when the feed is reactivated between load and commit, the committed row keeps the invariant if and only if the attempt does not fail, or brings a new error code and a new status (or few enough failures for ACTIVE) |
| `LostWrites.DisturbedFailure` | src/feedgate_fetcher/feed_state.py:56-79 | what such a commit keeps of a failure: its count, its code only if new, its status only if new |
| `LostWrites.ReactivationBreaksLifecycle` | src/feedgate_fetcher/fetcher/scheduler.py:76-100 | under any settings, a run from a table with histories in which a reactivation in mid-probe leaves a row that breaks the invariant |
| `LostWrites.ShortLeaseBreaksLifecycle` | src/feedgate_fetcher/fetcher/scheduler.py:160-166 | whenever the lease condition fails, two workers' crossed commits break the invariant of a row, without any reactivation |
| `LostWrites.LifecycleConditionIsExact` | src/feedgate_fetcher/config.py:58-74 | all runs without such reactivations keep the invariant of every row if and only if the batch time is below the TTL and at most the probe interval |
| `Progress.UnheldRowStaysAlong` | src/feedgate_fetcher/fetcher/scheduler.py:153-167 | no run that spares a feed nobody holds writes its row, whatever it does to others |
| `Progress.CrashRecovery` | src/feedgate_fetcher/fetcher/scheduler.py:102-166 | a feed lost to a crash or rollback is eligible if and only if its gate is open: claim time plus TTL, or strictly after claim time plus probe interval when dead |
| `Progress.ClaimUsesUp` | src/feedgate_fetcher/fetcher/scheduler.py:153-166 | a claim that passes a due feed by takes a full batch from ahead of it, and puts none of it back |
| `Progress.FinishAddsNothing` | src/feedgate_fetcher/fetcher/http.py:276-288 | finishing a job never lengthens the queue ahead of a due feed |
| `Progress.WaitingUsesUp` | src/feedgate_fetcher/fetcher/scheduler.py:153-166 | over a whole run, the claims that pass a due feed by take no more than was ahead of it |
| `Progress.BoundedWaiting` | src/feedgate_fetcher/fetcher/scheduler.py:153-166 | a due feed, or a dead one due for a probe, is claimed by one of the next `floor(A / batch) + 1` claims that do not find it locked, even while other feeds are reactivated in mid-fetch |
| `Progress.NothingLate` | src/feedgate_fetcher/api/feeds.py:102-107 | once the clock has passed an instant, nothing is registered or reactivated with that key |
| `Progress.LostFeedIsReclaimed` | src/feedgate_fetcher/fetcher/scheduler.py:102-166 | a lost feed, dead or not, is claimed again within the waiting bound of its gate |
| `FeedTables.SelectDue` | src/feedgate_fetcher/fetcher/scheduler.py:139-159 | distinct due unlocked rows, at most a batch, and no skipped due row is earlier or left out of a short batch; due means non-dead at its instant, or dead and not tried within the probe interval, if ever |
| `FeedTables.FeedTable.ClaimDueFeeds` | src/feedgate_fetcher/fetcher/scheduler.py:110-168 | such a selection; exactly its rows get the lease's two columns, and nothing else changes |
| `FeedTables.FeedTable.LoadFeed` | src/feedgate_fetcher/fetcher/scheduler.py:76-78 | the row of the feed, or its absence |
| `FeedTables.FeedTable.CommitFeed` | src/feedgate_fetcher/fetcher/scheduler.py:79-105 | whatever happened to the row since it was loaded: the changed columns go to the row as it stands and the entries to the table; a row gone, or an exception, leaves both tables as they were and is reported |
| `FeedTables.FeedTable.ProcessFeed` | src/feedgate_fetcher/fetcher/scheduler.py:63-107 | undisturbed: a deleted feed counts as processed, an exception leaves both tables as they were, otherwise exactly one row and its entries change |
| `Batches.SameAfter` | src/feedgate_fetcher/fetcher/http.py:225-239 | what a fetch makes of the entries of its feed depends on those entries alone |
| `Batches.OneServed` | src/feedgate_fetcher/fetcher/scheduler.py:207-207 | an answer to one job of a batch serves the feed of that job and leaves every other feed as it was |
| `Batches.BatchServed` | src/feedgate_fetcher/fetcher/scheduler.py:171-215 | after a batch each claimed feed has the row and entries that its own answer calls for from its leased row, as if fetched alone, or is leased and has the entries it had if its attempt raised |
| `FeedTables.FeedTable.EndJob` | src/feedgate_fetcher/fetcher/scheduler.py:63-107 | ending one job is a step of the protocol that serves its feed and no other |
| `FeedTables.FeedTable.TickOnce` | src/feedgate_fetcher/fetcher/scheduler.py:171-215 | an iteration claims a batch and serves each of its feeds by its own answer and no other feed; it counts the answers and the raised attempts; and it is a run of the protocol, its jobs committing in the order in which the semaphore ends them, over within the batch time |
| `FeedTables.FeedTable.CreateFeed` | src/feedgate_fetcher/api/feeds.py:83-114 | idempotent registration: a known URL changes no row, a new one adds exactly one, due at once; URLs stay unique |
| `FeedTables.FeedTable.DeleteFeed` | src/feedgate_fetcher/api/feeds.py:164-172 | the row and exactly its entries go; an unknown id changes nothing |
| `FeedTables.FeedTable.ReactivateFeed` | src/feedgate_fetcher/api/feeds.py:175-197 | counters cleared and due at once, success clock kept; an unknown id is reported and changes nothing |
| `EntryStore.StatementEffect` | src/feedgate_fetcher/fetcher/upsert.py:63-94 | what one statement does to every row of the table, and that `(feed_id, guid)` stays unique |
| `EntryStore.UpsertFold` | src/feedgate_fetcher/fetcher/upsert.py:60-94 | for any list with repeats: each listed guid ends with its last content, other rows are untouched, `fetched_at` never changes, `content_updated_at` moves exactly when some listing differs |
| `EntryStore.UpsertTwice` | src/feedgate_fetcher/fetcher/upsert.py:60-94 | a second application moves nothing but `content_updated_at`, for guids whose listings disagree, and changes no row if and only if all listings agree or the database clock stood still |
| `EntryStore.UpsertAgain` | src/feedgate_fetcher/fetcher/upsert.py:86-92 | a list the table already reflects is a no-op on the rows when its repeats agree |
| `EntryStore.EntryTable.UpsertEntries` | src/feedgate_fetcher/fetcher/upsert.py:47-94 | the loop of statements computes the fold that `UpsertFold` describes |
| `EntryStore.EntryTable.UpsertStatement` | src/feedgate_fetcher/fetcher/upsert.py:63-94 | insert, update or nothing, in place, drawing a key each time |
| `Retention.RowNumberIsPosition` | src/feedgate_fetcher/fetcher/retention.py:58-66 | the window function's row number is the position in the feed's `(fetched_at, id)` descending listing |
| `Retention.KeepIsPrefix` | src/feedgate_fetcher/fetcher/retention.py:58-71 | per feed, the kept rows are the prefix of that listing of length `max(min(N, n), window count)` |
| `Retention.KeepIsStable` | src/feedgate_fetcher/fetcher/retention.py:58-94 | deleting any set of victims leaves every other row's fate unchanged |
| `Retention.PassesConverge` | src/feedgate_fetcher/fetcher/retention.py:73-85 | after `m` batched passes, with any choice of victims, exactly `max(0, v - m * batch)` victims are left |
| `Retention.BatchedSweepIsOneShot` | src/feedgate_fetcher/fetcher/retention.py:73-94 | the table equals the one-shot result if and only if there were at least `ceil(v / batch)` passes |
| `Retention.SweepsCompose` | src/feedgate_fetcher/fetcher/retention.py:68-94 | a sweep with a later cutoff absorbs an earlier one |
| `Retention.FindVictims` | src/feedgate_fetcher/fetcher/retention.py:58-74 | exactly the rows outside both the window and the top N |
| `Retention.KeptByAgeOrRank` | src/feedgate_fetcher/fetcher/retention.py:58-71 | a row is kept if and only if it is in the window, or fewer than N rows of its feed were fetched later (or at the same instant under a larger id) |
| `Retention.Limit` | src/feedgate_fetcher/fetcher/retention.py:74-74 | as many of the victims as the batch allows, and never others |
| `Retention.Sweep` | src/feedgate_fetcher/fetcher/retention.py:40-94 | batch size 0 deletes exactly the rows outside window and top N, otherwise one batch of them; the rest is unchanged, and the count returned is the number of rows gone |
| `Retention.SweepAged` | src/feedgate_fetcher/fetcher/retention.py:100-132 | a row that goes is older than the retention days and has N newer ones in its feed; unbatched, every such row goes |
| `EntryLife.NeverEmptied` | src/feedgate_fetcher/fetcher/retention.py:58-71 | with `N >= 1`, a feed that has an entry has one after any run of fetches and sweeps |
| `EntryLife.TruncatesAtMostOnce` | src/feedgate_fetcher/fetcher/http.py:227-238 | an initial-fetch cap of at least 1 cuts at most one fetch in the life of a feed |
| `EntryLife.CutBoundIsExact` | src/feedgate_fetcher/fetcher/http.py:227-238 | every life of a feed has at most one cut fetch if and only if the initial cap is at least 1 or the per-fetch cap is 0 |
| `Conditional.SameUpsert` | src/feedgate_fetcher/fetcher/upsert.py:60-94 | a batch does the same to tables that differ in surrogate keys only |
| `Conditional.ConditionSent` | src/feedgate_fetcher/fetcher/http.py:109-113 | a stored ETag is sent, a stored date only without one, and an empty one counts as none |
| `Conditional.ConditionAfter` | src/feedgate_fetcher/fetcher/http.py:109-247 | the request after a 200 makes the condition that the 200 gave, or without one the stored ETag |
| `Conditional.UnchangedKeepsStep` | src/feedgate_fetcher/fetcher/http.py:145-167 | when the origin may answer 304, downloading would have changed no row |
| `Conditional.ConditionalRefines` | src/feedgate_fetcher/fetcher/http.py:109-248 | from a feed without validators, any run of polls with 304s leaves the same entries as the same run always downloading, if the feed has entries or the documents fit the initial cap |
| `InitialCap.CutRun` | src/feedgate_fetcher/fetcher/http.py:109-167 | once an entry of a document is missing, any polls that follow, of any documents, store alike with and without conditions if and only if the origin's next answer is full or never comes |
| `InitialCap.CapDecidesRefinement` | src/feedgate_fetcher/fetcher/http.py:227-248 | any run of polls from a feed without validators is stored alike either way if and only if the feed has entries, or the initial cap is zero, or the first document stored is not cut, or the next answer is full or never comes |
| `SortOrder.SortedUnique` | src/feedgate_fetcher/api/entries.py:116-116 | the order lists a set of keys in one way only |
| `SortOrder.ListingCut` | src/feedgate_fetcher/fetcher/retention.py:58-66 | the key at position `i` splits the listing into the `i + 1` keys up to it and the listing of the rest |
| `SortOrder.UpwardIsPrefix` | src/feedgate_fetcher/fetcher/retention.py:69-71 | a set of keys closed towards the front is a prefix of the listing |
| `Pagination.ClauseIsAfter` | src/feedgate_fetcher/api/entries.py:95-114 | under SQL three-valued logic the keyset predicate is true if and only if the row is listed after the cursor |
| `Pagination.NextSelects` | src/feedgate_fetcher/api/entries.py:118-125 | the next cursor of a full page selects exactly the rest of the listing |
| `Pagination.ItemsAdvance` | src/feedgate_fetcher/api/entries.py:95-125 | whatever happens between requests, the items of all pages are strictly in list order |
| `Pagination.PresentIsReturned` | src/feedgate_fetcher/api/entries.py:95-125 | a key that every request finds is returned by a complete walk |
| `Pagination.WalkUnderMutation` | src/feedgate_fetcher/api/entries.py:93-125 | an entry present throughout with an unchanged key is returned exactly once, and an id comes twice only if a later request found it under a later key than an earlier one |
| `Pagination.StaticWalk` | src/feedgate_fetcher/api/entries.py:93-130 | on a fixed table the pages are the slices `[j * limit, (j + 1) * limit)` of the sorted matches, in `max(1, ceil(n / limit))` requests |
| `Pagination.WalkReturnsAll` | src/feedgate_fetcher/api/entries.py:93-130 | on a fixed table the walk returns exactly the entries of the feeds asked for, undated first, then the latest date, equals by the larger id |
| `Cursor.Base64RoundTrip` | src/feedgate_fetcher/api/entries.py:38-44 | decoding undoes encoding on every byte string (section 5 of RFC 4648) |
| `Cursor.LetterCode` | src/feedgate_fetcher/api/entries.py:38-38 | the alphabet of section 5 of RFC 4648, letter by letter |
| `Cursor.GroupBits` | src/feedgate_fetcher/api/entries.py:38-38 | four letters spell the 24 bits of their three bytes, most significant first |
| `Cursor.CursorIsUrlSafe` | src/feedgate_fetcher/api/entries.py:38-38 | a stripped cursor is made of letters, digits, `-` and `_` alone |
| `Cursor.PaddingRestored` | src/feedgate_fetcher/api/entries.py:38-44 | adding `-len mod 4` pad characters undoes stripping them |
| `Cursor.PayloadRoundTrip` | src/feedgate_fetcher/api/entries.py:33-48 | the compact JSON payload parses back to the same position |
| `Cursor.IsoShape` | src/feedgate_fetcher/api/entries.py:34-34 | the date part of the timestamp's text, column by column |
| `Cursor.TimeShape` | src/feedgate_fetcher/api/entries.py:34-34 | the time of day, with microseconds only when there are any, and the offset |
| `Cursor.CursorRoundTrip` | src/feedgate_fetcher/api/entries.py:32-48 | for every optional timestamp and integer id, decoding the encoded cursor gives both back |
| `Errors.PlainWalkFindsFirst` | src/feedgate_fetcher/fetcher/errors.py:57-80 | the plain walk answers the class of the first classified node among the first `fuel`, else `connection` |
| `Errors.NothingNewInACycle` | src/feedgate_fetcher/fetcher/errors.py:57-80 | from inside a set of unclassified nodes closed under links, no walk of any length finds a class |
| `Errors.WalkAnswers` | src/feedgate_fetcher/fetcher/errors.py:57-80 | read off the chain of causes (or contexts) by the flags alone: the kind of the first flagged node of the first eight, TLS before DNS before refusal; `connection` if and only if none is flagged |
| `Errors.SomeChain` | src/feedgate_fetcher/fetcher/errors.py:57-80 | every exception, on any graph, starts such a chain |
| `Errors.ClassifyConnectCause` | src/feedgate_fetcher/fetcher/errors.py:57-80 | on any cause graph, cyclic or not, the loop with its visited set answers as the plain 8-step walk, and as every such chain says |

## Left out

- The `run` loops of scheduler and retention, with their error backoff and drain: an iteration is modelled, repeating it would only add easy members.
- HTTP transport, streaming with its size limit, TLS impersonation and the fallback client, the feed parser, SSRF checks and the parsing of dates and headers: their results enter as outcomes, hints and optional naturals.
- `classify_error` outside connect errors, `normalize_url`, and the mapping of malformed cursors and parameters to HTTP errors: single case splits.
- `list_feeds` and the feed cursor: the same walk and the same encoding as for entries, over a key that is never NULL.
- FastAPI wiring, authentication, rate limits, metrics, logging and settings loading; settings are parameters, with the ranges each statement names.
- Postgres internals: each statement is atomic and reads the clock of its step; the SKIP LOCKED set is any set; a reactivation, whose SELECT and UPDATE follow each other at once, is one step; a commit's entries and weekly count are taken at the commit.
- Rounding: time is real-valued; microseconds and float rounding in the interval arithmetic are not modelled.
- Progress.BoundedWaiting: counts, beside `A`, the rows registered or reactivated at the very instant the feed fell due; `Progress.NothingLate` shows that there are none once the clock has passed it.
- FeedTables.FeedTable.ProcessFeed: is the undisturbed case; `FeedTables.FeedTable.CommitFeed` covers what happens between load and commit.
- FeedTables.FeedTable.TickOnce: runs alone; other workers' steps in between are covered by the transition system in `Scheduler.dfy`, whose claim, load and commit are the three methods it is made of.
- Progress.LostFeedIsReclaimed: counts from the instant when the gate is open and the lease's own key has passed; for a dead feed with a lease longer than the probe interval that is later than the gate.
- Conditional.ConditionalRefines: compares tables up to surrogate keys, since the two runs draw from the key sequence a different number of times; it covers one feed's direct path without sweeps.
- Pagination.WalkUnderMutation: cursors are sort keys here; that the text a client sends carries the key faithfully is `Cursor.CursorRoundTrip`.
- Cursor.PayloadRoundTrip: the reader accepts only the compact JSON shape and the UTC timestamps that the encoder writes.
- Cursor.CursorRoundTrip: the decoder reads the JSON shape that the encoder writes, with UTC timestamps; general JSON and calendar validity of dates are not modelled.
