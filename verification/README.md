# FluxForge control plane: verified model

A Dafny model of the four parts of the FluxForge control plane that are hard to get right by reading one
function at a time, with proofs about every run of each of them.

* **Leader election.** `LockStore` holds the Redis lock primitives, `LeaderElection` the lease protocol as a
  state machine over its atomic steps (epoch bump, `SET NX`, compare-and-expire, compare-and-delete, expiry,
  janitor reads, lost replies, commands executed after their caller gave up, a flushed Redis),
  `ElectionSafety` what all its runs guarantee, `LeaseTenure` how long a confirmed lease lasts and what can end
  it. `LeaderElector` is the elector object with its timing loop, `Janitor` one cleaning pass.
* **Versioned writes and degraded mode.** `VersionedStore` holds the versioned scripts, `DesiredStates` the
  concurrent optimistic updates of one record. `DegradedMode` is the manager object (LRU cache, bounded log of
  versioned writes, recovery), `Reconciliation` the meaning of one pass, `DegradedRuns` all runs with whole
  passes, `ConcurrentPass` a pass that releases its mutex between entries, `BoundedPass` such a pass when local
  writes fill the log.
* **Idempotency.** `Idempotency` is the LOCK, EXECUTE, RESULT protocol for any number of clients,
  `IdempotentCall` the calls as one caller runs them, `IdempotencyWait` the poll loop.
* **Scheduling.** `TaskOrder` and `TaskQueue` are the clock-dependent comparator and the heap, `CircuitBreaker`
  the breaker, `Sharding` and `MemoryStore` the node hash and the shard listings, `SchedulerRuns` the flow of
  tasks with the worker cut at every point where another goroutine can run, `Scheduler` the object itself.

The pattern is the same throughout. An object that the source updates in place is a class, whose methods are
proved equal to functions on its abstract value; a protocol is a set of atomic steps; the main results are
lemmas about all runs of the steps or all inputs of the functions. Where both exist, lemmas or contracts
connect them (`AcquireFollowsProtocol`, `RenewFollowsProtocol`, `FailuresFollowProtocol`,
`IterationFollowsRuns`, `FlagsOverlapBriefly`, `ExecuteIdempotent`). A remote call that fails tells its caller nothing about whether
the remote side acted, so each has an answered, a never executed and an executed-but-unseen outcome. Clocks,
remote answers and rate limiters are parameters.

## Where the code and its promises part

The model follows the code; the lemma named says what holds and what does not.

* The project README (line 31) promises fencing that prevents split brain. Two electors can have `isLeader` set
  at once (`TwoLeadersReachable`); a follower's attempt makes it a second leader exactly when no lease is live
  (`SecondLeaderExactly`). What always holds is that their fencing epochs differ (`LeaderFence`) and that at most
  one of them holds the live lease (`AtMostOneHolder`), so there is one leader where every leader checks its
  ownership (`HoldingLeadersAreOne`); and two flags overlap for at most four thirds of a lifetime unless the
  earlier lease is deleted or the store flushed (`FlagsOverlapBriefly`).
* A follower bumps the durable epoch on every attempt, so the janitor's epoch test also evicts live leaders
  (`JanitorEvictsLiveLeader`, exactly when: `JanitorEvictsExactly`; never a lease of the durable epoch within its
  stamp: `NewestLeaseIsSafe`). On shutdown a leader releases its lease and keeps its flag (`Loop`).
* The project README (line 32) promises no lost updates on versioned state. For the scripts it holds
  (`NoLostUpdates`). As written, however, the versioned read returns the stored record as a JSON string, which
  `GetState` (control_plane/store/redis.go:380-401) cannot decode, so no status update ever reaches its script
  (`QuotedTakesNoStatus`, exactly when: `StatusReachesScriptExactly`).
* The idempotency lock stores the bare key (line 170 of the file) and is read back as a JSON record (lines
  73-78). Under that reading nothing is executed in any run whose critical sections outpace the lock (`UndecodableLockExecutesNothing`, `ExecutesExactly`); the
  other results suppose a lock that reads back as LOCKED.
* At-most-once execution needs critical sections shorter than the lock's lifetime, results that are not lost to a
  failed write or a crash before it, and no release that arrives late and takes another client's lock. Each of the
  three is needed while the other two hold: `LateReleaseExecutesTwice`, `LostResultExecutesTwice`,
  `DelayedReleaseExecutesTwice`. From any state, a further execution can succeed exactly when some client is past
  its double check, or no result is stored and some client is on its way there (`FurtherSuccessExactly`); a stored
  result stops every client that has not yet passed its double check (`StoredResultStopsExecutions`).
* Between the two reads of a poll the result can be stored and the lock released. The waiting caller is then told
  that the lock expired without a result, although there is one (`WaiterMissesResult`, exactly when:
  `PollFailsExactly`).
* A cached entry under the empty string is never evicted, and the cache then grows without bound
  (`EmptyKeyOverflows`; a write breaks the bound exactly when: `CacheBoundExactly`).
* A local write that finds the log full during a pass shifts the snapshot indices (`IndicesStayExactly`), and a
  write recorded during the pass, or a snapshot entry that was to be retried, can then be lost without having
  reached the store, at every bound (`BoundLosesWrite`, `BoundLosesRetry`). The recorded writes all survive exactly
  when no step marks an index at or past the snapshot entries left, or finds only recorded writes to take
  (`RecordedSurviveExactly`); a snapshot entry survives exactly when the bound does not take it and no mark hits
  the place where it stands (`SnapshotEntrySurvivesExactly`).
* `GetVersioned` tests for a nil result before it tests the error, so a call without a reply reads as a missing
  key. The model keeps this; the strictly-newer test of the set script still protects the stored value
  (`NoLostUpdates`, `PassFollows`, `PassHighestWins`).
* With a queue threshold below two, requests alone never close an open breaker (`ClosableExactly`).

## Model

| member | source | states |
|---|---|---|
| `LockStore.SetNx` | control_plane/store/redis.go:60-74 | Succeeds exactly on an absent or expired key, after which the caller's value is the live one; otherwise the key is untouched. |
| `LockStore.CompareAndExpire` | control_plane/store/redis.go:76-132 | Succeeds exactly if the caller's value is the live one; never changes which value is live. |
| `LockStore.CompareAndDelete` | control_plane/store/redis.go:134-151 | Deletes the key exactly if the caller's value is live; anyone else's lock stays as it was. |
| `LockStore.RedisLocks.AcquireLock` | control_plane/store/redis.go:62-74 | Acts as SET NX on its own key and on no other. |
| `LockStore.RedisLocks.RenewLock` | control_plane/store/redis.go:78-132 | Acts as compare-and-expire on its own key and on no other. |
| `LockStore.RedisLocks.ReleaseLock` | control_plane/store/redis.go:135-151 | Acts as compare-and-delete on its own key and on no other. |
| `LockStore.RedisLocks.GetLockOwner` | control_plane/store/redis.go:153-163 | Reads the live value; an expired key has no owner. |
| `LeaderElection.RunKeepsInv` | control_plane/coordination/leader.go:119-325 | In every interleaving of electors, janitors, lost replies and late commands: each value is prepared under its own epoch, granted at most once, and every value kept, seen or waiting to be executed stems from a logged grant or attempt. |
| `ElectionSafety.DistinctEpochs` | control_plane/coordination/leader.go:191-232 | All acquire attempts of all electors carry distinct epochs no larger than the durable one; no two electors keep values of one epoch. |
| `ElectionSafety.AtMostOneHolder` | control_plane/coordination/leader.go:219-231 | At any moment at most one elector's kept value is the live lease. |
| `ElectionSafety.LeaderFence` | control_plane/coordination/leader.go:266-325 | With the flag set, the elector's epoch, the epoch in its value and the epoch of its context agree and the context is live; a stepped-down elector's context is cancelled; two leaders have different fencing epochs. |
| `ElectionSafety.OnlyTheObservedGrant` | control_plane/coordination/janitor.go:71-103 | A compare-and-delete or compare-and-expire, however late it executes, changes the lease exactly if the stored lease still is the very grant that was read: no later grant on the key is hit. |
| `ElectionSafety.GrantedOnce` | control_plane/coordination/leader.go:208-220 | Two grants never carry the same epoch, so a grant is known by its value. |
| `ElectionSafety.TwoLeadersReachable` | control_plane/coordination/leader.go:139-157 | A run in which two electors have the flag set, only one of them with the live lease. |
| `ElectionSafety.HoldingLeadersAreOne` | control_plane/store/redis.go:180-186 | In any run, where every leader's kept value is the live lease, as the store's ownership check tells, there is at most one leader. |
| `ElectionSafety.SecondLeaderExactly` | control_plane/coordination/leader.go:158-165 | Beside a leader, an idle follower's next attempt makes it a second leader if and only if no lease is live; otherwise it stays a follower and the lease is untouched. |
| `LeaseTenure.ConfirmedIsNewest` | control_plane/coordination/leader.go:219-248 | Only the newest grant is ever granted or renewed to an elector, and is then stored for a whole lifetime from now. |
| `LeaseTenure.LeaseLasts` | control_plane/store/redis.go:60-151 | A confirmed lease stays stored for its whole lifetime unless this very grant is deleted or the store flushed; deletions meant for another grant, however late, are without effect. |
| `LeaseTenure.ConfirmedLeaderHolds` | control_plane/coordination/leader.go:234-249 | A leader whose lease was confirmed less than a lifetime ago holds the live lease, unless that grant was deleted or the store flushed since. |
| `LeaseTenure.SuccessorWaits` | control_plane/coordination/leader.go:219-231 | A later grant, awaited or executed after its caller gave up, comes a whole lifetime after the last confirmation of an earlier one, unless that one was deleted or the store flushed; the earlier one is never confirmed afterwards. |
| `LeaseTenure.JanitorEvictsExactly` | control_plane/coordination/janitor.go:86-103 | A janitor condemns a leader's live lease if and only if the epoch it read exceeds the lease's or the stamp is five seconds past; the deletion then takes the lease and leaves the flag. |
| `LeaseTenure.NewestLeaseIsSafe` | control_plane/coordination/janitor.go:53-103 | In any run, a live lease of the durable epoch is condemned by no janitor until a lifetime and five seconds after its preparation, however long ago the janitor read the epoch. |
| `LeaseTenure.RunKeepsStamps` | control_plane/coordination/leader.go:208-215 | Every prepared value expires, by its own stamp, one lifetime after its creation. |
| `LeaseTenure.JanitorEvictsLiveLeader` | control_plane/coordination/janitor.go:86-93 | A run in which one attempt of a follower makes a janitor delete a healthy leader's lease. |
| `LeaderElector.LeaderElector.Acquire` | control_plane/coordination/leader.go:191-232 | New elector state and answer for each combination of epoch and lease replies: the epoch is kept even when the lease is refused, the value only when it is granted. |
| `LeaderElector.LeaderElector.Renew` | control_plane/coordination/leader.go:234-249 | Without a kept value the answer is a refusal, otherwise the reply. |
| `LeaderElector.LeaderElector.Release` | control_plane/coordination/leader.go:251-264 | Runs compare-and-delete with the kept value on the lock key, if there is one and the call reaches the store; other keys and the elector stay. |
| `LeaderElector.LeaderElector.BecomeLeader` | control_plane/coordination/leader.go:266-296 | Sets the flag and opens a context fenced with the current epoch. |
| `LeaderElector.LeaderElector.StepDown` | control_plane/coordination/leader.go:298-325 | Clears the flag and cancels the context of a leader; does nothing to a follower. |
| `LeaderElector.LeaderElector.OnTimer` | control_plane/coordination/leader.go:137-181 | One timer event: new elector, retry interval and error count for every combination of replies; when the next event comes is stated by `NextEventAfter`. |
| `LeaderElector.LeaderElector.Loop` | control_plane/coordination/leader.go:119-183 | The loop equals the fold of its timer events up to the shutdown; a leader told to stop has its own lease compare-and-deleted and keeps its flag. |
| `LeaderElector.RunStaysOnSchedule` | control_plane/coordination/leader.go:139-180 | In every run a leader with f errors since its last confirmation is 0, 1 or 3 thirds of the ttl past it, waiting 1, 2 or 4 thirds. |
| `LeaderElector.NextEventAfter` | control_plane/coordination/leader.go:167-180 | In every run, leader or follower, after f erring events in a row the next event comes min(2^f*(ttl/3), 10*ttl) later; after an event in which no call erred, granted or refused, exactly ttl/3 later. |
| `LeaderElector.AnsweredEventsTick` | control_plane/coordination/leader.go:120-180 | While all calls answer, the k-th event is at start + k*(ttl/3). |
| `LeaderElector.FollowerAsksWithinAThird` | control_plane/coordination/leader.go:158-177 | A follower whose calls all answer asks for the lease within ttl/3 of any moment, and leads from then on exactly if it is granted, with the value it asked with. |
| `LeaderElector.TransitionsAlternate` | control_plane/coordination/leader.go:266-325 | The transition counter is odd exactly while the elector leads. |
| `LeaderElector.LeaderConfirmedRecently` | control_plane/coordination/leader.go:120-180 | At every moment a leader last confirmed its lease at most 7*(ttl/3) ago; the interval stays within [ttl/3, 10*ttl]. |
| `LeaderElector.ThreeErrorsStepDown` | control_plane/coordination/leader.go:148-156 | Three renewal errors in a row fall exactly 1, 3 and 7 thirds after the last confirmation; the third ends the leadership and cancels the context. |
| `LeaderElector.FlagsOverlapBriefly` | control_plane/coordination/leader.go:119-183 | Once another grant follows the last confirmation seen by a running loop, that loop's flag is cleared within 4*(ttl/3), unless the confirmed grant was deleted or the store flushed in between. |
| `LeaderElector.AcquireFollowsProtocol` | control_plane/coordination/leader.go:158-165 | A follower's timer event with answered calls does to the elector what the protocol's steps do, granted or refused. |
| `LeaderElector.RenewFollowsProtocol` | control_plane/coordination/leader.go:139-147 | So does a leader's timer event with an answered renewal. |
| `LeaderElector.FailuresFollowProtocol` | control_plane/coordination/leader.go:148-174 | So do lost replies to the bump, the lease request and the renewal, the third in a row giving up. |
| `Janitor.LockJanitor.Clean` | control_plane/coordination/janitor.go:44-105 | A pass removes exactly the scanned, readable, decodable, non-epoch keys that are fenced or five seconds past their stamp and whose release did not fail. |
| `Janitor.CleanIsExact` | control_plane/coordination/janitor.go:65-103 | What was not scanned, could not be read, decoded or released, and every epoch key, stays; a lock of the newest epoch within its stamp survives; with no failing call no doomed scanned lock is left; a second pass changes nothing. |
| `VersionedStore.RedisHashes.SetVersioned` | control_plane/store/redis_versioned.go:19-45 | Writes and answers yes exactly if the key is missing or older; other keys stay. |
| `VersionedStore.RedisHashes.GetVersioned` | control_plane/store/redis_versioned.go:115-148 | Reads the stored value; a call without a reply reads as a missing key. |
| `VersionedStore.RedisHashes.CompareAndSetVersioned` | control_plane/store/redis_versioned.go:150-204 | Writes and answers yes exactly if the key is missing or at the expected version; other keys stay. |
| `VersionedStore.VersionsOnlyGrow` | control_plane/store/redis_versioned.go:27-44 | Under any interleaving of writers, a key stays, its version never decreases, and a value stored at a version is never replaced at it. |
| `VersionedStore.VersionsOnlyGrowBetween` | control_plane/store/redis_versioned.go:27-44 | The same between any two moments of a run. |
| `VersionedStore.RefusedExactly` | control_plane/store/redis_versioned.go:27-44 | A set is refused if and only if at some moment of the run, however long ago, the store held its version or a newer one. |
| `DesiredStates.RunKeepsInv` | control_plane/store/redis.go:317-378 | The inductive invariant: stored record, version and prepared calls agree in every interleaving. |
| `DesiredStates.NoLostUpdates` | control_plane/store/redis.go:317-378 | The stored record is the sequential replay of the successful calls, its hash version the starting version plus their number, its own version the hash version. |
| `DesiredStates.StoredIsLatest` | control_plane/store/redis.go:317-378 | After any run the stored status, error and check time are those of the last successful call, and the spec is that of the last successful upsert. |
| `DesiredStates.VersionStepsByOne` | control_plane/store/redis.go:321-338 | A step leaves the key alone or is a script that moves its version from v to v+1. |
| `DesiredStates.SucceedsIffUnchanged` | control_plane/store/redis.go:344-377 | A status call's script succeeds exactly if the record it read is still stored, an upsert's exactly if the version is still the one it took as read. |
| `DesiredStates.StatusReachesScriptExactly` | control_plane/store/redis.go:341-401 | A status call reaches its script if and only if the reader takes the content of the string that the versioned read returns, the record exists, and it has the expected version or none is expected. |
| `DesiredStates.QuotedTakesNoStatus` | control_plane/store/redis.go:380-401 | As written, with the string itself decoded into a record, no status call reaches its script in any run. |
| `Reconciliation.Count` | control_plane/resilience/reconciliation.go:121-127 | Success, skipped and failed add up to the number of entries. |
| `Reconciliation.CountersAreOutcomes` | control_plane/resilience/reconciliation.go:31-103 | Success counts the written entries, skipped those reconciled before or not newer, failed those too old or with a failing get or set. |
| `Reconciliation.OutcomeMeans` | control_plane/resilience/reconciliation.go:36-101 | An entry counts as too old beyond five minutes; it is retried exactly if unreconciled, fresh, and a call of its own fails; it is written exactly if also nothing as new is stored and its set answers. |
| `Reconciliation.PassReportsExactly` | control_plane/resilience/reconciliation.go:118-130 | A pass counts a failure if and only if some unreconciled entry was too old, had a failing get, or had a set it asked for fail or be refused. |
| `Reconciliation.EntryStaysExactly` | control_plane/resilience/reconciliation.go:107-116 | An entry is in the log after a pass if and only if it was unreconciled, not too old, and one of its calls failed. |
| `Reconciliation.SweepLeavesFailures` | control_plane/resilience/reconciliation.go:107-116 | The sweep leaves exactly the entries whose get or set failed, in order and unchanged. |
| `Reconciliation.PassOutcomes` | control_plane/resilience/reconciliation.go:35-105 | The outcome of entry i depends on the store as the entries before it left it. |
| `Reconciliation.PassAccounts` | control_plane/resilience/reconciliation.go:107-128 | For every mix of outcomes the counters add up to the total and the surviving log is exactly the failed entries. |
| `Reconciliation.PassHighestWins` | control_plane/resilience/reconciliation.go:58-94 | For every mix of failing, lost and answered calls, each key ends at the highest version among its store entry and the fresh pending writes the pass delivers; the store wins ties; a changed key holds exactly one of those writes. |
| `Reconciliation.PassWithoutErrors` | control_plane/resilience/reconciliation.go:58-94 | Without store errors that is the highest version among the store entry and all fresh pending writes of the key. |
| `Reconciliation.PassFollows` | control_plane/resilience/reconciliation.go:66-94 | Whatever fails, a pass only moves a key to a strictly newer version. |
| `Reconciliation.NoErrorsDrain` | control_plane/resilience/reconciliation.go:107-116 | A pass whose calls all answer leaves an empty log. |
| `DegradedMode.DropsFirstUnreconciled` | control_plane/resilience/degraded_mode.go:181-187 | Dropping the oldest removes the first unreconciled write and nothing else, or nothing if all are reconciled. |
| `DegradedMode.EntryAdvances` | control_plane/resilience/reconciliation.go:35-105 | One more entry adds one to the counter of its outcome and marks its index unless it was reconciled or is to be retried. |
| `DegradedMode.DegradedModeManager.constructor` | control_plane/resilience/degraded_mode.go:54-67 | Empty, available, both bounds 10000. |
| `DegradedMode.DegradedModeManager.MarkRedisUnavailable` | control_plane/resilience/degraded_mode.go:69-80 | Enters degraded mode when Redis was up; otherwise nothing. |
| `DegradedMode.DegradedModeManager.MarkRedisAvailable` | control_plane/resilience/degraded_mode.go:82-92 | Redis is up again; degraded mode ends if nothing else is down; nothing if it was up. |
| `DegradedMode.DegradedModeManager.MarkDBUnavailable` | control_plane/resilience/degraded_mode.go:94-105 | Enters degraded mode when the database was up; otherwise nothing. |
| `DegradedMode.DegradedModeManager.MarkDBAvailable` | control_plane/resilience/degraded_mode.go:107-117 | The database is up again; degraded mode ends if nothing else is down; nothing if it was up. |
| `DegradedMode.DegradedModeManager.CheckDegradedMode` | control_plane/resilience/degraded_mode.go:140-147 | Leaves degraded mode exactly when all dependencies are up. |
| `DegradedMode.DegradedModeManager.GetFromCache` | control_plane/resilience/degraded_mode.go:149-163 | Returns the cached value and refreshes only that entry's access time. |
| `DegradedMode.DegradedModeManager.FindOldest` | control_plane/resilience/degraded_mode.go:192-203 | The scan ends with a key of least last access, or the empty string for an empty cache. |
| `DegradedMode.DegradedModeManager.DropOldestUnreconciled` | control_plane/resilience/degraded_mode.go:181-187 | Changes the log by dropping the first unreconciled write, and nothing else. |
| `DegradedMode.DegradedModeManager.EvictOldest` | control_plane/resilience/degraded_mode.go:190-211 | A full cache gives up an entry of least last access, unless its key is the empty string. |
| `DegradedMode.DegradedModeManager.SetInCacheWithTTL` | control_plane/resilience/degraded_mode.go:171-237 | The whole new state: bound, eviction of a least recently used entry, stored value, counted size, next version, appended write. |
| `DegradedMode.DegradedModeManager.ClearCache` | control_plane/resilience/degraded_mode.go:239-246 | Empties the cache and its count; the log and the version stay. |
| `DegradedMode.DegradedModeManager.ReconcileEntry` | control_plane/resilience/reconciliation.go:35-104 | Outcome, store and mark for one snapshot entry, for every combination of staleness and failing calls. |
| `DegradedMode.DegradedModeManager.ReconcilePendingWrites` | control_plane/resilience/reconciliation.go:16-131 | Log and store are those of the pass function; the answer is nil if and only if no unreconciled entry was too old or had a failing call, and else the number of outcomes of each kind. |
| `DegradedMode.DegradedModeManager.MarkRedisAvailableWithReconciliation` | control_plane/resilience/reconciliation.go:139-153 | Runs a pass exactly on the change from down to up, after the flags are updated, and returns that pass's error; no error when no pass ran. |
| `DegradedRuns.RunsAreConsistent` | control_plane/resilience/degraded_mode.go:69-246 | Over every run of writes, reads, clears, Redis and database outages and passes: the size field counts the cache, within its bound if no key was empty; the log is within its bound with strictly increasing versions and nothing reconciled; each cached value is that of the newest local write to its key; degraded exactly while a dependency is down. |
| `DegradedRuns.PendingIsWrite` | control_plane/resilience/degraded_mode.go:222-233 | The pending write of version v carries key, value, lifetime and time of the v-th local write. |
| `DegradedRuns.AccessIsNewestUse` | control_plane/resilience/degraded_mode.go:149-163 | In every run a cached entry's access time is the clock of the newest write or read of its key since the last clear; a clear leaves no entry. |
| `DegradedRuns.EvictsLeastRecentlyUsed` | control_plane/resilience/degraded_mode.go:190-220 | A write takes a key out of the cache only if the cache is full, and then only the one whose newest use is the oldest. |
| `DegradedRuns.KeysStay` | control_plane/resilience/degraded_mode.go:190-246 | Nothing but a clear and a write to a full cache takes a key out of the cache. |
| `DegradedRuns.LogIsNewestWrites` | control_plane/resilience/degraded_mode.go:176-233 | Between passes the log is exactly the newest of its writes, as many as its bound allows: nothing is dropped below the bound. |
| `DegradedRuns.CacheBoundExactly` | control_plane/resilience/degraded_mode.go:190-220 | A write keeps the cache bound if and only if it is not the case that the cache is full, the oldest key is empty and the new key is absent. |
| `DegradedRuns.EmptyKeyOverflows` | control_plane/resilience/degraded_mode.go:205-209 | For every bound and every size, a run whose cache has that size: with the empty string as its oldest key nothing is evicted any more. |
| `DegradedRuns.RecoveryPublishesCache` | control_plane/resilience/reconciliation.go:66-101 | After any pass that delivers it, a cached key whose newest local write is pending, fresh and newer than the store has that write's value and version in the store, whatever happened to other entries. |
| `DegradedRuns.NewestWins` | control_plane/resilience/degraded_mode.go:222-233 | The pending entry of the newest local write is the one the highest-version rule selects. |
| `ConcurrentPass.RunKeepsLog` | control_plane/resilience/degraded_mode.go:176-233 | In every run the log stands in the order of its versions, and between passes nothing in it is reconciled. |
| `ConcurrentPass.PassKeepsInv` | control_plane/resilience/reconciliation.go:18-116 | With writes below the bound and other nodes interleaved, a marked snapshot entry was reconciled before, judged stale, or is covered by the store. |
| `ConcurrentPass.JudgedStaleWasOld` | control_plane/resilience/reconciliation.go:42-56 | An entry judged stale was more than five minutes old at some step of this very pass. |
| `ConcurrentPass.IndicesStay` | control_plane/resilience/reconciliation.go:97-101 | While a pass runs and no write reaches the bound, each snapshot index names the same write, and the writes recorded since follow in order. |
| `ConcurrentPass.PassLosesNothing` | control_plane/resilience/reconciliation.go:107-116 | At the end of a pass whose writes stay below the bound, every write recorded during it is in the log, unmarked and in order; a snapshot entry is gone only if some step of the pass found it too old or the store holds its version or a newer one. |
| `ConcurrentPass.IndicesStayExactly` | control_plane/resilience/degraded_mode.go:177-188 | A write during a pass keeps all snapshot indices if and only if the log is below its bound or no snapshot entry is unreconciled. |
| `BoundedPass.PassShifts` | control_plane/resilience/degraded_mode.go:177-188 | During a pass, however often the bound is reached, the log is what is left of the snapshot followed by recorded writes, all of them there and unmarked exactly if no step has lost one. |
| `BoundedPass.RecordedSurviveExactly` | control_plane/resilience/reconciliation.go:97-116 | Every write recorded during a pass is in the log after it if and only if no step marks an index at or past the snapshot entries left, nor finds the log full with only recorded writes to take. |
| `BoundedPass.SnapshotEntrySurvivesExactly` | control_plane/resilience/reconciliation.go:97-116 | A snapshot entry is in the log after the pass if and only if the bound has not taken it and no mark, its own or another entry's, has hit the place where it stood. |
| `BoundedPass.BoundLosesWrite` | control_plane/resilience/degraded_mode.go:182-187 | At every bound, a run in which a write recorded during a pass is gone after it without having reached the store. |
| `BoundedPass.BoundLosesRetry` | control_plane/resilience/reconciliation.go:59-64 | At every bound above one, a run in which a snapshot entry whose own get fails is gone after the pass without having reached the store. |
| `Idempotency.RunKeepsInv` | control_plane/store/redis_idempotency.go:41-207 | The inductive invariant of reliable runs: lock, owner, result, executions and every client's phase agree. |
| `Idempotency.AtMostOneExecution` | control_plane/store/redis_idempotency.go:144-207 | For any number of clients and any interleaving of a reliable run, at most one execution succeeds and every client that returns without error returns its response. |
| `Idempotency.AtMostOneExecutor` | control_plane/store/redis_idempotency.go:168-192 | At most one client is between a passed double check and the stored result. |
| `Idempotency.UndecodableLockExecutesNothing` | control_plane/store/redis_idempotency.go:73-78 | In a reliable run whose stored lock does not decode, no execution ever succeeds and no client returns a response. |
| `Idempotency.LateReleaseFreesLock` | control_plane/store/redis_idempotency.go:194-197 | A release that comes after the lock expired deletes another client's lock, since all carry the same owner. |
| `Idempotency.LateReleaseExecutesTwice` | control_plane/store/redis_idempotency.go:168-197 | A run with two successful executions when a critical section outlives its lock, although every result write reaches the store and no command is delayed. |
| `Idempotency.DelayedReleaseExecutesTwice` | control_plane/store/redis_idempotency.go:181-197 | A run with two successful executions when a release arrives after its caller gave up, although every critical section is in time and every result write reaches the store. |
| `Idempotency.LostResultExecutesTwice` | control_plane/store/redis_idempotency.go:192-206 | A run with two successful executions when a result write fails, and one when the client crashes before it, although every critical section is in time and no command is delayed. |
| `Idempotency.StoredResultStopsExecutions` | control_plane/store/redis_idempotency.go:180-192 | In every run, reliable or not, after a result is stored only clients already past their double check can still execute, each at most once. |
| `Idempotency.StoredResultIsReturned` | control_plane/store/redis_idempotency.go:41-54 | A client that asks for a stored result returns it: at its first read, at a poll, and after giving the lock back at its double check. |
| `Idempotency.PollFailsExactly` | control_plane/store/redis_idempotency.go:60-81 | A poll that has found no result fails if and only if no readable lock is live when it looks for one, whether or not a result is stored by then. |
| `Idempotency.WaiterMissesResult` | control_plane/store/redis_idempotency.go:115-124 | A reliable run in which a result is stored and a client that waited for it is told that the lock expired without one. |
| `Idempotency.FurtherSuccessExactly` | control_plane/store/redis_idempotency.go:144-207 | From any state, a path to one more successful execution exists if and only if some client has passed its double check and is not done executing, or no result is stored and some client is on its way there. |
| `IdempotentCall.IdempotencyKey.GetIdempotencyState` | control_plane/store/redis_idempotency.go:41-81 | The result wins over the lock; an error for a failing GET or a lock that does not decode. |
| `IdempotentCall.IdempotencyKey.StoreIdempotencyResult` | control_plane/store/redis_idempotency.go:85-106 | Ends as the protocol's store and release steps do; a failed or unseen write is followed by no release, and the response is returned all the same. |
| `IdempotentCall.IdempotencyKey.ExecuteIdempotent` | control_plane/store/redis_idempotency.go:144-207 | For all answers of the remote calls, an uninterrupted call leaves the keys and gives the outcome that the protocol's steps give; a call that finds the key locked ends as the thirty-second wait over its polls does. |
| `IdempotentCall.WaitReturnsResult` | control_plane/store/redis_idempotency.go:110-140 | A call that waits returns the result that a poll within thirty seconds reads after nothing but LOCKED readings; any other reading, or none, makes it fail. |
| `IdempotentCall.RetryReturnsFirst` | control_plane/store/redis_idempotency.go:156-160 | A retry after a call that returned a response, with its result written, returns the same response and executes nothing. |
| `IdempotentCall.ExecutesExactly` | control_plane/store/redis_idempotency.go:150-197 | An uninterrupted call adds an execution if and only if both keys are absent, every read and the acquisition answer, the lock decodes and the function returns. |
| `IdempotencyWait.WaitForIdempotencyResult` | control_plane/store/redis_idempotency.go:110-140 | Answers with the first reading that is not LOCKED if a poll before the deadline meets one; times out exactly when the next poll would be at or past it. |
| `IdempotencyWait.WaitFindsResult` | control_plane/store/redis_idempotency.go:115-129 | If a poll before the deadline reads a result after nothing but LOCKED readings, the wait answers that result at that poll. |
| `IdempotencyWait.WaitFindsNoResult` | control_plane/store/redis_idempotency.go:116-124 | A failing read and an absent record end the wait at that poll with an error of their own kind. |
| `IdempotencyWait.WaitTimesOut` | control_plane/store/redis_idempotency.go:115-139 | If every poll before the deadline reads LOCKED, the wait times out. |
| `IdempotencyWait.WaitIsDetermined` | control_plane/store/redis_idempotency.go:110-140 | The readings and the deadline leave the wait one outcome after one number of polls. |
| `IdempotencyWait.PollTimes` | control_plane/store/redis_idempotency.go:112-136 | The backoff reaches two seconds at the sixth poll; the thirty-second wait makes at most 19 polls. |
| `TaskOrder.LessIsLexicographic` | control_plane/scheduler/queue.go:14-31 | At one instant the comparator is the order by (truncated effective priority, deadline). |
| `TaskOrder.LessIsStrictWeak` | control_plane/scheduler/queue.go:14-31 | At one instant it is irreflexive and transitive, and so is its incomparability. |
| `TaskOrder.LeadSeparatesLevels` | control_plane/scheduler/queue.go:23-30 | Tasks two levels apart are in different buckets at every clock reading. |
| `TaskOrder.AlwaysLessExactly` | control_plane/scheduler/queue.go:19-30 | One task goes before another at every clock reading if and only if it leads by two levels (less a nanosecond), or does not trail and has the earlier deadline. |
| `TaskOrder.AgedTaskGoesFirst` | control_plane/scheduler/queue.go:15-30 | A task of priority P goes before every task of priority 0 or worse submitted at least 10*P+20 seconds later, whenever they are compared. |
| `TaskQueue.RootIsFirst` | control_plane/scheduler/queue.go:78-86 | The root of a heap goes before everything in it. |
| `TaskQueue.SiftUpStep` | control_plane/scheduler/queue.go:63-67 | A swap with the parent moves the only violation one level up. |
| `TaskQueue.SiftDownStep` | control_plane/scheduler/queue.go:69-76 | A swap with the first child moves the only violation one level down. |
| `TaskQueue.SiftDownEnds` | control_plane/scheduler/queue.go:69-76 | Where the place goes before its children, all is a heap again. |
| `TaskQueue.ThreadSafeQueue.Push` | control_plane/scheduler/queue.go:63-67 | Adds the task, whatever the clock does between comparisons; at a frozen clock it keeps the heap. |
| `TaskQueue.ThreadSafeQueue.Pop` | control_plane/scheduler/queue.go:69-76 | Takes out the root, whatever the clock does; at a frozen clock it keeps the heap; nothing on an empty queue. |
| `TaskQueue.ThreadSafeQueue.Peek` | control_plane/scheduler/queue.go:78-86 | The root, or nothing. |
| `TaskQueue.ThreadSafeQueue.PushDelayed` | control_plane/scheduler/queue.go:94-100 | Starts a timer bound to this queue object. |
| `TaskQueue.ThreadSafeQueue.FireTimer` | control_plane/scheduler/queue.go:97-99 | A timer pushes its task, once, to the queue object it was started on. |
| `TaskQueue.DrainSorts` | control_plane/scheduler/queue.go:69-76 | Draining a heap at a frozen clock yields its tasks, all of them, sorted by (level, deadline). |
| `TaskQueue.TasksConserved` | control_plane/scheduler/queue.go:37-76 | Over any run of pushes and pops with any clock readings no task is lost or duplicated. |
| `TaskQueue.SeparatedHeapStays` | control_plane/scheduler/queue.go:14-31 | A heap of tasks pairwise two levels apart stays a heap at every later and earlier reading. |
| `CircuitBreaker.CircuitBreaker.constructor` | control_plane/scheduler/circuit_breaker.go:46-55 | Closed, with the production defaults. |
| `CircuitBreaker.CircuitBreaker.ShouldAdmit` | control_plane/scheduler/circuit_breaker.go:57-94 | New state and answer for each state, load and clock reading; what they are is stated by the next three rows. |
| `CircuitBreaker.ClosedAdmitsExactly` | control_plane/scheduler/circuit_breaker.go:85-93 | A closed breaker admits, and stays closed, if and only if depth and saturation are not above their thresholds; else it refuses and opens at that clock reading. |
| `CircuitBreaker.OpenAdmitsExactly` | control_plane/scheduler/circuit_breaker.go:63-75 | An open breaker refuses every request until the cooldown is over and stays open; after it, it admits the first probe whatever the load. |
| `CircuitBreaker.HalfOpenAdmitsExactly` | control_plane/scheduler/circuit_breaker.go:69-83 | A half-open breaker admits while probes are left; then it admits, and closes, if and only if the queue is below half its threshold and the saturation below its own. |
| `CircuitBreaker.RecordsActExactly` | control_plane/scheduler/circuit_breaker.go:96-122 | Recorded results move nothing but a half-open breaker: a failure opens it anew, a success closes it once the probes are used up. |
| `CircuitBreaker.LightLoadIsAdmitted` | control_plane/scheduler/circuit_breaker.go:85-93 | A closed breaker that meets no request over a threshold stays closed and admits them all. |
| `CircuitBreaker.CircuitBreaker.RecordSuccess` | control_plane/scheduler/circuit_breaker.go:96-108 | Closes a half-open breaker whose probes are used up; otherwise nothing. |
| `CircuitBreaker.CircuitBreaker.RecordFailure` | control_plane/scheduler/circuit_breaker.go:110-122 | Opens a half-open breaker anew; otherwise nothing. |
| `CircuitBreaker.OpenUntilCooled` | control_plane/scheduler/circuit_breaker.go:63-67 | Between an opening and the next, the breaker is open since then or has cooled down by time. |
| `CircuitBreaker.NothingAdmittedWhileCooling` | control_plane/scheduler/circuit_breaker.go:63-93 | In every run with a clock that never goes back, an admission comes more than the cooldown after the latest opening. |
| `CircuitBreaker.TestCountCountsProbes` | control_plane/scheduler/circuit_breaker.go:64-75 | While half-open, the test count is the number of requests admitted in this episode, at most the limit. |
| `CircuitBreaker.ClosesAfterExactlyTheLimit` | control_plane/scheduler/circuit_breaker.go:69-80 | Each return from half-open to closed follows exactly testLimit admitted probes of that episode. |
| `CircuitBreaker.RecoveryProgress` | control_plane/scheduler/circuit_breaker.go:63-83 | Under calm conditions after the cooldown, the state is determined by how many requests have asked. |
| `CircuitBreaker.LowLoadCloses` | control_plane/scheduler/circuit_breaker.go:63-83 | From a cooled-down open state under sustained low load without failures the breaker is closed after testLimit+1 requests. |
| `CircuitBreaker.ClosableExactly` | control_plane/scheduler/circuit_breaker.go:76-83 | Some sequence of requests closes an open breaker if and only if the queue threshold is at least two. |
| `Sharding.XorUndoes` | control_plane/store/memory.go:242-249 | The modelled exclusive or is its own inverse. |
| `Sharding.LastByteDistinguishes` | control_plane/store/memory.go:242-249 | Two ids that differ only in their last byte never share a hash: multiply first, then xor. |
| `Sharding.PrefixReachesTwoShards` | control_plane/scheduler/scheduler.go:173-176 | For every shard count of two or more, two ids that differ only in their last byte can fall to different shards. |
| `Sharding.HashOfLetterA` | control_plane/store/memory.go:242-249 | The hash of the empty string and of "a" are the published FNV-1 values. |
| `MemoryStore.FnvHash` | control_plane/store/memory.go:241-249 | The loop computes the wrapped 32-bit hash. |
| `MemoryStore.MemoryStore.ListStatesByStatus` | control_plane/store/memory.go:208-226 | Lists exactly the shard's states of the status, each once; panics exactly for a count of zero width and some matching state. |
| `MemoryStore.ListingsPartition` | control_plane/store/memory.go:208-226 | The shard listings partition the states of a status: each is listed by exactly one shard, nothing else is listed. |
| `Scheduler.FnvHash` | control_plane/scheduler/scheduler.go:207-215 | The scheduler's loop computes the same hash as the memory store's. |
| `Scheduler.AcceptedIsRehydratedHere` | control_plane/scheduler/scheduler.go:105-194 | The instance that accepts a submission for a pending or drifted state, past all its tests, is the one and only instance whose rehydration attempts that state. |
| `Scheduler.EveryStateRehydratedOnce` | control_plane/scheduler/scheduler.go:256-275 | After every instance has rehydrated its shard of one store, each pending or drifted state has been attempted exactly once by exactly one of them, and nothing else has. |
| `Scheduler.ExactlyOneShardAccepts` | control_plane/scheduler/scheduler.go:173-194 | For every node some instance accepts it, and no two do. |
| `Scheduler.Scheduler.constructor` | control_plane/scheduler/scheduler.go:57-81 | Inactive, empty, at least one shard. |
| `Scheduler.Scheduler.Submit` | control_plane/scheduler/scheduler.go:105-205 | Accepted if and only if admissible by the fields, the breaker's answer and the shard; an accepted task is stamped and pushed, a rejected one leaves the queue alone; an inactive, frozen or draining scheduler changes neither queue nor breaker. |
| `Scheduler.AcceptedExactly` | control_plane/scheduler/scheduler.go:111-194 | The same written out: active, admission normal, canary or breaker's yes, mode normal or degraded with priority at most 5, queue at most 1000 or priority at most 0, own shard; and the breaker is asked for non-canaries only, and only while active and normal. |
| `Scheduler.StampKeepsTask` | control_plane/scheduler/scheduler.go:167-170 | An unset submit time becomes the clock, a set one stays, and nothing else of the task changes. |
| `Scheduler.Scheduler.Stop` | control_plane/scheduler/scheduler.go:217-225 | A new empty queue object; the old one and its timers stay as they were. |
| `Scheduler.Scheduler.ProcessNextTask` | control_plane/scheduler/scheduler.go:429-548 | Pops one task; dropped if and only if its node is recorded as quarantined; dispatched if and only if not, its named domain is below its limit, both limiters pass and fewer than 100 tasks are active; else pushed again after the delay of the test that failed; only a dispatch counts. |
| `Scheduler.RouteMeans` | control_plane/scheduler/scheduler.go:445-548 | The routing function has that meaning for all records, counters and limiters. |
| `Scheduler.Scheduler.RouteTask` | control_plane/scheduler/scheduler.go:445-548 | Quarantine, domain, node, tenant and budget tests in that order, each with its own delay. |
| `Scheduler.Scheduler.DomainSaturated` | control_plane/scheduler/scheduler.go:460-487 | A named domain is saturated at its limit of ten running tasks, or of one with more than five failures. |
| `Scheduler.Scheduler.Complete` | control_plane/scheduler/scheduler.go:550-566 | Gives back both counters; only an error in a named domain counts as its failure; a panic records none. |
| `Scheduler.CompletionMeans` | control_plane/scheduler/scheduler.go:556-565 | One active task and one of its named domain less; one failure more exactly for an error in a named domain. |
| `Scheduler.CompletionFollowsRuns` | control_plane/scheduler/scheduler.go:556-565 | A completion does to the counters what its step of the runs does. |
| `Scheduler.Scheduler.RehydrateQueue` | control_plane/scheduler/scheduler.go:227-277 | Attempts every pending and drifted state of the shard exactly once, none turned away for shard or leadership, and the queue grows by exactly the accepted tasks. |
| `Scheduler.RehydrationNamesItsState` | control_plane/scheduler/scheduler.go:262-270 | A rehydrated task names its own state, node and tenant, and two states never share a request. |
| `Scheduler.IterationFollowsRuns` | control_plane/scheduler/scheduler.go:429-548 | An uninterrupted iteration takes the steps of the runs one after the other: same counters, same place for the task. |
| `SchedulerRuns.RunConserves` | control_plane/scheduler/scheduler.go:429-566 | In every run each accepted task is counted once over all places, and each dispatched one is in flight or finished. |
| `SchedulerRuns.ExactlyOnePlace` | control_plane/scheduler/scheduler.go:196-225 | Every accepted task is in exactly one of queue or timer (of the present or a replaced queue), the worker's hand, in flight, finished, quarantine-dropped; nothing else is anywhere. |
| `SchedulerRuns.StopFreezesQueues` | control_plane/scheduler/scheduler.go:217-225 | What waits in the queues and timers at a stop waits there ever after. |
| `SchedulerRuns.StoppedTasksAreNeverDispatched` | control_plane/scheduler/queue.go:94-100 | No task waiting in a queue or delay timer at a stop is ever dispatched. |
| `SchedulerRuns.CountersMatch` | control_plane/scheduler/scheduler.go:460-566 | With one worker and completions at any point, activeTasks is the in-flight count (plus the one being launched) and at most 100; each named domain's counter is its in-flight count and at most 10. |
| `SchedulerRuns.FailingDomainRunsOneAtATime` | control_plane/scheduler/scheduler.go:460-487 | Once a domain has more than five failures at a moment between iterations, its in-flight count only ever rises from zero to one. |
| `SchedulerRuns.DispatchedWasFit` | control_plane/scheduler/scheduler.go:445-550 | Whatever is dispatched was found on a node not quarantined at the health check of that very iteration. |
| `SchedulerRuns.DroppedWasUnfit` | control_plane/scheduler/scheduler.go:445-457 | A task is dropped only by a health check that found its node quarantined. |
| `SchedulerRuns.QuarantinedIsDroppedExactly` | control_plane/scheduler/scheduler.go:434-457 | A popped task whose node's record does not change until its check is dropped if and only if the node was quarantined when it was popped. |
| `SchedulerRuns.FailuresAreCounted` | control_plane/scheduler/scheduler.go:559-563 | In every run the failure count of a named domain is the number of its tasks that completed with an error. |

## Left out

* Redis client behaviour: script loading and the NOSCRIPT retry, connection handling, JSON encoding, lifetimes on versioned values. Each script or command is one atomic step; stored values are abstract, since the versioned GET returns the stored JSON as a string.
* Expiry of idempotency results after 24 hours, and idempotency keys that are themselves JSON documents.
* 64-bit overflow of epochs, versions and times.
* Floating point: effective priorities are exact scaled integers, saturation is an exact quotient, an infinity or not a number. Reading a clock twice for one lease value is one reading.
* The uniqueness of the lease's request identifier; distinct epochs alone carry the proofs. Empty node and value strings are absent values.
* Postgres: only the atomic increment of the epoch row (control_plane/store/postgres.go:397-412) is used.
* LeaderElector.LeaderElector.Loop: the store is seen by the release only; the other calls are replies.
* JSON texts that decode to metadata without being written as such: the janitor's lock texts either decode or do not.
* Janitor.LockJanitor.Clean: one pass uninterrupted, with one reading of each clock; the interleaved steps are in the lease protocol.
* Two reconciliation passes at once on one manager, leader_reconciliation.go and reconciler.go.
* The sharding of the Redis store, which hashes the state identifier instead of the node identifier.
* Rate limiters: their answers are parameters. The poller, node health scoring, timeline, metrics and logging.
* More than one worker; the domain counter's unsynchronised increment (control_plane/scheduler/scheduler.go:547) is one atomic step.
* Scheduler.Scheduler.Submit: one atomic step, and the task is a value: that a task refused for its shard was already stamped is not visible.
* SchedulerRuns.CountersMatch: a panicking completion is a completion without failure, as in the source.
* The order in which Go visits a map: every order is allowed.
* IdempotentCall.IdempotencyKey.ExecuteIdempotent: one caller on untouched keys at one clock reading, what its polls find being a parameter; interleavings and time are in the protocol of module Idempotency.
* HTTP handlers, the dashboard, event publishing, authentication: input and output.
