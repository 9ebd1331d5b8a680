# Coordination protocols, verified

A Dafny model of the code that lets several processes of the platform share work
without stepping on each other, and proofs of what that code promises.

| file | what it models |
|---|---|
| `JobLock.dfy` | the lease lock for scheduled jobs: its contract, the Redis backend with its two scripts, the MongoDB backend |
| `LeaseRuns.dfy` | whole runs of that lock: any number of instances, ticks, heartbeats, releases, crashes |
| `Scheduler.dfy` | one job tick, the lock calls it makes, and the throws that can escape it |
| `IdempotencyModel.dfy`, `IdempotencyProofs.dfy`, `IdempotencyLimits.dfy`, `IdempotencyRepair.dfy` | replay of requests with an idempotency key: coalescing, the cross-instance lock, stored outcomes, where the guarantees end, and how a key comes free again |
| `StaleRecovery.dfy`, `RecoveryRuns.dfy`, `RecoveryBudget.dfy` | the stale-sync reaper: one pass and its counters; many reapers, workers and requesters at once; when its budget can be overrun |
| `MemoryCache.dfy`, `PrefixDelete.dfy` | the in-memory cache driver against a plain map; the Redis prefix delete |
| `Shutdown.dfy` | time-boxed shutdown, the shared drain budget, closing the HTTP server |
| `Backoff.dfy` | background reconnect |
| `CommentStripper.dfy`, `RouteScanner.dfy` | the route checker's comment stripper and call scanner |

`dafny verify dfyconfig.toml` checks everything.

How it is modelled:

- Time is an integer clock in milliseconds. A lease, an expiry or a budget that ends at `t`
  is over at `t`.
- Code that updates an object or a store is a class or a method, specified by a function of the
  old state; the run-level theorems are about those functions. Concurrency is a step system: one
  step for each atomic command (a Redis command or script, a document write, a cache call), any
  enabled step may come next, and a crash is a process that takes no further step.
- In the recovery runs a claim or renewal of the slot reaches the database within one lease of the clock
  reading it carries; every run-level recovery result assumes that.
- A command takes effect no earlier than the clock reading it carries. Redis measures expiry when
  the command takes effect; the MongoDB filters carry the caller's reading.
- A cache call may fail, or take effect and lose its reply.

What the proofs found, beyond what the documentation says:

- `src/jobs/lock.js:12-14` promises that a process never touches a lock it no longer owns, and promises
  it of the Redis scripts only; the contract at lines 21-27 makes no difference between the backends. The
  MongoDB release filters on the token alone, so an owner whose lease lapsed in place (and was not taken
  over) can still release it: it answers true and may hold a free lock until the tick fence
  (`MongoReleaseMeetsContractIff`, `MongoReleaseRevivesLapsedLease`). The at-most-once theorem holds all
  the same.
- A granted job lock is not always released. Throws that escape the tick before its release are rare
  but real: `sanitizeError` (`src/utils/sanitizeError.js:50`) throws on a thrown object that has no text,
  inside the catch block at `src/jobs/scheduler.js:262-269`. `ReleasedOnceIffNothingEscapes` gives the exact
  condition, `ReleasedOnceIffNoneRaising` the same from the places that can throw, `BareObjectIsNeverReleased` an input. The lease then lapses by itself.
- `src/jobs/stale-job-recovery.job.js:18-22` bounds recoveries by a budget. The count is read from
  the newest open run, which need not be the sync that holds the slot: a worker may have closed its run and
  died before freeing the slot, or a requester may have died before recording its run.
  `OverrunIff` says exactly when the budget can then be overrun, `UnrecordedSlotRestartsChain` does it for
  every budget, and `BoundedRecoveryChain` proves the bound for runs whose looks find their holders. What
  happens between a look and its reset does no harm (`ResetTakesTheSlotSeen`).
- Across instances one idempotency key can run its handler twice; `CanStillRunIff` says exactly for which
  requests once a success is stored, and `NoRunAfterStore` for which it cannot happen.
- Within one process two handlers of a key can run at once when the middleware fails open, as it does on
  authenticated routes (`src/middleware/auth.middleware.js:84`), and in every mode when a client leaves
  early: `close` settles the request while its handler runs on (`src/middleware/idempotency.middleware.js:313`).
  Otherwise they cannot (`HandlersMeetIff`, `OneHandlerPerProcess`).
- `src/server.js:84-88` says that the whole shutdown sequence fits its timeout. The steps fit the force-exit
  timer, but the wait for error reports after them can outlast it (`ShutdownProcess`, `SlowReportIsCutOff`).
- A user can be told that a sync was queued again when it was not (`AnnouncedButNotRequeuedIff`).
- A whole-line comment can escape the comment stripper when a block comment takes one of its slashes
  (`HiddenCallIsReported`).
- A job lease of one second or less is lost at the first heartbeat (`ShortLeaseIsLost`), and a longer one
  when recording the run takes too much of it (`PunctualRunKeepsLeaseIff`, `SlowRecordLosesLease`).

## Model

| member | source | states |
|---|---|---|
| `JobLock.RedisMeetsContract` | src/jobs/lock.js:39-52 | For every cell, token, lease and hold time, acquire, renew and release act on the live lease exactly as the contract in the module header asks: take it only when free, touch it only with the token that holds it. |
| `JobLock.MongoAcquireMeetsContractIff` | src/repositories/jobLock.repository.js:25-46 | The conditional upsert meets the same contract exactly when it is refused or the lease is at least 1 ms (it has no lower clamp, unlike Redis). |
| `JobLock.MongoRenewMeetsContractIff` | src/repositories/jobLock.repository.js:48-56 | The conditional renewal meets the contract exactly when it is refused or the lease is at least 1 ms. |
| `JobLock.MongoReleaseMeetsContractIff` | src/repositories/jobLock.repository.js:58-69 | The release filter does not look at the lease's end, so release meets the contract exactly when the caller's own lease has not lapsed in place. |
| `JobLock.MongoReleaseRevivesLapsedLease` | src/repositories/jobLock.repository.js:62-69 | A concrete lapsed owner whose late release takes a free lock again and shuts the next acquire out, where Redis refuses it. |
| `JobLock.RedisServer.Get` | src/jobs/lock.js:40 | A key past its expiry reads as absent. |
| `JobLock.RedisServer.SetNxPx` | src/jobs/lock.js:99 | Sets the key only when no live entry exists; otherwise nothing changes. |
| `JobLock.RedisServer.PExpire` | src/jobs/lock.js:41 | Moves the expiry of a live key and keeps its value; a missing key is left alone. |
| `JobLock.RedisServer.Del` | src/jobs/lock.js:50 | Removes the key; reports 1 only for a live one. |
| `JobLock.RedisLock.Acquire` | src/jobs/lock.js:96-101 | The whole new store and the answer are the Redis cell's acquire on the prefixed key; no other key changes. |
| `JobLock.RedisLock.Renew` | src/jobs/lock.js:102-106 | GET, compare, PEXPIRE compose to the atomic compare-and-extend the contract lemma speaks of. |
| `JobLock.RedisLock.Release` | src/jobs/lock.js:107-112 | GET, compare, then PEXPIRE with the remaining hold or DEL: the new store is the cell's release, with the hold time measured at the caller's clock. |
| `JobLock.JobLockCollection.Acquire` | src/repositories/jobLock.repository.js:25-46 | One document write: taken when absent or past its end, otherwise the duplicate key reads as not acquired. |
| `JobLock.JobLockCollection.Renew` | src/repositories/jobLock.repository.js:48-56 | One document write under token and running lease; other documents unchanged. |
| `JobLock.JobLockCollection.Release` | src/repositories/jobLock.repository.js:62-69 | One document write under the token alone: held to the hold time, or freed with its token cleared. |
| `LeaseRuns.OnlyLastGrantMatches` | src/jobs/lock.js:39-52 | In a state that satisfies the invariant, a renew or release that goes through carries the token of the newest grant: a key has at most one token that can act. |
| `LeaseRuns.ExtensionEnds` | src/jobs/lock.js:102-112 | A renewal ends the lease one lease from now; a release ends it exactly at the tick plus min(30000, lease), or at once when that is past or the run was manual. |
| `LeaseRuns.LastLeaseEndsLater` | src/jobs/scheduler.js:287-290 | After any successful renew or release the newest lease still covers its tick plus the fence. |
| `LeaseRuns.StepKeepsInv` | src/jobs/scheduler.js:187-218 | Every command of every instance (acquire, heartbeat, late heartbeat, release) on either backend keeps: fresh tokens, leases that never overlap, fenced ticks, and the stored cell being the newest lease. |
| `LeaseRuns.InvHolds` | src/jobs/scheduler.js:187-293 | That invariant holds in every state of every run from the empty store. |
| `LeaseRuns.GrantPersists` | src/jobs/lock.js:92-112 | A grant stays in the history with its token, tick and start; only its end moves. |
| `LeaseRuns.SecondGrantAfterFirstLease` | src/jobs/lock.js:66-112 | The lease history: when a second run is granted the lock, the first one's lease, with every renewal and hold it got, is over. |
| `LeaseRuns.NothingRunsBeforeTheFence` | src/jobs/scheduler.js:89-94 | Once a tick got the lock no run at all, scheduled, manual or a late older tick, gets it before the tick time plus min(30000, lease). |
| `LeaseRuns.AtMostOncePerTick` | src/jobs/scheduler.js:287-290 | At most once per tick: over every run of any number of instances with crashes anywhere, two grants to one tick within its fence are the same grant. |
| `LeaseRuns.SupersededTokenIsRefused` | src/jobs/lock.js:39-52 | Renew and release with a token that is not the newest grant's answer false and leave the store unchanged. |
| `LeaseRuns.UnreleasedLockComesFree` | src/jobs/lock.js:92-101 | A holder that never releases: after its last grant or renewal, with nothing going through since, the next acquire is granted if and only if one lease has passed. |
| `LeaseRuns.ManualReleaseFreesAtOnce` | src/jobs/scheduler.js:287-290 | Over every run: once a manual run has released, and nothing has gone through since, the next acquire is granted if and only if it takes effect no earlier than the release. |
| `LeaseRuns.ReleasedTickComesFree` | src/jobs/scheduler.js:287-290 | Over every run: once tick T has released, and nothing has gone through since, the next acquire is granted if and only if it takes effect at or after both the release and T + min(30000, lease); with the exact instant on each backend when the release's clock reading is older than its effect. |
| `LeaseRuns.FollowingTickRuns` | src/jobs/scheduler.js:89-94 | It still runs every following tick: a tick at least 30 seconds later that fires after the release is granted the lock. |
| `LeaseRuns.LeaseHeldIffStreaksBridged` | src/jobs/scheduler.js:241-252 | For runs of any length and any pattern of lost heartbeats, and whatever time the lease has used up before the first beat is armed, the lease is held at every beat if and only if every streak of missed beats fits into it. |
| `LeaseRuns.PunctualRunKeepsLeaseIff` | src/jobs/scheduler.js:224-252 | The beats are counted from when the run has been recorded: a run that renews on schedule keeps its lease if and only if the record took less than the lease minus one beat. |
| `LeaseRuns.HeartbeatKeepsLease` | src/jobs/scheduler.js:224-252 | When two beats fit in the lease after the record, it survives every single missed beat, for runs of any length. |
| `LeaseRuns.ThreeSecondsBridgeOneMiss` | src/jobs/scheduler.js:252 | From three seconds on they fit, with up to a third of the lease for the record. |
| `LeaseRuns.SlowRecordLosesLease` | src/jobs/scheduler.js:224-252 | A concrete loss: a lease of 1500 ms and a record that takes 600 ms. |
| `LeaseRuns.ShortLeaseIsLost` | src/jobs/scheduler.js:252 | With a lease of one second or less the first beat comes too late (the interval is at least 1000 ms). |
| `Scheduler.Scheduler.RunJob` | src/jobs/scheduler.js:187-218 | A tick ends skipped, with its outcome, or rejected, for every combination of what its calls answer, throw or reject with; it rejects if and only if some expression before the release, or the log of a failed release, throws; an ordinary tick ends failed when its handler throws and succeeded otherwise, with exactly one release; and the in-flight set is as before even when the tick rejects. |
| `Scheduler.Scheduler.Execute` | src/jobs/scheduler.js:220-293 | With the nested try, catch and finally blocks of the source: the release (held to the tick plus min(30000, lease), or not at all for a manual run) is attempted exactly when nothing thrown escapes before it; the execution rejects exactly when something escapes, the failing log of a failed release included. |
| `Scheduler.Scheduler.RunHandler` | src/jobs/scheduler.js:255-272 | The heartbeat runs while the handler does; a handler that throws ends the tick as failed exactly when the thrown value can be sanitised, counted, logged and reported, and otherwise its catch block throws in turn. |
| `Scheduler.TickReleases` | src/jobs/scheduler.js:187-293 | A tick releases its own token once if nothing thrown escapes, and no other token ever. |
| `Scheduler.ReleasedOnceIffNothingEscapes` | src/jobs/scheduler.js:187-293 | Over every history of ticks of a process: a granted token is released exactly once if nothing thrown escaped its tick, and never otherwise. |
| `Scheduler.BareObjectIsNeverReleased` | src/utils/sanitizeError.js:46-54 | A concrete failing input: a handler that throws an object that has no text makes the catch block throw, and its lock is left to lapse. |
| `Scheduler.NothingEscapesIff` | src/jobs/scheduler.js:224-285 | Of all the expressions a tick evaluates before its release, in order (the log of a failed record, the property reads and the text of sanitizeError, the counts, the stack, the report, the metrics, the finish call and its log), none throws if and only if nothing escapes the tick. |
| `Scheduler.CatchBlockRaisesIff` | src/jobs/scheduler.js:262-269 | The catch block around a handler comes to its end exactly for a thrown value whose code, message, counts and stack can be read and that has a text, if the report does not throw. |
| `Scheduler.ReleasedOnceIffNoneRaising` | src/jobs/scheduler.js:187-293 | Over every history of ticks: a granted token is released at most once, and exactly once if and only if none of those expressions throws. |
| `Scheduler.OrdinaryTickReleases` | src/jobs/scheduler.js:220-293 | A granted tick in which only ordinary values are thrown, and reports, metrics and the finish call do not throw at once, releases its token exactly once, whether its handler fails or not (`RunJob` states the outcome: failed or succeeded). |
| `Scheduler.TickCallsAre` | src/jobs/scheduler.js:195-290 | The lock calls of a tick: one acquire; renewals with its lease, at most one a beat, and only under the granted token; and last, at most one release, which carries the tick time plus min(30000, lease), or no hold for a manual run. |
| `IdempotencyProofs.SecondFinishIsNoOp` | src/middleware/idempotency.middleware.js:175-178 | Giving a claim back twice changes nothing, whoever has claimed the key since. |
| `IdempotencyProofs.StepIsMoveOrEnd` | src/middleware/idempotency.middleware.js:160-233 | Every step of a request that holds its process's claim moves only that request, and gives the claim back exactly when the request ends. |
| `IdempotencyProofs.StepKeepsClaims` | src/middleware/idempotency.middleware.js:163-178 | Every step, with any cache failure or crash, keeps `inflight` naming exactly the request that holds its process's claim, and waiters waiting on one of their own process. |
| `IdempotencyProofs.OneClaimPerProcess` | src/middleware/idempotency.middleware.js:163-178 | In every run, with any cache failures and crashes, at most one request of a process holds the key's claim. |
| `IdempotencyProofs.RunStaysProtected` | src/middleware/idempotency.middleware.js:205-211 | When the middleware fails closed, or no guarding cache call fails, no request of any run comes to run its handler unprotected. |
| `IdempotencyProofs.OneHandlerPerProcess` | src/middleware/idempotency.middleware.js:160-233 | In a calm run (no client leaves before its response is over, and the middleware fails closed or no guarding cache call fails) a process runs at most one handler for a key; handlers that run unprotected or behind a closed response are counted in. |
| `IdempotencyProofs.RunStaysAttached` | src/middleware/idempotency.middleware.js:301-314 | While clients stay, no handler of any run outlives its response. |
| `IdempotencyProofs.CalmRunsOnlyHandle` | src/middleware/idempotency.middleware.js:160-233 | In a calm run the handlers that run are those that hold their process's claim. |
| `IdempotencyLimits.HandlersMeetIff` | src/middleware/idempotency.middleware.js:205-211 | While clients stay, two handlers of one process can run for a key at once if and only if the middleware fails open, the mode that authenticated routes use; with a client that leaves early they can in every mode, without any cache failure. |
| `IdempotencyLimits.DisconnectMeetsSecond` | src/middleware/idempotency.middleware.js:313 | A concrete run without cache failures, failing closed or not: a client leaves, its request gives the lock and the claim back, and the next request runs a second handler beside the first. |
| `IdempotencyProofs.StepKeepsLock` | src/middleware/idempotency.middleware.js:188-204 | INCR, the bounding SET, DEL, the orphan repair and lost replies all keep: at most one holder, and a counter that cannot expire before the holder's span is used up. |
| `IdempotencyProofs.OneHolderAcrossInstances` | src/middleware/idempotency.middleware.js:188-264 | Mutual exclusion across instances: in every interleaving, the repair's TTL check and late SET included, at most one request is between winning the lock and its DEL, if no such span outlives the lock's TTL. |
| `IdempotencyProofs.EncodeDecodes` | src/middleware/idempotency.middleware.js:213-248 | What is stored for an outcome reads back as that outcome (encrypted or empty body), with its fingerprint. |
| `IdempotencyProofs.StepKeepsMemory` | src/middleware/idempotency.middleware.js:213-224 | A remembered success stays readable until its TTL under every step of every request, later stores included. |
| `IdempotencyProofs.StoreOnRun` | src/middleware/idempotency.middleware.js:213-224 | A store that took effect leaves a readable outcome with its full TTL. |
| `IdempotencyProofs.ReplayPathHolds` | src/middleware/idempotency.middleware.js:182-186 | While a success is remembered, no request outside those already past their read leaves the replay path, over whole runs. |
| `IdempotencyProofs.NoRunAfterStore` | src/middleware/idempotency.middleware.js:182-223 | Replay across instances: a request whose first read comes after the store of a success never runs its handler while the outcome lives. |
| `IdempotencyProofs.ClaimedStepKeepsSettled` | src/middleware/idempotency.middleware.js:239-287 | In a process whose success is stored only reads, replays and the storing request's own DEL remain, and each read that succeeds leads to the stored reply. |
| `IdempotencyProofs.SettledHolds` | src/middleware/idempotency.middleware.js:160-233 | That holds along every continuation until the outcome expires. |
| `IdempotencyProofs.NoHandlerStarts` | src/middleware/idempotency.middleware.js:160-233 | Along every continuation of a settled state, whoever runs a handler ran it before. |
| `IdempotencyProofs.ExactReplayInOneProcess` | src/middleware/idempotency.middleware.js:160-314 | Replay in one process: after a storable success no handler starts for the key (one whose client had left, or that ran unprotected, may still be running; after a calm run there is none), and every later request gets exactly the stored status, headers and body, or 422 when its fingerprint differs; the only other answer is 503, and then one of that request's own reads failed. |
| `IdempotencyProofs.ProtocolStepDecreases` | src/middleware/idempotency.middleware.js:163-167 | Every protocol step lowers the measure: unserved requests first, then what each may still do meanwhile. |
| `IdempotencyProofs.EnvironmentKeepsMeasure` | src/middleware/idempotency.middleware.js:163-178 | The clock, arrivals, crashes and repeated finishes never raise that measure. |
| `IdempotencyProofs.BoundedProtocolRun` | src/middleware/idempotency.middleware.js:160-233 | With n requests for a key the protocol takes at most 14 n^2 + 13 n steps in every run, with the clock, arrivals, crashes, cache failures and repeated finishes interleaved at will. |
| `IdempotencyProofs.QuietMeansServed` | src/middleware/idempotency.middleware.js:163-178 | In every run that has no protocol step left to take, every request is served: it has its answer, or its process crashed. No waiter is left behind. |
| `IdempotencyProofs.NobodyIsStuck` | src/middleware/idempotency.middleware.js:163-178 | While a request is unserved, some request of its process can step: no waiter waits for a claim that nobody will release. |
| `IdempotencyProofs.EveryRequestCanBeServed` | src/middleware/idempotency.middleware.js:160-233 | From every state that keeps the claims in order some schedule of protocol steps serves every request. |
| `IdempotencyLimits.EarlyReaderCanStillRun` | src/middleware/idempotency.middleware.js:188-204 | A request that read "nothing stored" and finds the lock free runs its handler, whatever was stored meanwhile: the outcome is not read again when INCR answers 1. |
| `IdempotencyLimits.SuccessIsStored` | src/middleware/idempotency.middleware.js:213-232 | A handler that answers with a storable success leads, by three steps, to a remembered outcome and a free lock. |
| `IdempotencyLimits.TwoRunsAcrossInstances` | src/middleware/idempotency.middleware.js:182-204 | A concrete run in which two instances both run the handler of one key, the second after the first one's success was stored. |
| `IdempotencyLimits.CanStillRunIff` | src/middleware/idempotency.middleware.js:182-204 | In every reachable state with a success stored and the lock free, a request's handler can still come to run if and only if the request is past its read of the cache, runs already, or, failing open, has a cache call to come that can fail. |
| `IdempotencyLimits.OverrunAdmitsSecondHolder` | src/middleware/idempotency.middleware.js:188-204 | The span bound is tight: a handler that runs for exactly the lock's TTL can meet a second holder. |
| `IdempotencyRepair.InProgressBoundsLock` | src/middleware/idempotency.middleware.js:190-200 | In every run: once a request has been answered 409 with its cache calls done, the lock it met is gone or ends within one lock TTL, whoever left it without an expiry. |
| `IdempotencyRepair.OrphanedLockIsRepaired` | src/middleware/idempotency.middleware.js:250-264 | The orphan repair repairs: after such a 409, if nobody wins the lock in between, one lock TTL later the next request for the key runs its handler, unless a read finds an outcome; with any steps, crashes and failures of others in between. |
| `IdempotencyRepair.SoundLockIsNotProlonged` | src/middleware/idempotency.middleware.js:255-264 | A lock that has an expiry keeps it under any number of contenders: the repair never prolongs a sound lock. |
| `IdempotencyRepair.RetryGetsThrough` | src/middleware/idempotency.middleware.js:160-264 | No key is locked out for ever: in every reachable state with nothing to replay, either the next fresh request runs its handler, or it gets 409 and one sent a lock TTL later does. |
| `IdempotencyRepair.HolderLeavesLockFree` | src/middleware/idempotency.middleware.js:205-232 | Whoever stops holding the lock, its cache calls done, leaves it free and has given its claim back. |
| `IdempotencyRepair.RetryAfterFailure` | src/middleware/idempotency.middleware.js:213-232 | After a response that is not remembered the lock is given back, and the next request of the process runs its handler at once. |
| `IdempotencyRepair.FoundIsReplayed` | src/middleware/idempotency.middleware.js:182-195 | A read that finds an outcome, at first or after losing the lock race, is answered from it: the stored status, headers and body, or 422 when both requests carry fingerprints and they differ; lock and outcome stay as they are. |
| `IdempotencyRepair.RememberedExactlyForTtl` | src/middleware/idempotency.middleware.js:219-223 | In every run: a success is found by reads exactly until its TTL after the store is over, unless another store replaces it. |
| `IdempotencyRepair.UndecryptableEntryIsAbsent` | src/middleware/idempotency.middleware.js:235-248 | An entry whose body cannot be decrypted keeps nobody from running. |
| `IdempotencyRepair.StoredExactly` | src/middleware/idempotency.middleware.js:308-337 | Exactly what is remembered: a finished response with a status from 200 to 299 and a text of at most 65536 bytes, with its body and of its headers the content type and the cache control; never a binary body, none at all, or a response that was closed. |
| `IdempotencyRepair.BytesAddUp` | src/middleware/idempotency.middleware.js:310 | The size is the sum over the characters, one to four bytes by their code. |
| `IdempotencyRepair.CacheHoldsSealedOutcomes` | src/middleware/idempotency.middleware.js:213-224 | In every run whatever lies in the cache is such an outcome, its body encrypted unless it is empty. |
| `StaleRecovery.ReasonAnnouncesRequeue` | src/jobs/stale-job-recovery.job.js:41-52 | The text speaks of a new attempt exactly when one is planned. |
| `StaleRecovery.AnnouncedButNotRequeuedIff` | src/jobs/stale-job-recovery.job.js:90-116 | For a candidate that was reset: a sync that is queued again is always announced, and one is announced that is never queued again if and only if a replay was planned and closing a run or the re-queue itself threw. |
| `StaleRecovery.CloseRuns` | src/jobs/stale-job-recovery.job.js:100-108 | Counts the runs closed before the first close that throws, and says whether one did. |
| `StaleRecovery.RecoverStaleConnectors` | src/jobs/stale-job-recovery.job.js:77-127 | For every list of candidates and every pattern of lookup, reset, close and re-queue failures, each counter is the number of candidates that met the fates it stands for, the abandoned runs are those closed for the candidates that were reset, and scanned = requeued + failed + refused by the conditional reset. |
| `StaleRecovery.TallySplits` | src/jobs/stale-job-recovery.job.js:78-127 | Disjoint fates are counted separately. |
| `StaleRecovery.ReaperConserves` | src/jobs/stale-job-recovery.job.js:78-127 | Conservation: scanned = requeued + failed + refused by the conditional reset, and requeued + failed exceeds recovered by exactly the failed lookups. |
| `StaleRecovery.CountersAre` | src/jobs/stale-job-recovery.job.js:80-127 | The counters on what the calls answered: re-queued are the candidates that were reset, replayable, within the budget, with every close and the re-queue gone through; recovered those whose reset took; failed the rest of those and the ones with a lookup or reset that threw; refused resets count nowhere. |
| `StaleRecovery.AbandonedAre` | src/jobs/stale-job-recovery.job.js:100-108 | Counted as abandoned are exactly the runs still open, up to the first close that throws. |
| `RecoveryRuns.NewestOpen` | src/repositories/syncRun.repository.js:128-133 | A run that is open, where there is one. |
| `RecoveryRuns.LookFindsHolderIff` | src/jobs/stale-job-recovery.job.js:84-86 | A look finds the sync that holds the slot if and only if that sync's run is recorded and open and no run recorded after it is. |
| `RecoveryRuns.ResetOnlyOwnEpisode` | src/repositories/connector.repository.js:164-169 | A conditional reset succeeds only on the very sync the reaper looked at, and only if its lease was already past at the look. |
| `RecoveryRuns.ResetKeepsInv` | src/repositories/connector.repository.js:160-169 | The reset keeps the recovery invariant: the sync it displaces is that reaper's alone to recover. |
| `RecoveryRuns.RequeueKeepsInv` | src/services/connector.service.js:1251-1271 | A re-queue claims the slot for a run of the next attempt that alone displaces its predecessor; the run is recorded later, or never. |
| `RecoveryRuns.ManualKeepsInv` | src/services/connector.service.js:1137-1159 | A manual sync claims the slot with a lease beyond every reaper's pass-wide clock, before its run is recorded. |
| `RecoveryRuns.StatusStepKeepsInv` | src/services/connector.service.js:1161-1186 | Recording a claimed run, however late, and closing runs keep the invariant. |
| `RecoveryRuns.SlotStepKeepsInv` | src/repositories/connector.repository.js:135-148 | Lease renewals, slot releases and the clock keep the invariant. |
| `RecoveryRuns.LookKeepsInv` | src/jobs/stale-job-recovery.job.js:84-88 | A look at any slot, recorded or not, keeps the invariant. |
| `RecoveryRuns.StepKeepsInv` | src/jobs/stale-job-recovery.job.js:80-126 | Every step of every reaper, worker and requester keeps the invariant. |
| `RecoveryRuns.InvHolds` | src/jobs/stale-job-recovery.job.js:64-128 | The invariant holds along every run. |
| `RecoveryRuns.RenewedSyncIsNotReset` | src/repositories/connector.repository.js:135-140 | A renewed sync is safe from the reaper, in every run: while the slot is neither freed nor claimed again and later renewals reach as far, a reaper whose pass began before the renewed lease ends leaves slot and runs as they are, whether it looked before or after the renewal. |
| `RecoveryRuns.LiveSyncKeepsItsSlot` | src/repositories/connector.repository.js:160-169 | From every reachable state: while the clock has not passed the end of its lease, no reaper, re-queue or manual sync takes the slot of a sync, unless its own worker gives it up or shortens the lease. |
| `RecoveryRuns.SlotIsLostIff` | src/repositories/connector.repository.js:68-108 | After a claim (one lease from its stamp) or a renewal, and left alone since, a reset goes through if and only if its pass began when the lease was over, and a new claim if and only if its stamp lies there. |
| `RecoveryRuns.UnleasedSlotIsLostIff` | src/repositories/connector.repository.js:71-72 | A sync in flight without a lease counts from its request time: lost one lease after it, or at once where that is missing too. |
| `RecoveryRuns.ReleasedSlotIsFree` | src/repositories/connector.repository.js:142-148 | A slot that was given up stays free until it is claimed: no reset goes through, and the first claim does. |
| `RecoveryRuns.SpentSyncIsNotRequeued` | src/jobs/stale-job-recovery.job.js:88-120 | A sync that cannot be replayed, or whose budget is spent, is reset but never re-queued by its reaper, in every continuation. |
| `RecoveryRuns.RecordsHold` | src/repositories/syncRun.repository.js:102-115 | In every run: a run is closed only after it was recorded, and recorded once. |
| `RecoveryRuns.OldDataIsRefused` | src/jobs/stale-job-recovery.job.js:92-97 | In every run a reaper whose slot has changed hands since it looked, or was not lapsed then, changes nothing with its reset. |
| `RecoveryRuns.ResetTakesTheSlotSeen` | src/jobs/stale-job-recovery.job.js:84-97 | In every run, whatever happens between a look and its reset: a reset that takes a slot takes it from the sync that held it at the look, which had lapsed by then. |
| `RecoveryRuns.RequeuesContinueIff` | src/jobs/stale-job-recovery.job.js:110-113 | In every run: every re-queue recovers the very sync it displaced if and only if every look that led to a re-queue had found the sync that held the slot. |
| `RecoveryRuns.CountIsTrue` | src/jobs/stale-job-recovery.job.js:85-86 | As long as those looks found their holders, the stored attempt number is the true number of recoveries behind a sync. |
| `RecoveryRuns.ChainNeverForks` | src/jobs/stale-job-recovery.job.js:110-117 | A recovery chain never forks: each sync that lost its slot is re-queued by at most one reaper. |
| `RecoveryRuns.RecoveriesUpTo` | src/jobs/stale-job-recovery.job.js:85-88 | A chain holds at most m recoveries within depth m of its root. |
| `RecoveryRuns.BoundedRecoveryChain` | src/jobs/stale-job-recovery.job.js:64-128 | In every run a displaced sync is re-queued at most once; when every look that led to a re-queue had found its holder, a sync is re-queued, through its whole chain, at most `maxRecoveries` times. |
| `RecoveryBudget.PassPlays` | src/jobs/stale-job-recovery.job.js:80-121 | One undisturbed pass over a lapsed slot (begin, look, reset, close what is open, re-queue, record) is an orderly run of the step system that leads to the stated state. |
| `RecoveryBudget.OrderlyInvHolds` | src/jobs/stale-job-recovery.job.js:84-121 | Along every continuation in which the syncs claimed from now on are recorded and stay open until the next look, each new count is true, or as far off as a look at the present holder is. |
| `RecoveryBudget.OverrunIff` | src/jobs/stale-job-recovery.job.js:84-88 | Exactly when the budget fails, in every reachable state with a sync in flight and nobody between look and re-queue, for every budget: over all such continuations, with any users, workers, reapers and crashes, some sync gets more than `maxRecoveries` recoveries behind it if and only if a look counts fewer recoveries than truly lie behind the sync that holds the slot. |
| `RecoveryBudget.FoundHolderKeepsBudget` | src/jobs/stale-job-recovery.job.js:84-88 | When every look so far found its holder and the next one does, no such continuation overruns the budget. |
| `RecoveryBudget.UnrecordedSlotRestartsChain` | src/jobs/stale-job-recovery.job.js:84-86 | For every budget of at least one, a run opened by its only manual sync, in which a worker closes its run and dies before freeing the slot, re-queues that sync once more than the budget allows. |
| `MemoryCache.ViewOfView` | src/cache/memory.js:55-57 | The live view only loses entries as time goes on. |
| `MemoryCache.PurgedIsLive` | src/cache/memory.js:65-70 | Purging a key never changes what a reader may see, now or later. |
| `MemoryCache.StepActsOnLiveView` | src/cache/memory.js:76-192 | get, set, ttl, setIfAbsent, both halves of getOrSet, del and delByPrefix leave the same live view for ever after, and answer as on the live view exactly unless they are a delete that finds an expired entry, which it counts. |
| `MemoryCache.CountFollowsViewIff` | src/cache/memory.js:157-170 | The count of delByPrefix agrees with the live view exactly when no expired entry has the prefix. |
| `MemoryCache.LazyPurgeIsInvisible` | src/cache/memory.js:55-192 | Over every history with a clock that never goes back, other operations between the halves of a getOrSet included, each answer of the lazily purged driver is that of a plain map without expired entries, exactly unless it is a delete that finds an expired entry; and that disturbs no later answer. |
| `MemoryCache.TtlReportsRemaining` | src/cache/memory.js:109-123 | ttl right after set with s seconds is s; it is positive exactly for a live entry with an expiry. |
| `MemoryCache.WrittenIsReadBack` | src/cache/memory.js:76-192 | Over every history: after a set, a successful setIfAbsent or a fill, and until the key is written or deleted, get and getOrSet give the value for ever if its TTL is absent or not positive, and for s seconds exactly until 1000 * s ms after the write, then nothing; setIfAbsent, ttl (rounded up to a second) and del answer accordingly. |
| `MemoryCache.DeletedIsGone` | src/cache/memory.js:101-170 | Over every history: what is deleted, by its key or by a prefix, reads as absent until it is written again. |
| `MemoryCache.IncrementsAddUp` | src/cache/memory.js:125-139 | Any number of increments add up, from 0 for an absent key or a null; the expiry is kept, no other key changes, and a value without a number stays. |
| `MemoryCache.DelAnswerFollowsViewIff` | src/cache/memory.js:101-107 | The answer of del agrees with the live view exactly when no expired entry lies at the key. |
| `MemoryCache.IncrementActsOnLiveViewIff` | src/cache/memory.js:125-139 | increment acts on the live view exactly when no expired entry lies at the key. |
| `MemoryCache.MemoryCache.Get` | src/cache/memory.js:76-84 | Purges and reads the prefixed key; an empty key throws and changes nothing. |
| `MemoryCache.MemoryCache.Set` | src/cache/memory.js:86-99 | Stores the value; a reader sees it exactly until 1000 * ttlSec ms later, or for ever when ttlSec is absent or not positive. |
| `MemoryCache.MemoryCache.Del` | src/cache/memory.js:101-107 | Removes the key and reports whether an entry was stored, live or not. |
| `MemoryCache.MemoryCache.Ttl` | src/cache/memory.js:109-123 | -2, -1 or the seconds left, deleting an entry whose time is up. |
| `MemoryCache.MemoryCache.Increment` | src/cache/memory.js:125-139 | Adds to the stored number and keeps its expiry; throws, changing nothing, when the sum is not finite. |
| `MemoryCache.MemoryCache.SetIfAbsent` | src/cache/memory.js:145-155 | Stores and answers true exactly when no live entry is there; what it stores is seen for as long as what set stores. |
| `MemoryCache.MemoryCache.GetOrSet` | src/cache/memory.js:172-192 | Returns the live value, or, after the wait for the factory and on whatever the store has become by then, stores what it made, timed from then; a null is returned but not stored. |
| `MemoryCache.MemoryCache.DelByPrefix` | src/cache/memory.js:157-170 | Removes exactly the keys that start with the prefixed prefix and returns how many. |
| `PrefixDelete.EscapedMatchesPrefix` | src/cache/redis.js:54-59 | For all strings: the escaped text followed by `*` matches exactly the strings that start with the text, under Redis glob rules with classes, ranges and escapes. |
| `PrefixDelete.ScanPatternMatchesPrefix` | src/cache/redis.js:54-59 | The SCAN pattern matches exactly the stored keys of the prefix. |
| `PrefixDelete.CommandKeyRoundTrip` | src/cache/redis.js:60-63 | Every matched key maps to a command key, and the client's own prefix gives the stored key back. |
| `PrefixDelete.UnescapedPatternWidens` | src/cache/redis.js:55-56 | For all texts: without the escaping a prefix with a star would match every key that has anything at all in its place; the escaped pattern does not. |
| `PrefixDelete.RedisCache.Collect` | src/cache/redis.js:229-244 | The pipeline names exactly the scanned keys of the prefix, however SCAN batches or repeats them. |
| `PrefixDelete.RedisCache.Exec` | src/cache/redis.js:245 | The pipeline of DELs removes exactly the keys it names, client prefix added. |
| `PrefixDelete.RedisCache.DelByPrefix` | src/cache/redis.js:224-247 | For any SCAN that returns matching keys and misses none, exactly the keys of the prefix are removed, and the answer is the number of keys SCAN returned. |
| `PrefixDelete.DriversAgree` | src/cache/memory.js:157-170 | Redis and in-memory drivers that hold the same keys under the same prefix keep the same keys. |
| `Shutdown.DrainBudget.Grant` | src/jobs/shutdown.js:153-157 | The first grant fixes the drain deadline for good; no grant reaches past it, and each is the step's whole budget or all that is left. |
| `Shutdown.RunStep` | src/jobs/shutdown.js:57-84 | One step is skipped, ok, failed or timed out as its budget and its work say, ends by its budget, and passes the deadline by no more than an `always` step may. |
| `Shutdown.RunShutdownSteps` | src/jobs/shutdown.js:52-91 | For any step list: one entry per step in order, back to back, every `always` step attempted, ok if and only if all entries are, total time within the timeout plus the `always` budgets, and no drain past the shared drain deadline. |
| `Shutdown.StepIsCutOff` | src/jobs/shutdown.js:57-84 | Each entry in numbers: a step is cut off at its own timeout or the time left, whichever is shorter; after the deadline an `always` step has its own timeout or one second; it is ok, failed or timed out as its work settles within that, throws, or does not. |
| `Shutdown.BuiltStepsFitForceExit` | src/jobs/shutdown.js:148-188 | The database step is the last and the only one to run past the deadline; what it may add is exactly the 2000 ms grace of the force-exit timer. |
| `Shutdown.DrainStepsStandAt` | src/jobs/shutdown.js:165-177 | The scheduler and queue steps follow the optional HTTP step with their margins of 50 and 500 ms. |
| `Shutdown.BuiltStepsStandAt` | src/jobs/shutdown.js:158-186 | Every built step, its place, its own timeout and its margin, for all combinations of optional resources. |
| `Shutdown.RunBuiltSteps` | src/jobs/shutdown.js:148-188 | The built steps of a process are over no later than the timeout plus what the database step took, which is always attempted and takes at most 2000 ms; the drains keep their margins and the queue drain never passes the scheduler's drain deadline. |
| `Shutdown.ShutdownProcess` | src/server.js:96-118 | Steps, then error reports for at most 1000 ms, then the logger: the process exits by itself if and only if all of that ends before the force-exit timer is due, and surely if the database, the reports and the logger together stay within 2000 ms. |
| `Shutdown.StuckStepUsesTimeout` | src/jobs/shutdown.js:52-91 | A first step that never settles uses up the timeout, and the steps behind it that are not `always` are skipped. |
| `Shutdown.SlowReportIsCutOff` | src/worker.js:72-86 | A concrete failing input: a stuck scheduler, a database step of 1500 ms and an error report of 600 ms make every run of a worker with a 10000 ms timeout end by the force-exit timer at 12000 ms. |
| `Shutdown.HttpClose.Finish` | src/jobs/shutdown.js:106-111 | Settles once: a second call changes neither the answer nor the timer. |
| `Shutdown.HttpClose.CloseHttpServer` | src/jobs/shutdown.js:103-133 | For every order of events the close settles with the first one, is forced exactly when that is the timer, and destroys connections exactly then. |
| `CommentStripper.StripBlocksKeepsLayout` | scripts/ci/check-routes.js:84 | Blanking block comments keeps length, every line break and every other character or a space. |
| `CommentStripper.BlocksAreUnique` | scripts/ci/check-routes.js:84 | A text has one reading of its comments from the left: first opener outside the earlier ones, first closer. |
| `CommentStripper.BlanksExactlyTheBlocks` | scripts/ci/check-routes.js:84 | The first pass blanks exactly those comments: a character inside one becomes a space unless it is a line break, every other character stays. |
| `CommentStripper.OnlyBlocksAreBlanked` | scripts/ci/check-routes.js:84 | A character is changed only between an opener and its first closer. |
| `CommentStripper.NoBlockSurvives` | scripts/ci/check-routes.js:84 | After the first pass no comment opener has a closer after it. |
| `CommentStripper.StripLinesKeepsLayout` | scripts/ci/check-routes.js:85 | Blanking whole-line comments keeps the layout, also where the match spans blank lines. |
| `CommentStripper.LineCommentsAreBlanked` | scripts/ci/check-routes.js:85 | Every `//` with only white space between a line start and it is blanked to the end of its line. |
| `CommentStripper.BlanksExactlyTheLineComments` | scripts/ci/check-routes.js:85 | The second pass blanks exactly the whole-line comments and the white space before them; every other character stays. |
| `CommentStripper.OnlyLineCommentsAreBlanked` | scripts/ci/check-routes.js:85 | A character is changed only within such a comment or the white space before it. |
| `CommentStripper.SourceLineCommentIsBlanked` | scripts/ci/check-routes.js:82-86 | A whole-line comment of the original source is blanked to the end of its line, unless one of its two slashes belongs to a block comment. |
| `CommentStripper.StripCommentsUncomments` | scripts/ci/check-routes.js:82-86 | `stripComments` leaves exactly the text in which each comment, block or whole line, is replaced by blanks. |
| `CommentStripper.LineCountsBreaks` | scripts/ci/check-routes.js:137 | A position is on line one plus the number of line breaks before it. |
| `CommentStripper.SameLayoutSameLine` | scripts/ci/check-routes.js:137 | Equal line breaks give every position the same line number. |
| `CommentStripper.StrippingKeepsPositions` | scripts/ci/check-routes.js:82-86 | `stripComments` keeps length, line breaks and line numbers for all inputs. |
| `CommentStripper.StrippedHasNoBlock` | scripts/ci/check-routes.js:82-86 | No closed block comment is left after both passes. |
| `RouteScanner.NextOpenerIsFirst` | scripts/ci/check-routes.js:98-100 | The search passes over no opener. |
| `RouteScanner.ScanArgs` | scripts/ci/check-routes.js:101-128 | The loop over index, depth and quote stops where the recursive scan does, on every input. |
| `RouteScanner.ReadCall` | scripts/ci/check-routes.js:101-138 | Verb, path, argument text, rest of the line, line number and span of the call that opens at a position. |
| `RouteScanner.ReadFrom` | scripts/ci/check-routes.js:127-138 | What follows an opener: argument text up to the balancing parenthesis, path in it, rest of the line. |
| `RouteScanner.ExtractRouteCalls` | scripts/ci/check-routes.js:96-142 | The loop terminates on every input and collects exactly the calls of the recursive form, each standing in the text as reported. |
| `RouteScanner.SpansIncrease` | scripts/ci/check-routes.js:96-142 | On any text the spans of the calls found are disjoint and increasing. |
| `RouteScanner.CallsArePlaced` | scripts/ci/check-routes.js:96-142 | Every call found in any text stands there as reported: receiver, one of the verbs, white space and parenthesis at its start; argument text up to a closing parenthesis or the end; its line counted by line breaks; and as its trailing text the rest of the line it ends on. |
| `RouteScanner.ScanStops` | scripts/ci/check-routes.js:105-126 | The scan runs to the end of the text or stops right after a closing parenthesis, on every input. |
| `RouteScanner.ScanPrinted` | scripts/ci/check-routes.js:105-128 | The scan of any well-formed argument text (plain characters, strings with escapes, line comments, nested parentheses) comes out after it at the depth at which it went in. |
| `RouteScanner.RouterIsUnambiguous` | scripts/ci/check-routes.js:98 | No verb is a prefix of another and white space does not swallow the parenthesis, so the opener is read in one way. |
| `RouteScanner.PrintedOpener` | scripts/ci/check-routes.js:98-101 | A printed `router.<verb>(` is recognised as that verb and its argument position. |
| `RouteScanner.PrintedCallIsRead` | scripts/ci/check-routes.js:100-139 | A printed call comes back with its verb and exactly its argument text, and ends where it was printed. |
| `RouteScanner.ExtractInvertsPrint` | scripts/ci/check-routes.js:96-142 | Round trip: scanning a file printed from any list of calls, with any quiet text between them, gives back those calls in order, verbs and argument texts unchanged. |
| `RouteScanner.RouterFileRoundTrip` | scripts/ci/check-routes.js:96-142 | The same for a whole file of the five `router` verbs. |
| `RouteScanner.PathIsRead` | scripts/ci/check-routes.js:128 | After white space and at most one comment line, a quoted text without quotes inside comes back as the call's path. |
| `RouteScanner.PathStands` | scripts/ci/check-routes.js:128 | Conversely a path that is read is such a text: quoted by one kind of quote, no quote inside, after nothing but white space and at most one comment line. |
| `RouteScanner.CallsStartOutsideComments` | scripts/ci/check-routes.js:82-138 | No `router` call is reported from inside a block comment of the original source, and none from a whole-line comment of it unless a slash of that comment belongs to a block comment. |
| `RouteScanner.HiddenCallIsReported` | scripts/ci/check-routes.js:82-86 | Inputs that need the exception: two slashes, an empty block comment that shares the second one, then any call without slash or star; the call is reported although its line is a comment. |
| `RouteScanner.CommentedFileRoundTrip` | scripts/ci/check-routes.js:82-142 | Round trip from a commented source: with block and whole-line comments between and inside the calls, the calls read are those of the file in which each comment is replaced by blanks. |
| `RouteScanner.ReportedLineIsOriginal` | scripts/ci/check-routes.js:132-138 | The line reported for a call is its line in the original source, before comments were stripped. |
| `Backoff.ReconnectUntilConnected` | src/config/database.js:118-140 | The k-th wait is the closed form, so the first is at least 1 ms and each later one twice the one before, up to the cap; the loop ends in the first round that ends it, true only after a successful attempt and false only after an abort. |
| `Backoff.NextWait` | src/config/database.js:137 | Doubling and capping the last wait gives the next term of the closed form. |
| `Backoff.LaterWaitsGrow` | src/config/database.js:125-138 | From the second wait on the waits never shrink. |
| `Backoff.WaitsNeverShrinkIff` | src/config/database.js:125-138 | All waits are nondecreasing if and only if the first is within the cap; each is at least 1 ms and at most the larger of first wait and cap. |

## Left out

- MongoReleaseMeetsContractIff: a matched document write is taken to report one modified document; MongoDB reports none when the update changes nothing.
- Clock skew between instances, and instances that use different lease lengths for one job.
- Untracked webhook syncs and connector records from before leases existed, in the recovery runs; and two runs recorded in the same millisecond, which the source leaves unordered.
- The reaper's batch limit and the contents of the patches it writes, apart from the user-facing reason.
- NoRunAfterStore: a cache read that fails while the middleware fails open runs the handler unprotected and is excluded; so is cache eviction.
- Encryption is an abstract inverse pair.
- IncrementActsOnLiveViewIff: what `Number` makes of a cached value is part of the value; binary floating point is not modelled.
- SCAN is taken to return only matching keys and every matching key at least once while nobody writes.
- A shutdown step that blocks the event loop, or a timer that fires late, is not modelled, and work that settles exactly at its budget counts as settled.
- Closing the HTTP server: Socket.IO and idle-connection calls, which only help the server's own close along, are not modelled.
- The route checker beyond the scanner: the wrapper and violation analysis, regular-expression literals and `${}` in templates are not modelled; text is a sequence of characters, not of UTF-16 units. A call inside a comment that follows code on its line is reported by the source and by the model.
- The opener takes the first verb that fits without trying another; for the five `router` verbs at most one fits (`RouterIsUnambiguous`).
- The idempotency protocol is modelled on values, as program counters over one key, not as a class around the `inflight` map: the interleaving of requests at each await is the point, and a method cannot be interrupted. Other keys share no state with it.
- When a handler that outlives its response, or runs unprotected, comes to its end: the model counts it as possibly running from then on.
- A job handler that never settles: every tick of the histories has ended.
- A thrown value whose properties answer differently when read twice, and a logger or error reporter that throws, apart from the report of a failed job; the in-memory bookkeeping of trace contexts.
- The in-memory driver's `increment` under the idempotency lock: the protocol is proved on Redis counter semantics, where an expired counter starts again at 1.
- Stored outcome entries that are not outcomes (junk in the cache), the header validation and key scoping in front of the protocol.
- Job lock fields that only inform (owner, acquiredAt) and the MongoDB TTL index that deletes old lock documents a day after their end.
- `stopScheduler` and its drain: it says only whether the executions it saw have ended.
- Redis `flushAll`, default TTLs, `getOrSet` in the Redis driver, `connectOnce`, cron parsing, logging, metrics, cryptography and the network.
- Controllers, validators, schemas, access checks and business services: decided by reading one branch, or not part of the coordination code.
