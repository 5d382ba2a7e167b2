# Verification of the service libraries

A Dafny model of the concurrent and arithmetic parts of the libraries, with proofs about every input and every run.

* `outbox/` is the transactional outbox. `Table` is the job table and its repository, statement by statement;
  `Config` the worker's defaults, lease check and retry pause; `Errors` the marks a sender puts on an error chain;
  `Delivery` and `Worker` the code that claims a batch, delivers it and polls. `System` is the protocol: any number
  of replicas, each claiming, sending over a bounded number of slots and writing one verdict per message, against one
  table and one clock. A run is any sequence of events; an event that is not enabled changes nothing, so crashes,
  cancelled contexts, failed writes, stale holders and overlapping leases are all in it. `Accounting`, `Loss`,
  `Bypass`, `Room`, `Schedule` and the `Lease*` files prove what runs keep; `Batch` ties the code's batch to the
  protocol, `Drain` follows the polling loop through a backlog, and `Steps` says column by column what each step does. A run is punctual when time moves no further than
  the deadline of a running Send and not past a message waiting beside a free slot; the schedule and lease results
  are about punctual runs, all the others about every run.
* `ratelimit/` is the fixed-window limiter over Redis counters, and traces of calls on one key.
* `password/` is the printed argon2id hash: printer, parser, base64, verification and rehash test; `HashText` gives
  the grammar of what is accepted, and what becomes of every other text.
* `runner/` is the component group as a state machine of components, cancellation and shutdown timer.
* `grpc/` holds the service-token cache and the forwarded-hop scan.
* `lib/` holds Go durations (int64 wrap-around, cut to whole seconds) and the string operations.

Methods that change state are proved against specification functions (`OutboxTable.Claimed`, `Retried`, ...,
`OutboxDelivery.ResolvedAll`, `RateLimit.Hit`, `ServiceToken.Served`, `ClientIP.Client`); the lemmas are about those
functions and about runs of them.

## What the proofs found

* **The lease check accepts configurations under which two Sends of one message overlap.** Write hold for
  ceil(batch / slots) * timeout, lease for the visibility timeout cut to whole seconds, and pause for what a verdict
  stores. In punctual runs of replicas that mix any set of deployable configurations, sends of an id never overlap if
  and only if (`OutboxLeaseExact.LeaseExact`)
  - no lease is shorter than its hold,
  - no pause of a configuration whose lease equals its hold is shorter than any hold of the set, and
  - where such a pause equals a hold, no pause that this other holder can store one attempt later is shorter either.

  For a single configuration this is hold < lease, or hold = lease and no pause shorter than hold
  (`LeaseExactAlone`). `validate` asks for hold <= uncut visibility timeout. At equality a verdict written at the very
  end of a lease can land after the next replica's claim and bring the row back within its lease: one message at a
  time, SendTimeout and VisibilityTimeout of two minutes and the default pauses are accepted and fail
  (`AcceptedButOverlapping`).
* **A single holder, failed rows that stay failed, and reports that agree with the row each hold if and only if
  hold < lease, strictly, for every configuration of the set** (`HoldersApartExact`, `FailedStaysExact`,
  `ReportsAgreeExact`). `Retry` has no guard on `failed_at`, so at equality it can bring a failed row back.
* `validate` multiplies in int64: past the no-overflow bound a hold of 2^64 ns passes against a one-second lease
  (`OutboxConfig.AcceptsOverflow`). Where batch plus slots does not overflow already, an acceptance can be relied on
  if and only if the hold itself fits an int64 (`AcceptanceCoversIff`).
* The outbox documentation calls MAX_BACKOFF the ceiling of the pause. The code caps only from the second attempt
  on; it is the ceiling if and only if BaseBackoff <= MaxBackoff, which is not checked (`BackoffCappedIff`).
* `Claim` does not look at max_attempts, so dropped claims push `attempts` past it, up to the end of its smallint
  column, and then the statement fails as a whole. A claim of b rows can succeed if and only if every full candidate
  has b healthy candidates due no later (`OutboxRoom.ClaimCanSucceedIff`); however the database breaks ties, it
  succeeds if and only if every full candidate has b candidates due strictly earlier (`ClaimMustSucceedIff`). So one
  full row blocks the older healthy rows too, while they are fewer than b, and it goes on doing so whatever else
  happens until an older row is committed or a replica with a smaller batch joins (`JamLasts`). For every deployable
  configuration some run leads there (`OutboxJam.ClaimsStop`); it takes more dropped or outstanding claims of one row
  than the column has beyond the row's maximum (`ExhaustedByDrops`).
* The limiter's bound over any interval one window long is (2 + R) * limit - 1, one better than two full windows, and
  it is reached for every limit, window and number R of Resets (`RateLimit.SlidingBoundTight`).
* `decode` is not injective. It accepts signs and blanks before the version number, blanks and leading zeros before
  any number, text after the last number of a part, and line breaks inside the base64 parts. An accepted string is
  its own printed form exactly when its version part is "v=19", its costs part is m=, t= and p= with digits that do
  not start with a zero, and its base64 parts have no line breaks (`Argon2id.ReprintExact`); every printed hash has a
  different accepted twin (`DecodeForgets`).

## Model

| member | source | states |
|---|---|---|
| OutboxConfig.WithDefaultsPositive | outbox/worker.go:269-302 | after the defaults every field is positive, and the positive configurations are exactly the fixed points |
| OutboxConfig.DefaultsOneByOne | outbox/worker.go:269-302 | each setting that is positive is kept on its own, and each that is not takes its own default |
| OutboxConfig.AcceptsExact | outbox/worker.go:254-267 | without int64 overflow, `validate` accepts exactly when the visibility timeout covers ceil(BatchSize / Concurrency) * SendTimeout, and what it accepts covers every smaller batch |
| OutboxConfig.CeilDiv | outbox/worker.go:255-255 | the wave count is the least number of full slots that fits the batch |
| OutboxConfig.AcceptsOverflow | outbox/worker.go:255-258 | a configuration whose product wraps is accepted although its hold exceeds its lease |
| OutboxConfig.AcceptanceCoversIff | outbox/worker.go:254-267 | an accepted configuration's visibility timeout covers its hold if and only if the hold fits an int64 or, where batch plus slots already overflow, the one wave that is left fits the timeout |
| OutboxConfig.BackoffFor | outbox/worker.go:209-219 | the doubling loop computes the specified pause for every attempt count |
| OutboxConfig.BackoffClosedForm | outbox/worker.go:209-219 | for 0 < Base < 2^62 and 0 < Max <= 2^62 no doubling overflows; the pause is Base for attempts <= 1 and min(Base * 2^(attempts-1), Max) otherwise |
| OutboxConfig.BackoffMonotone | outbox/worker.go:209-219 | with Base <= Max more attempts never shorten the pause, neither as computed nor as stored in whole seconds |
| OutboxConfig.BackoffCappedIff | outbox/worker.go:209-219 | MaxBackoff bounds every pause if and only if BaseBackoff <= MaxBackoff |
| OutboxConfig.ShortestDelayExact | outbox/outbox.go:106-133 | no verdict stores a shorter pause than the least of the three configured ones, and one of the first two attempts or a conflict stores exactly it |
| OutboxErrors.MarksAreFound | outbox/terminal.go:5-36 | IsTerminal (IsConflict) holds exactly when some error anywhere in the chain carries the mark |
| OutboxErrors.MarkingKeepsTheChain | outbox/terminal.go:5-41 | marking nothing gives nothing; marking an error adds that mark, leaves the other one as it was and loses no error of the chain |
| OutboxTable.SelectOldest | outbox/outbox.go:71-77 | the claimed ids are distinct, as many as fit, and no candidate left behind is older than one taken |
| OutboxTable.Repository.constructor | outbox/migrations/20260813000000_outbox.sql:4-14 | the table starts empty |
| OutboxTable.Repository.Enqueue | outbox/outbox.go:31-56 | succeeds exactly for a nonempty kind and payload, a fresh id and a row the database accepts; adds one row due now, with 0 attempts and the default maximum when none is given; otherwise nothing changes |
| OutboxTable.Repository.Claim | outbox/outbox.go:66-96 | takes the oldest due unlocked rows, counts one attempt and moves each behind the stored lease; returns each claimed row once, as updated; fails as a whole, changing nothing, for a negative limit or a full attempts column |
| OutboxTable.Repository.Complete | outbox/outbox.go:98-104 | the row is gone, all others are as before |
| OutboxTable.Repository.Retry | outbox/outbox.go:106-119 | the row is due after the stored pause, and failed exactly when its own attempts have reached their maximum |
| OutboxTable.Repository.Defer | outbox/outbox.go:121-133 | the row is due after the stored pause with one attempt given back, never below 0 |
| OutboxTable.Repository.Fail | outbox/outbox.go:135-147 | a pending row is failed now; a failed one keeps its time |
| OutboxTable.Repository.DeleteOldFailed | outbox/outbox.go:169-181 | exactly the rows failed for longer than the stored retention are gone, and the result is their number |
| OutboxTable.ReturnsCounts | outbox/outbox.go:78-95 | the returned list has one message per claimed row |
| OutboxSystem.VerdictByMarks | outbox/worker.go:174-206 | a refused, uncancelled message is failed exactly when some error of its chain is marked terminal, deferred exactly when one is marked a conflict and none terminal, retried otherwise |
| OutboxSteps.EnqueueStep | outbox/outbox.go:31-56 | a job with a kind and a payload appears as one row, pending, unclaimed, with the default maximum of 5 where none is given, due since its transaction began |
| OutboxSteps.DeployStep | outbox/worker.go:68-85 | a replica joins exactly with a complete configuration that passes the lease check, idle and with nothing claimed |
| OutboxSteps.CrashStep | outbox/README.md:102-104 | a crash drops every claim the replica had and leaves the table as it is |
| OutboxSteps.StoppedStep | outbox/worker.go:94-119 | once a Send has come back under a cancelled context, all of that replica's do, and it never claims again |
| OutboxSteps.ClaimStep | outbox/outbox.go:66-96 | every claimed row was pending, due and unlocked; it gets one attempt more and is due a visibility timeout in whole seconds from now, the message says so, and no other row changes |
| OutboxSteps.ClaimIsFair | outbox/outbox.go:71-77 | a pending, due and unlocked row is left behind only by a full batch of rows due no later |
| OutboxSteps.SendStep | outbox/worker.go:135-158 | a start takes a slot as of now, counts one Send and leaves the table as it is |
| OutboxSteps.FinishStep | outbox/worker.go:158-206 | a Send's end frees its slot, answers its row at the clock's time, and counts its claim as settled, deferred or dropped by what was written |
| OutboxSteps.UnwrittenAnswer | outbox/worker.go:160-205 | an answer whose write fails, or whose row is gone, changes nothing |
| OutboxSteps.DeliveredAnswer | outbox/worker.go:158-168 | a sent message's row is deleted, whatever the context, and no other row changes; it is counted as sent only if that was written |
| OutboxSteps.CancelledAnswer | outbox/worker.go:170-172 | a refusal under a cancelled context changes no row and reports nothing |
| OutboxSteps.TerminalAnswer | outbox/worker.go:174-181 | a refusal marked terminal fails the row now, unless it had failed before; nothing else of it changes |
| OutboxSteps.ConflictAnswer | outbox/worker.go:183-190 | one marked a conflict makes the row due after the conflict pause in whole seconds and gives one attempt back; nothing else of it changes |
| OutboxSteps.RetryAnswer | outbox/worker.go:192-206 | any other makes it due after the pause for the attempts the message has seen, failed now if its own attempts have reached their maximum and pending if not |
| OutboxSteps.CancelledFinish | outbox/worker.go:170-172 | in the protocol a refusal under a cancelled context leaves the table alone and drops one claim, whether or not the database could be reached |
| OutboxSteps.CancelledBatch | outbox/worker.go:135-172 | after a batch cut short by a shutdown every refused message's row is pending with its claim's attempts, due when the lease ends |
| OutboxSteps.CleanupStep | outbox/outbox.go:169-175 | a cleanup deletes exactly the rows failed for longer than the retention in whole seconds, whatever their attempts, and changes no other |
| OutboxSteps.FailedRowGoes | outbox/worker.go:221-231 | a row failed at t is gone for good after a cleanup later than t plus the retention |
| OutboxSystem.AlwaysWellFormed | outbox/worker.go:123-146 | in every run each replica sends at most Concurrency messages at once, out of a batch of at most BatchSize distinct ids, started in order |
| OutboxSystem.WrittenFrame | outbox/outbox.go:98-147 | a verdict touches no row but its own |
| OutboxSystem.HoldersAfterClaim | outbox/outbox.go:66-96 | a claim makes the replica a holder of exactly the ids it took |
| OutboxSystem.HoldersAfterSend | outbox/worker.go:135-141 | starting a Send changes no holder, and ends the wait for that id only |
| OutboxSystem.HoldersAfterFinish | outbox/worker.go:148-207 | a verdict ends exactly its own replica's hold on its own id, whether or not it was written |
| OutboxSystem.HoldersAfterCrash | outbox/README.md:102-104 | a crashed replica holds nothing any more, and nobody else is affected |
| OutboxAccounting.AlwaysAccounted | outbox/outbox.go:67-133 | in every run, stale holders included: claims = settled + deferred + dropped + outstanding; a live row's attempts = its claims - its applied defers; a pending row has attempts < max_attempts + dropped + outstanding claims |
| OutboxAccounting.ClampNeverActs | outbox/outbox.go:121-126 | any verdict about a row still there finds at least one attempt, so the clamp at 0 never changes a Defer |
| OutboxAccounting.HistoryGrows | outbox/outbox.go:66-96 | no counter of an id goes back, its job and maximum never change, and only a claim that takes it counts one |
| OutboxAccounting.SendsWithinBudget | outbox/worker.go:148-207 | with at most k holders at any time an id is sent at most max_attempts + dropped + deferred + k - 1 times |
| OutboxAccounting.SentAtMostMaxAttempts | outbox/worker.go:148-207 | a message never dropped, deferred or doubly held is sent at most max_attempts times |
| OutboxLoss.NoMessageLost | outbox/outbox.go:98-175 | in every run each enqueued id is still in the table, or was sent successfully, or was purged after staying failed without a break for longer than the stored retention |
| OutboxLoss.FailedSince | outbox/outbox.go:106-147 | a failed row has been failed without a break since some state no later than its failed_at, although a stale Retry may have reset that |
| OutboxLoss.RowGone | outbox/outbox.go:98-104 | a row leaves the table in one step only with a successful Send behind it or past its retention |
| OutboxLoss.SendsCarryTheJob | outbox/outbox.go:78-95 | every message any replica ever holds carries the kind, payload and maximum enqueued under its id |
| OutboxBypass.PassedOver | outbox/outbox.go:71-77 | a claim that passes over a due unlocked row takes a full batch, all of it from the rows due no later, whose number drops by exactly that |
| OutboxBypass.StaysOverdue | outbox/outbox.go:66-133 | until it is taken nothing moves a due row nobody holds, and only a late commit adds to the rows ahead of it |
| OutboxBypass.BoundedBypass | outbox/outbox.go:66-96 | such a row with r rows ahead is taken within floor(r / b) + 1 claims of at least b rows, each late commit counting as one more ahead |
| OutboxRoom.ClaimCanSucceedIff | outbox/outbox.go:66-80 | some oldest pick of up to b candidates has room in every attempts column if and only if every full candidate has b healthy candidates due no later |
| OutboxRoom.ClaimMustSucceedIff | outbox/outbox.go:66-80 | every oldest pick has, if and only if every full candidate has b candidates due strictly earlier |
| OutboxRoom.ClaimEnabledIff | outbox/outbox.go:66-96 | an idle replica's claim can succeed in the protocol exactly when the rows it finds due and unlocked meet that condition for its batch size |
| OutboxRoom.ExhaustedRowBlocks | outbox/outbox.go:68-77 | while a full due row has fewer than b healthy rows due no later and every replica claims at least b, no claim that does not find it locked succeeds |
| OutboxRoom.ExhaustedByDrops | outbox/outbox.go:67-78 | in every run, a pending row with a full column has had more dropped or outstanding claims than the column has beyond the row's maximum |
| OutboxRoom.JamLasts | outbox/outbox.go:66-147 | once such a row is overdue this lasts through every event short of the commit of a row due no later or a replica with a smaller batch |
| OutboxJam.ClaimsStop | outbox/outbox.go:66-80 | for every deployable configuration and every maximum some punctual run reaches such a state with due rows and two idle replicas, and no claim that does not skip the row succeeds from there on until an older row is committed |
| OutboxSchedule.Pigeonhole | outbox/worker.go:133-141 | with c slots busy out of the first q messages, one of them was started at least c places back |
| OutboxSchedule.AlwaysInWaves | outbox/worker.go:132-143 | in every punctual run each replica's messages keep to their waves |
| OutboxSchedule.SchedulingBound | outbox/worker.go:132-143 | message i of n is started by floor(i / slots) * timeout after its claim, and none is unresolved after ceil(n / slots) * timeout |
| OutboxSchedule.HeldWithinHold | outbox/worker.go:254-258 | any outstanding message is within the wave bound of its place, of its batch and of a full batch |
| OutboxLease.HeldIsNotDue | outbox/outbox.go:70-73 | under a strict lease the row of a held message is not due, so no claim can take it |
| OutboxLease.AlwaysSole | outbox/worker.go:123-158 | under strict leases, replicas with different configurations included: every id has one holder, and its row is as that holder's claim left it |
| OutboxLease.LeaseExclusivity | outbox/worker.go:123-158 | then no two Send calls for the same id are ever running at once |
| OutboxLease.FailedIsAbsorbing | outbox/outbox.go:106-112 | then a failed row keeps its failed_at until it is purged, although Retry may write NULL |
| OutboxLease.WorkerAndRowAgree | outbox/worker.go:192-206 | then, when the Retry is written, deliver reports giving up exactly when the statement fails the row |
| OutboxSystem.VerdictMovesRow | outbox/outbox.go:106-133 | a verdict that leaves its row pending either leaves it as it is or moves it at least the shortest pause ahead |
| OutboxConfig.ShortestFromExact | outbox/worker.go:209-219 | from the k-th attempt on, k > 1, no verdict stores a shorter pause than the conflict's and the k-th retry's, whatever base and cap are |
| OutboxLeaseBoundary.LatePause | outbox/outbox.go:106-133 | under suitable leases a verdict written as another replica claims leaves that one its whole hold, and where it leaves no more, the same is true of that one's own late verdict |
| OutboxLeaseGuard.AlwaysGuarded | outbox/worker.go:123-207 | under suitable leases, in every punctual run and any mix of them, a holder's row comes due no earlier than its hold ends, and two holders of an id meet only in the instant in which one ends and the other claims |
| OutboxLeaseGuard.NoOverlap | outbox/worker.go:254-267 | then the Sends of an id never overlap as half-open intervals |
| OutboxLeaseRuns.DoubleClaim | outbox/outbox.go:66-80 | for every deployable configuration with lease <= hold some run has a second replica claim every row while the first is still sending the last message of its batch |
| OutboxLeaseRuns.Unfailing | outbox/outbox.go:106-112 | for every deployable configuration with lease <= hold some run turns a failed row back into a pending one |
| OutboxLeaseRuns.Disagreeing | outbox/worker.go:192-206 | and in some run the worker reports a retry while the row fails |
| OutboxLeaseRuns.EarlyClaim | outbox/worker.go:254-267 | for every deployable configuration with lease < hold some run has two overlapping Sends |
| OutboxLeaseChain.ShortPause | outbox/outbox.go:106-133 | where b's lease equals its hold and its shortest pause is shorter than x's hold, some run of replicas with b and x has two overlapping Sends |
| OutboxLeaseChain.TiedPause | outbox/outbox.go:106-133 | where that pause equals x's hold and x's pause one attempt later is shorter, some run has them at the second hand-over |
| OutboxLeaseExact.LeaseExact | outbox/worker.go:254-267 | for every set of deployable configurations: Sends of an id never overlap in any punctual run that mixes them if and only if no lease is shorter than its hold, no pause after a lease equal to its hold is shorter than any hold, and where it equals one, neither is that holder's next |
| OutboxLeaseExact.LeaseExactAlone | outbox/worker.go:254-267 | for one configuration: if and only if hold < lease, or hold = lease and no stored pause is shorter than hold |
| OutboxLeaseExact.HoldersApartExact | outbox/worker.go:254-267 | for every set of deployable configurations: every id has at most one holder in every punctual run that mixes them if and only if hold < lease for each |
| OutboxLeaseExact.FailedStaysExact | outbox/outbox.go:106-112 | likewise failed rows stay failed if and only if hold < lease for each |
| OutboxLeaseExact.ReportsAgreeExact | outbox/worker.go:192-206 | likewise deliver's report agrees with the row if and only if hold < lease for each |
| OutboxLeaseExact.AcceptedBoundary | outbox/worker.go:254-267 | for whole-second visibility timeouts and no overflow, `validate` accepts exactly hold <= lease |
| OutboxLeaseExact.AcceptedButOverlapping | outbox/worker.go:254-302 | a named configuration, mostly defaults, is accepted and has overlapping Sends |
| OutboxWorker.NewWorker | outbox/worker.go:68-85 | a worker is made exactly when the configuration with its defaults passes the lease check, and runs with that; a complete configuration is kept as it is |
| OutboxWorker.Worker.Deliver | outbox/worker.go:148-207 | the one statement of the verdict's branch reaches the table if its write succeeds, and the metric names the branch |
| OutboxWorker.Worker.DeliverAll | outbox/worker.go:135-143 | after a batch every message of it has been resolved |
| OutboxWorker.Worker.ProcessBatch | outbox/worker.go:123-146 | claims a batch and resolves all of it; a count short of the batch size means no due unlocked row was left behind; a failed claim changes nothing |
| OutboxDelivery.ResolvedAllAt | outbox/worker.go:135-207 | after a batch each row of it is what its own verdict alone makes of it, and every other row is untouched |
| OutboxDelivery.AnyOrder | outbox/worker.go:135-143 | the deliveries of a batch leave the same table in whatever order they are written |
| OutboxBatch.EveryScheduleResolves | outbox/worker.go:123-207 | however the slots interleave the starts and verdicts of a claimed batch, once it is drained the table is the one the code's deliveries leave, given the same answers |
| OutboxBatch.BatchIsARun | outbox/worker.go:123-207 | the code's own order is such a schedule: it drains the batch and, uncancelled, leaves a replica ready to claim again |
| OutboxWorker.Worker.Pass | outbox/worker.go:94-119 | one pass: a failed claim under a cancelled context ends the loop at once, any other failed or short pass is followed by a pause, a full one by the next pass; a cleanup that falls due comes in between |
| OutboxWorker.PassEndsBy | outbox/worker.go:94-119 | a pass goes on at once only past a full batch of due rows, and does so if all of those have room; a failed claim stops the loop under a cancelled context with the table untouched and else pauses, a due cleanup done; only a cancelled context stops it |
| OutboxWorker.Worker.Run | outbox/worker.go:87-121 | for any answers of the world the loop makes one such pass after the other and ends exactly with the first one that stops it |
| OutboxWorker.PauseMeansDrained | outbox/worker.go:110-114 | a pass that did not fail and is not followed at once by another had claimed every due unlocked row |
| OutboxDrain.RunDrains | outbox/worker.go:94-120 | a run of the loop that starts on k due rows, with nothing newly due and answered rows not due again by its end, makes exactly floor(k / batch) full passes without a pause and one short one, takes each due row in exactly one of them and leaves none due; cleanups may come in between |
| OutboxDrain.RunUntilPause | outbox/worker.go:94-120 | the worker's own loop, run to its first pause, does that |
| OutboxDrain.WhenRowsStayAway | outbox/worker.go:158-206 | a row whose message is sent and deleted is never due again, however long the drain takes; any other is not for as long as the shortest pause and the lease |
| OutboxDrain.DrainCompletes | outbox/worker.go:94-168 | when all sends and completions succeed the drain deletes the due rows and otherwise only rows failed past the retention; without those exactly the due rows |
| OutboxDrain.PassAdvances | outbox/worker.go:110-112 | each pass handles only due rows not handled before, and all the rest of them when it is short |
| RateLimit.Ttl | ratelimit/ratelimit.go:44-44 | the expiry is the window cut to whole seconds, and at least one |
| RateLimit.Hit | ratelimit/ratelimit.go:42-61 | after any call the key has an expiry still ahead, a call is allowed exactly within the limit, and a denied one is told the exact time to the expiry |
| RateLimit.DefaultsOneByOne | ratelimit/ratelimit.go:28-35 | a positive limit and a positive window are each kept, and each that is not takes its own default |
| RateLimit.ExpirySet | ratelimit/ratelimit.go:42-61 | a call sets an expiry one window ahead where there is none or it has passed, and else leaves it |
| RateLimit.PrefixesApart | ratelimit/ratelimit.go:72-74 | limiters whose prefixes differ and hold no colon share no counter |
| RateLimit.Limiter.constructor | ratelimit/ratelimit.go:28-37 | limit and window are positive after the defaults, and each is the configured one if that is positive |
| RateLimit.Limiter.Allow | ratelimit/ratelimit.go:39-62 | increments the key's counter, or starts it at 1 once expired; sets the expiry only where there is none; touches no other key |
| RateLimit.Limiter.Reset | ratelimit/ratelimit.go:64-70 | removes the key's counter and no other |
| RateLimit.Limiter.KeysApart | ratelimit/ratelimit.go:72-74 | different keys of a limiter have different counters |
| RateLimit.WindowAllowsFirst | ratelimit/ratelimit.go:39-62 | a window allows exactly its first min(n, limit) calls, counted from 1 |
| RateLimit.SlidingBound | ratelimit/ratelimit.go:39-70 | on every trace and every half-open interval one window long, at most (2 + R) * limit - 1 calls are allowed, R the Resets inside it |
| RateLimit.SlidingBoundTight | ratelimit/ratelimit.go:39-70 | for every limit, window and R some trace from an empty store with R Resets in such an interval reaches (2 + R) * limit - 1 |
| RateLimit.RoomStep | ratelimit/ratelimit.go:39-70 | within such an interval every allowed call uses up room, and a Reset leaves at most one limit of it |
| RateLimit.RetryAfterExact | ratelimit/ratelimit.go:52-59 | without Resets, from any counter: a denied call's RetryAfter is positive, every call before it ends is denied, and the first one from then on is allowed with count 1; it is at most the window unless an earlier, larger window left the expiry |
| Base64.AlphabetIs | password/argon2id.go:130-131 | the alphabet is that of section 4 of RFC 4648, and nothing else is a digit |
| Base64.GroupBits | password/argon2id.go:130-131 | three bytes and their four digits are the same 24 bits, most significant first |
| Base64.GroupDigits | password/argon2id.go:130-131 | a final group of one or two bytes has two or three digits, with zeros for the missing bits |
| Base64.EncodeBoth | password/argon2id.go:130-131 | groups are encoded one after the other |
| Base64.BreaksSkipped | password/argon2id.go:206-214 | the decoder skips carriage returns and line feeds and nothing else |
| Base64.DecodeIff | password/argon2id.go:206-214 | a text decodes to some bytes if and only if, but for line breaks, it is what they encode to |
| Base64.DecodeEncode | password/argon2id.go:130-131 | encoding then decoding returns the bytes, and only alphabet characters are printed |
| Base64.EncodeDecode | password/argon2id.go:206-214 | what the strict decoder accepts re-encodes to the text without its line breaks |
| Base64.CanonicalIff | password/argon2id.go:206-214 | an accepted text is the canonical one if and only if it has no line breaks |
| Base64.DecodeInjective | password/argon2id.go:206-214 | different accepted texts without line breaks give different bytes |
| Argon2id.Hasher.constructor | password/argon2id.go:64-93 | zero parameters take their defaults, and every cost is then positive |
| Argon2id.Hasher.Hash | password/argon2id.go:104-133 | the output decodes to exactly the hasher's parameters, the salt and the derived key; it verifies the password, and another text exactly when the key function agrees on the two; it needs no rehash |
| HashText.FilledOneByOne | password/argon2id.go:64-81 | each parameter that is set is kept, and each that is not takes its own default |
| HashText.PrintedText | password/argon2id.go:124-132 | the printed form, as one text |
| Argon2id.DecodePrint | password/argon2id.go:124-224 | decoding a printed hash returns exactly its parameters, salt and key |
| Argon2id.PrintInjective | password/argon2id.go:124-132 | different hashes print differently |
| Argon2id.HashThenVerify | password/argon2id.go:104-179 | q verifies against the hash of p if and only if the key function agrees on them; otherwise the answer is a mismatch |
| HashText.ScanVersionIff | password/argon2id.go:187-190 | the version is read exactly from v=, blanks, a sign or none and a run of digits within int64 |
| HashText.ScanCostsIff | password/argon2id.go:195-204 | the costs are read exactly from m=, t= and p=, each with blanks and a run of digits within its width |
| HashText.DecodeAccepts | password/argon2id.go:181-224 | a text of six parts with version 19, nonzero costs and accepted base64 decodes to just those |
| HashText.DecodeCases | password/argon2id.go:181-224 | every other text is an invalid hash, or of an unsupported version if it has six parts and another number there |
| HashText.VerifyIff | password/argon2id.go:159-179 | over every text: a password verifies if and only if the text is such a hash and the key function gives its key for the password, the salt and the costs |
| HashText.VerifyErrors | password/argon2id.go:144-179 | over every text: one that is no hash keeps its error in verifying and in the rehash test, and only a hash can be a mismatch |
| HashText.RehashOfAny | password/argon2id.go:144-153 | of any hash the rehash test compares memory, iterations and key length, and nothing else |
| Argon2id.RehashExact | password/argon2id.go:144-153 | a rehash is asked for exactly when memory, iterations or key length have grown; never for a hasher's own output |
| Argon2id.ReprintExact | password/argon2id.go:181-224 | an accepted string is its own printed form exactly when its version part is "v=19", its costs are digits without leading zeros after m=, t= and p=, and its base64 parts have no line breaks |
| Argon2id.DecodeForgets | password/argon2id.go:187-204 | every printed hash has a different string that decodes to the same |
| Runner.Group.constructor | runner/runner.go:31-40 | a group starts empty with the default timeout |
| Runner.Group.WithShutdownTimeout | runner/runner.go:42-47 | only a positive timeout replaces the present one |
| Runner.Group.Add | runner/runner.go:49-52 | appends one component |
| Runner.Group.Start | runner/runner.go:54-78 | Run fails at once exactly without components, and otherwise starts every one |
| Runner.AlwaysConsistent | runner/runner.go:54-99 | the group's bookkeeping holds in every interleaving |
| Runner.RunOutcome | runner/runner.go:80-99 | nil means every component returned nil; a component's error means that one failed and all have returned; a timeout is reported only once the shutdown timeout has passed since cancellation |
| Runner.CancelledExactly | runner/runner.go:59-66 | in every interleaving the shared context is cancelled if and only if the parent's has been or a component has returned, since the first of these |
| Runner.ParentEndsRun | runner/runner.go:59-98 | once the parent is cancelled Run ends by its own events alone |
| Runner.ResultByReturns | runner/runner.go:64-85 | nil only if every component returned nil, a component's error only if it returned that; with all back and recorded the result is nil exactly when all returned nil |
| Runner.RecordStep | runner/runner.go:65-77 | the group keeps each component's outcome, and the first error |
| Runner.OthersSeeCancellation | runner/runner.go:64-66 | once any component has returned, and from then on, the shared context is cancelled |
| Runner.FirstFailureWins | runner/runner.go:62-73 | the error reported is that of the first failure the group recorded |
| Runner.ReturnsInTime | runner/runner.go:83-98 | when time never passes over an instant at which a case of Run's selects is ready, no more than the shutdown timeout passes between cancellation and its return |
| Runner.AlwaysEnds | runner/runner.go:83-98 | from every cancelled state of every interleaving, without any help from the components, at most two events of Run's own and the time until its deadline end it; with all components recorded one event ends it at once |
| ServiceToken.Expiry | token/token.go:182-182 | the expiry is the last whole second within the lifetime |
| ServiceToken.ServiceTokenSource.constructor | grpcclient/service.go:31-43 | the lifetime is positive after the default, and nothing is cached |
| ServiceToken.ServiceTokenSource.Token | grpcclient/service.go:45-70 | returns the cached token while it is fresh, else a new one, which it caches with its expiry; an error changes nothing |
| ServiceToken.CacheIsLastIssue | grpcclient/service.go:66-67 | after any calls the cache is empty with nothing issued, or holds exactly the last issued token |
| ServiceToken.AnsweredIff | grpcclient/service.go:53-69 | a call is answered if and only if the last issued token has more than 30s left, and then with it, or the manager signs, and then with the new token |
| ServiceToken.ReturnedTokensAreFresh | grpcclient/service.go:53-69 | each returned token was issued by this or an earlier call and has more than min(30s, ttl - 1s) left |
| ServiceToken.IssuesAreApart | grpcclient/service.go:53-67 | any two issues are more than ttl - 31s apart |
| ServiceToken.IssueRate | grpcclient/service.go:53-67 | k + 1 issues, k > 0, take more than k * (ttl - 31s) |
| ClientIP.ParseTrustedProxies | grpcserver/clientip.go:16-39 | one value that is not blank and not readable refuses the list; otherwise each value that is not blank becomes one prefix, in order |
| ClientIP.ProxyAt | grpcserver/clientip.go:19-36 | each value that is not blank has its own place: the subnet it reads as, else the single host |
| ClientIP.ClientIP | grpcserver/clientip.go:53-87 | the index loop finds what the scan is specified to find, with every fallback |
| ClientIP.AnswerIsHop | grpcserver/clientip.go:53-87 | behind a trusted peer, if part i of the first header value, white space aside, is an address that no trusted prefix contains, and no part right of it is one, the answer is that address, unmapped |
| ClientIP.AnswerIsPeer | grpcserver/clientip.go:53-87 | with an untrusted peer, no header, an empty first value or no such part, it is the peer's address, unmapped: the host of its host:port, else its text |
| ClientIP.NoAnswer | grpcserver/clientip.go:105-122 | without a usable peer there is none |
| ClientIP.RightmostExact | grpcserver/clientip.go:73-84 | the scan returns the last part that is an untrusted address, and nothing exactly when there is none |
| ClientIP.HopOfBoth | grpcserver/clientip.go:73-84 | what stands left of a comma counts only when the part right of it names no client |
| ClientIP.SpoofedPrefixIgnored | grpcserver/clientip.go:53-87 | if h names a client, p + "," + h gives the same answer as h for every p |
| ClientIP.TrustedSuffixIgnored | grpcserver/clientip.go:53-87 | appending only trusted or unreadable hops on the right changes nothing |
| ClientIP.UntrustedPeerDecides | grpcserver/clientip.go:59-61 | without a trusted peer the header has no influence |
| ClientIP.ClientAddrAgrees | grpcserver/clientip.go:89-103 | the address form is the unmapped address behind the text, absent exactly without a usable peer |
| Durations.Wrap64 | outbox/worker.go:256-256 | an int64 result is exact whenever it is in range |
| Durations.Stored | outbox/outbox.go:80-80 | a stored duration is the given one less the part of a second |
| Text.SplitAround | grpcserver/clientip.go:73-73 | splitting at a separator splits both sides on their own |
| Text.TrimSpaceIs | grpcserver/clientip.go:75-75 | what is left of a text is what stands between the white space at its ends |
| Text.DecimalOfValue | password/argon2id.go:195-204 | digits without a leading zero are printed back as they are |
| Text.ValueOfDecimal | password/argon2id.go:125-125 | a printed decimal has the value printed |

## Left out

- PostgreSQL itself: each statement is one atomic step, rows skipped by SKIP LOCKED are an arbitrary set; isolation, planning and deadlocks are not modelled.
- Clocks: all replicas and the database share one clock, and statements take no time. Times are exact nanoseconds; the microseconds of a timestamp column are not modelled.
- Durations of 2^31 seconds and more, whose conversion to int32 Go leaves open, are excluded from deployed configurations (`InRange`); the rounding of `Seconds()` to float64 is taken as the exact cut.
- Lease*: the schedule and lease results assume that Send returns by its deadline and that a waiting message starts as soon as a slot is free; a sender that ignores its context is outside them.
- OutboxWorker.Worker.DeliverAll: delivers in order; that every concurrent schedule of the slots leaves the same table is `OutboxBatch.EveryScheduleResolves`.
- OutboxDrain.RunDrains: is about claims that the database serves; failed claims and cancellation are in `OutboxWorker.Worker.Run`.
- OutboxWorker.Worker.Run: goes over a finite list of the world's answers, so it says what every finite part of the endless loop does.
- OutboxWorker.Worker.Deliver: a write whose success is reported as a failure counts as written for the table; only the sent metric would differ.
- last_error, created_at, the 512-rune cut, CountPending, CountFailed, metrics other than the result label, and logging: they decide nothing.
- Whether a payload is JSON is the database's answer to the INSERT (`accepted`); the jsonb column may reformat it, here it is carried unchanged. Uniqueness of generated ids is taken as given.
- Redis: the pipeline is one step, an error leaves the caller without a result; eviction, replication and the int64 limit of INCR are not modelled. Times are whole milliseconds.
- Argon2, the random source, the slot semaphore and constant-time comparison: the key function is an uninterpreted function of its arguments; texts are characters, not UTF-8 bytes.
- Runner: a component's own work, panics, SignalContext and the process exit are not modelled; Run's selects are two phases of a state machine.
- Runner.ReturnsInTime: takes Run's goroutine to act on a ready case before time passes.
- ServiceToken: signing, the mutex (calls are one after the other) and the claims other than the expiry.
- ClientIP: parsing and printing of addresses and subnets is uninterpreted, up to the laws of `Lawful`.
- The other packages (servers, clients, configuration, migration, storage, errors, request ids): wiring around libraries or finite tables.
