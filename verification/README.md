# Spooled backend, verified core

A Dafny model of the parts of the Spooled job-queue backend whose correctness is hardest to see
from the code, with proofs about every input, every interleaving or every reachable state. Verify
it with `dafny verify dfyconfig.toml`.

**Cron (`Calendar`, `Cron`, `CronSearch`, `CronLaws`, `CronText`, `CronGrammar`).** The expression parser, and the
search for the next run: a loop that skips by day, hour, minute or second, guards against repeated
wall times and gives up after 525600 rounds. Instants are integer nanoseconds; a zone is any function
from UTC seconds to an offset of less than a day, so daylight saving and stranger transitions are
all included. The proleptic Gregorian calendar is built from year lengths and proved equal to its
closed form, with its 400-year cycle. The loop is proved equal to a recursive search, and the search
equal to "the least matching second after the reference". `CronGrammar` defines what an expression's text
says without the parser, and proves the parser, the day rule and the matching equal to it.

**Job leases (`JobTable`, `LeaseLaws`, `LeaseRuns`, `JobHistory`, `JobStores`).** The jobs table as a state machine
with one atomic step per SQL statement. A claim is two steps (lock the rows, then commit) and so is a
failure (read the retry counts, then write), so other steps interleave with both. `JobStores` holds the
statements as methods that update the tables in place, each proved equal to its step and to keep the
invariant. The laws are stated over `LeaseRuns.Run`, any sequence of steps from an empty table. `JobHistory` says,
of the columns themselves, what a row tells about the run so far. Times are milliseconds.

**Webhook retries (`RetryClaim`, `RetryLaws`).** One delivery row, its automatic sender and any number
of manual ones, with database writes that may fail whether or not they took effect.

**Delivery queue (`DeliveryQueue`, `DeliveryLaws`, `DeliveryDrops`, `DeliveryService`).** Admission permits, channel,
fan-out and per-webhook lanes as a state machine. Tasks interleave at every await and at every
acquisition, send and receive; permits that are dropped together, with nothing awaited in between, are
returned in one step. An admission permit in use is a ticket; tickets and free permits are counted.
`DeliveryService` holds the methods that update this state in place and keep its invariant.

**API-key queue scopes (`QueueScope`, `QueueScopeSql`).** The scope algebra in Rust, and the SQL function
that repeats it by joining, escaping, a regular-expression rewrite, splitting and `LIKE`. The lease
protocol's guards use the SQL one.

**Redis limiter and reconnects (`TokenBucket`, `TimeoutTracking`), failure breaker (`Breaker`), Rust source
scanner (`RustScan`, `RustGrammar`, `CommentNesting`, `BracketMatch`).** The limiter's runs carry two clocks, the
servers' readings that refill the bucket and Redis's own that expires the key, with no assumption on
either: which clocks keep its bound, and hide the expiry, is a result. Redis is taken to drop the key no
earlier than its time to live. Timed-out calls count and take the lock in separate steps.

What is assumed: for leases and retries, one clock that never goes back; UUIDs that are fresh and 36
characters long; callers that present tokens only after they were issued; `max_retries >= 0`; application
times sampled before the statement that uses them; PostgreSQL's atomic statements, row locks and
`SKIP LOCKED`; `NOW()` as the time of the step that uses it (`complete_by_worker` opens its transaction
first, so a lease that runs out between the two can in fact still be completed, as can one whose update
waited for a lock); a failed write to a delivery row that takes effect, if at all, before its failure is
reported (an insert that landed later could let two senders use one attempt number); delivery rows that
are not deleted while a delivery is being retried; that the read which checks whether a delivery row exists
gets an answer; and one order of all atomic operations on the reconnect tracker.

Where a comment and the code disagree, the model follows the code. The SQL scope function's comment says
that an entry with a misplaced `*` stays a literal as in Rust; it becomes a pattern when it ends in `.*`,
which matters only for names that hold a `*` themselves (`SqlDifference`, `SameForQueueNames`). The comment
on the branch of
`classify_worker_miss` at src/queue/mod.rs:848-854 calls it reachable through a benign race;
`MissIsNeverBenign` shows that no worker-facing step reaches it. The pending/scheduled branch below it
is unreachable as well.

## Model

| member | source | states |
|---|---|---|
| `Calendar.EveryDateMeetsEveryWeekday` | src/models/schedule.rs:350-357 | every day of the year, February 29th included, falls on every weekday in some year |
| `Cron.Parse` | src/models/schedule.rs:300-336 | whatever the text, an accepted expression has every field in its range and names a date that exists; `CronGrammar.ExpressionExact` says which are accepted and as what |
| `Cron.ParseField` | src/models/schedule.rs:372-434 | an accepted field lies within the bounds it was parsed for; `CronGrammar.FieldExact` says which texts are accepted and as what |
| `Cron.ReachableDateExact` | src/models/schedule.rs:341-370 | the cheap reachability test holds if and only if some Gregorian date matches the three date fields |
| `Cron.NextMatchingDay` | src/models/schedule.rs:551-574 | a parsed schedule's matching days recur within one 400-year cycle after any day |
| `CronText.ParseRender` | src/models/schedule.rs:300-336 | writing any well-formed schedule down and parsing it gives the schedule back |
| `CronText.ParserRange` | src/models/schedule.rs:300-434 | the parser can produce a schedule if and only if it is well formed |
| `CronText.FiveFieldsMeanSecondZero` | src/models/schedule.rs:301-308 | five words apart by any whitespace mean the same as the text after a leading `0 `, errors included |
| `CronSearch.InstantsExact` | src/models/schedule.rs:634-649 | the instants at which a wall time occurs are found exactly and in order, whatever the zone |
| `CronSearch.TryInstant` | src/models/schedule.rs:531-611 | one round of the loop does what the search's step function says: stop here, or skip that far |
| `CronSearch.NextRunAfter` | src/models/schedule.rs:493-622 | the loop with its counter computes the recursive search, for every schedule, zone and reference |
| `CronLaws.SkipSound` | src/models/schedule.rs:574-611 | no day, hour, minute or second skip jumps over a matching second |
| `CronLaws.SkipProgress` | src/models/schedule.rs:574-612 | each skip ends at or before the first match and uses up cost, so rounds are bounded |
| `CronLaws.FirstMatchNear` | src/models/schedule.rs:525-531 | from any second, the first match is fewer than 525600 rounds away |
| `CronLaws.FixedOffsetExact` | src/models/schedule.rs:493-622 | in UTC or any fixed offset the answer exists and is the least whole second strictly after the reference that matches |
| `CronLaws.NeverMeansNever` | src/models/schedule.rs:493-502 | "no next run" is answered if and only if no instant ever matches |
| `CronLaws.AcceptedExpressionsFire` | src/models/schedule.rs:300-336 | every text the parser accepts fires again after every instant, and on time; the cap is never reached |
| `CronLaws.AnswersGoForward` | src/models/schedule.rs:504-589 | in every zone an answer is later, matches all fields, and shows a later wall clock if the minute is neither `*` nor a step and the hour is not `*` |
| `CronLaws.NoWallTimeFiresTwice` | src/models/schedule.rs:481-492 | in every zone, along any chain of runs, instants strictly increase, and no wall second comes twice if the minute is neither `*` nor a step and the hour is not `*` |
| `CronLaws.NextSecondExact` | src/models/schedule.rs:509-545 | in every zone, when the next second matches, it is the answer if and only if the minute is `*` or a step, or the hour is `*`, or the wall clock has not gone back |
| `CronLaws.MidnightSkipExact` | src/models/schedule.rs:624-650 | a non-matching day is left for the earliest instant of the next local midnight, or where it would be if the zone skips it |
| `CronLaws.GuardLandsJustPast` | src/models/schedule.rs:532-545 | sent past a repeated stretch, the search resumes one second after the reference's wall time |
| `CronGrammar.WordsExact` | src/models/schedule.rs:301 | splitting at white space finds exactly the words a text spells |
| `CronGrammar.NumberExact` | src/models/schedule.rs:380-382 | a number is accepted if and only if it is decimal digits, a plus sign allowed, of at most 255 |
| `CronGrammar.FieldExact` | src/models/schedule.rs:372-434 | a word is parsed as a field if and only if the grammar reads it so with its numbers in bounds: `*`, `*/n`, `a-b`, `a,b,...` or a number |
| `CronGrammar.ExpressionExact` | src/models/schedule.rs:300-336 | a text is accepted as a schedule if and only if it has five or six words, each denotes its field, and some Gregorian date has the days asked for |
| `CronGrammar.FieldMeaning` | src/models/schedule.rs:436-448 | a field matches exactly the values its word admits, steps counted from the field's least value; it is restricted exactly when the word does not start with a star |
| `CronGrammar.FiresExactly` | src/models/schedule.rs:551-589 | the six words admit a date and time of day if and only if the schedule matches it: both day words when either starts with a star, else either; Sunday 0 or 7 |
| `CronGrammar.ExpressionNeverFiresTwice` | src/models/schedule.rs:481-492 | in every zone, a text whose minute word does not start with a star and whose hour word is not a star never fires twice on one wall second |
| `JobStores.First` | src/queue/mod.rs:73-75 | finds a row that no other comes before by priority, then age |
| `JobStores.BestBatch` | src/queue/mod.rs:62-76 | the chosen rows are distinct, eligible and unlocked, in order, as many as fit, with no better unlocked row left behind |
| `JobStores.JobStore.Enqueue` | src/queue/mod.rs:178-262 | payloads of too many bytes change nothing; a taken idempotency key inserts nothing and answers the job that has it; else one new row |
| `JobStores.JobStore.SelectClaim` | src/queue/mod.rs:287-334 | locks exactly a best batch, one row for a single claim and 1 to 100 for a batch |
| `JobStores.JobStore.CommitClaim` | src/queue/mod.rs:77-89 | leases every locked row under its own token, changes no other row, drops the locks |
| `JobStores.JobStore.AbortClaim` | src/queue/mod.rs:62-89 | a claim that fails drops its locks and changes no row |
| `JobStores.JobStore.Complete` | src/queue/mod.rs:725-757 | updates the row if and only if the caller holds its live lease; nothing else changes |
| `JobStores.JobStore.ReadFail` | src/queue/mod.rs:898-928 | reads the retry counts if and only if the caller holds the live lease |
| `JobStores.JobStore.WriteFail` | src/queue/mod.rs:930-1066 | reschedules or dead-letters, with the dead-letter row in the same step, if and only if the caller still holds the live lease |
| `JobStores.JobStore.Renew` | src/queue/mod.rs:1294-1333 | extends the lease if and only if the caller holds it, by the requested, stored or fallback length |
| `JobStores.JobStore.Recover` | src/queue/mod.rs:1359-1385 | makes exactly the processing rows whose lease has run out pending, their data and schedule untouched, and counts them |
| `JobStores.JobStore.ReleaseDeregistered` | src/queue/mod.rs:102-147 | requeues, counting a retry, exactly the worker's expired rows that have retries left |
| `JobStores.JobStore.ReleaseLocal` | src/main.rs:269-287 | requeues exactly the processing rows of the given workers in their own organizations, and counts them |
| `LeaseLaws.LiveBackward` | src/queue/mod.rs:713-749 | no step brings an issued token's lease back into force, nor changes the owner or counts of one in force |
| `LeaseLaws.SnapshotCurrent` | src/queue/mod.rs:894-928 | as long as its lease is live, what a fail call read is what the row still holds |
| `LeaseLaws.LockedUntouched` | src/queue/mod.rs:62-76 | rows locked by a claim are changed by no other step |
| `LeaseLaws.BuriedExactly` | src/queue/mod.rs:1011-1066 | a step adds a dead-letter row for a job if and only if it turns that job into a dead letter |
| `LeaseLaws.StepKeepsInv` | src/queue/mod.rs:62-1385 | every step keeps the table's invariant: lease columns match the status, tokens unique, claims disjoint, snapshots current, dead letters faithful |
| `LeaseRuns.RunInv` | src/queue/mod.rs:62-1385 | every table reachable from an empty one satisfies the invariant |
| `LeaseRuns.TokensIssuedOnce` | src/queue/mod.rs:318-334 | no two claims of a run ever give out the same token, to any jobs |
| `LeaseRuns.FencedForever` | src/queue/mod.rs:725-757 | once an issued token is in force on no job, no complete, fail or renewal with it ever succeeds again, whichever job it names |
| `LeaseRuns.OnlyOnItsJob` | src/queue/mod.rs:62-89 | a token is good for one job: wherever it is in force later, that is the job that carries it now |
| `LeaseRuns.LeaseOverForever` | src/queue/mod.rs:725-757 | when the lease a claim granted is over, for whatever reason, no call with its token succeeds any more, on that job or any other |
| `LeaseRuns.OneSettlementPerToken` | src/queue/mod.rs:940-984 | at most one complete or fail succeeds under a token, and after it nothing with that token, whichever jobs the calls name |
| `LeaseRuns.TakenBackForever` | src/queue/mod.rs:1359-1378 | the token of a lease taken back by recovery or a release is fenced out of every job for good |
| `LeaseRuns.ExpiredForever` | src/queue/mod.rs:1307-1323 | the token of an expired lease is never in force again, on any job; renewals do not revive it |
| `LeaseRuns.LeaseEndsOnlySo` | src/queue/mod.rs:91-125 | a live lease ends only when its holder settles, its time runs out, or the process of the worker that holds it shuts down; recovery, deregistration and short renewals leave it |
| `LeaseRuns.FinishedForever` | src/queue/mod.rs:64-72 | a completed or dead-lettered job keeps its status and count for good: no step runs it again |
| `LeaseRuns.ConcurrentClaimsDisjoint` | src/queue/mod.rs:62-76 | claims in flight together hold different jobs, each still waiting |
| `LeaseRuns.CommitLeases` | src/queue/mod.rs:411-441 | a committed job is processing, held by the claim's worker under its own token for 5 to 3600 seconds from the claim, retries untouched |
| `LeaseRuns.EnqueueOncePerKey` | src/queue/mod.rs:210-223 | of all enqueues of a run sharing an organization and an idempotency key, one only inserts |
| `LeaseRuns.SettleableXorRecoverable` | src/queue/mod.rs:1359-1378 | at every instant a processing job is settleable by its holder or recoverable, never both, never neither |
| `LeaseRuns.FailIsAtomic` | src/queue/mod.rs:885-1104 | whatever happened since the read, a fail's write that applies decides on the row's current counts, and buries it exactly when they are equal |
| `LeaseRuns.RetryLedger` | src/queue/mod.rs:940-965 | a job's successful failures plus deregistration releases equal its retry count, plus one if dead-lettered |
| `LeaseRuns.FailuresBounded` | src/queue/mod.rs:930-1066 | retries never exceed their limit, failures never exceed it by more than one, and a job has one dead-letter row if dead-lettered and none otherwise |
| `LeaseRuns.BackoffIsCappedPower` | src/queue/mod.rs:933-934 | clamping the exponent changes nothing: the backoff is min(2^r, 60) seconds |
| `LeaseRuns.NeverLeasedEarly` | src/queue/mod.rs:930-939 | a job that failed at time t with count r is not leased again before t + min(2^r, 60) seconds |
| `LeaseRuns.LengthIsLastGranted` | src/queue/mod.rs:1286-1293 | the stored lease length is always the last one granted explicitly, by a claim or a renewal |
| `LeaseRuns.RenewalLength` | src/queue/mod.rs:1304-1323 | a renewal runs for the length it names, else for the last one granted; the fallback is never used |
| `LeaseRuns.MissIsNeverBenign` | src/queue/mod.rs:815-865 | after a miss and any steps before the follow-up read, the "benign race" and "requeued" arms are not reached |
| `JobHistory.StepChanges` | src/queue/mod.rs:62-1385 | what each step may change: a job's data never; its status only by a claim, its holder's complete or failure, or being taken back, each to the right one; its schedule only by a failure |
| `JobHistory.DataKept` | src/queue/mod.rs:77-89 | over any stretch of a run a job keeps organization, queue, payload, priority, retry limit, age and key |
| `JobHistory.StatusIsEarned` | src/queue/mod.rs:725-738 | a completed job was completed by its holder earlier in the run, a processing one leased by a claim, a dead letter buried by a failure that used up its retries |
| `JobHistory.ProcessingWasDue` | src/queue/mod.rs:64-72 | a processing job's schedule has passed |
| `JobHistory.TakenBackIsClaimable` | src/queue/mod.rs:1359-1378 | recovery and both releases take back exactly the jobs they should; each is pending with data and schedule untouched, and claimable at once unless expired or waiting for another job |
| `JobHistory.SelectedEarlier` | src/queue/mod.rs:287-334 | every open claim was selected earlier in the run for its worker, time and length, in-range lengths as asked, and its rows have not changed since |
| `JobHistory.LeasedForItsRequest` | src/queue/mod.rs:62-89 | a leased job is of the request's organization and queue, due, not expired, with its dependencies met, and leased to the worker for the time asked |
| `JobHistory.ClaimOrder` | src/queue/mod.rs:73-75 | a claim takes due, unlocked jobs, higher priority first, then older, at most 100 and at most as many as asked |
| `JobHistory.LeftBehind` | src/queue/mod.rs:73-75 | a due, unlocked job is left behind only by a full claim, and goes before none that it took |
| `JobHistory.LeaseIsFromClaim` | src/queue/mod.rs:77-89 | a row's token and worker come from one claim that leased the job |
| `JobHistory.OnlyTheHolder` | src/queue/mod.rs:725-757 | a complete, fail or renewal succeeds only for the worker a claim gave that token on that job, in its organization, with a key for its queue |
| `JobHistory.FailureExact` | src/queue/mod.rs:930-1066 | a failure with retries left puts the job off by min(2^r, 60) seconds and under half a second more; the last buries it with its data and the error |
| `JobHistory.EnqueuedIsClaimable` | src/queue/mod.rs:199-223 | a new job has the data it was given and, unless it is for later, is claimable at once |
| `JobHistory.NeverLeasedBeforeSchedule` | src/queue/mod.rs:203-207 | a job enqueued for a later time is not leased before it |
| `JobHistory.MissExact` | src/queue/mod.rs:815-865 | after a miss the report is one of four, each if and only if: not the caller's job, lease run out, another lease, completed |
| `JobHistory.RepeatedComplete` | src/queue/mod.rs:861-863 | repeating a complete that went through is reported as already completed, ever after |
| `QueueScope.PatternPrefix` | src/models/api_key.rs:76-79 | a text has a prefix if and only if it is one, ending in a dot and without `*`, followed by `*` |
| `QueueScope.UnrestrictedMeansEverything` | src/models/api_key.rs:103-105 | "empty or listing `*`" if and only if every name is allowed |
| `QueueScope.CoversExact` | src/models/api_key.rs:116-125 | the test on one entry holds if and only if every name the entry stands for is allowed |
| `QueueScope.GrantExact` | src/models/api_key.rs:338-347 | an unrestricted key may grant any list; a restricted one may if and only if it is non-empty and every name it allows, the key allows |
| `QueueScope.GrantsNeverEscalate` | src/models/api_key.rs:332-347 | along any chain of grants from a restricted key, every key stays restricted and within the first one's scope |
| `QueueScope.FilterMeansScope` | src/models/api_key.rs:355-361 | SQL is given no list exactly when the scope allows every name, and otherwise the scope itself |
| `QueueScope.WorkerAccessExact` | src/models/api_key.rs:318-323 | acting on a worker is allowed if and only if every queue it names is, or every queue if it names none |
| `QueueScopeSql.SqlMeaning` | migrations/20261013130200_queue_scope_patterns_fold.sql:29-53 | for every list and name, joining, escaping, rewriting, splitting and LIKE come to: listed, or under the stem of a piece that ends in `.*` |
| `QueueScopeSql.SqlAgreesExactly` | migrations/20261013130200_queue_scope_patterns_fold.sql:43-53 | SQL and Rust admit the same names if and only if a check on the list holds, for every list, separators included |
| `QueueScopeSql.SqlDifference` | migrations/20261013130100_queue_in_key_scope.sql:9-18 | without separators, SQL admits exactly what Rust does plus the names under an entry with a misplaced `*` |
| `QueueScopeSql.MisplacedStarDiffers` | migrations/20261013130200_queue_scope_patterns_fold.sql:35-36 | the entry `a.*.b.*` is a pattern to SQL and a literal to Rust |
| `QueueScopeSql.SameForQueueNames` | src/models/job.rs:245-255 | for names without `*`, as queue names are, the bound filter and the scope agree whatever stars the list holds |
| `QueueScopeSql.FilterExact` | src/models/api_key.rs:349-361 | on every list that key creation accepts, the bound filter admits exactly the names the scope allows |
| `RetryClaim.DeliveryRow.ClaimRetry` | src/outgoing_webhooks/service.rs:818-847 | claims if and only if the row failed, has the expected count below the cap and no claim newer than two minutes; the claim owns the row |
| `RetryClaim.DeliveryRow.RecordAttempt` | src/outgoing_webhooks/service.rs:1028-1146 | a claimed write applies only under its token, and a write that applies makes the row a success exactly when the attempt was delivered; says superseded or released exactly when it should; unclaimed writes upsert |
| `RetryLaws.StepKeepsInv` | src/outgoing_webhooks/service.rs:349-1146 | every step of every sender keeps the invariant: attempts and token advance together, holders have distinct tokens, unsent numbers are unused |
| `RetryLaws.AttemptNumbersDistinct` | src/outgoing_webhooks/service.rs:756-811 | every request of a delivery carries its own attempt number, however automatic and manual retries race |
| `RetryLaws.RequestsBounded` | src/outgoing_webhooks/service.rs:409-435 | at most max(max_attempts, 10) requests go out for a delivery |
| `RetryLaws.TokenMeansAttempts` | src/outgoing_webhooks/service.rs:1048-1076 | a claim whose token is the row's has the row's attempt count |
| `RetryLaws.OldTokenNeverWrites` | src/outgoing_webhooks/service.rs:1050-1106 | once the row was claimed again, the old token's holder never changes it |
| `RetryLaws.SuccessIsFinal` | src/outgoing_webhooks/service.rs:1048-1146 | a row that says success never changes again |
| `RetryLaws.ClaimExcludes` | src/outgoing_webhooks/service.rs:813-847 | within two minutes of a claim, and until its holder writes, no other claim succeeds |
| `RetryLaws.DeliveredStops` | src/outgoing_webhooks/service.rs:1219-1234 | a sender whose request was delivered never sends again, whatever became of its row write |
| `RetryLaws.SuccessWasDelivered` | src/outgoing_webhooks/service.rs:1037-1040 | the row says success only if some earlier request was answered with one |
| `RetryLaws.OutcomeIsRecorded` | src/outgoing_webhooks/service.rs:1028-1146 | a delivered attempt written under the row's token, or unclaimed, makes the row a success for good; no other outcome does, and the row is then free to be claimed |
| `RetryLaws.RetriesExactly` | src/outgoing_webhooks/service.rs:701-724 | the automatic sender goes on, with the next number, if and only if its attempt failed with attempts left and nobody took the row over; manual retries never do |
| `RetryLaws.NextClaimSucceeds` | src/outgoing_webhooks/service.rs:1080-1106 | after a recorded failure or a release that landed, the next automatic claim can succeed at once |
| `RetryLaws.ClearedExactly` | src/outgoing_webhooks/service.rs:755-811 | a sender may send if and only if it is attempt 1, has claimed the row for the next number under a new token, or, automatic only, finds no row at all |
| `RetryLaws.ManualRetryReads` | src/outgoing_webhooks/service.rs:349-369 | a manual retry goes on exactly from a failed row, with the count it read |
| `DeliveryService.Service.Enqueue` | src/outgoing_webhooks/service.rs:471-495 | an item that holds a permit is always appended; the branch for a full channel is not taken |
| `DeliveryService.Service.Put` | src/outgoing_webhooks/service.rs:471-495 | the send as written: appends when there is room, otherwise drops the item, returning all it holds, and counts it |
| `DeliveryService.Service.Receive` | src/outgoing_webhooks/service.rs:546-574 | a consumer takes the first item of the channel in hand |
| `DeliveryService.Service.QueueEvent` | src/outgoing_webhooks/service.rs:306-325 | takes one permit and queues the event, or counts a drop, if and only if a permit is free |
| `DeliveryService.Service.Prune` | src/outgoing_webhooks/service.rs:660-665 | past 1024 lanes a new webhook's arrival keeps exactly the lanes with a share in use |
| `DeliveryService.Service.LaneShare` | src/outgoing_webhooks/service.rs:660-674 | takes a unit of the webhook's lane, made if missing, or drops the delivery |
| `DeliveryService.Service.Admit` | src/outgoing_webhooks/service.rs:624-637 | uses the carried permit, else a free one, else returns the share and drops |
| `DeliveryService.Service.FanOut` | src/outgoing_webhooks/service.rs:580-657 | every matching webhook is queued or counted as dropped; no permit is made or lost; one still carried goes back |
| `DeliveryService.Service.Work` | src/outgoing_webhooks/service.rs:677-694 | takes a lane slot or parks the delivery, with no other change |
| `DeliveryService.Service.LaneTurn` | src/outgoing_webhooks/service.rs:682-692 | a waiting delivery takes its lane's next slot and goes back to the channel |
| `DeliveryService.Service.Request` | src/outgoing_webhooks/service.rs:806-810 | takes one request slot, process-wide, for the request itself |
| `DeliveryService.Service.BeginManual` | src/outgoing_webhooks/service.rs:437-451 | a manual retry takes a request slot and no lane slot |
| `DeliveryService.Service.EndAttempt` | src/outgoing_webhooks/service.rs:697-699 | frees the request and lane slots before the outcome is written |
| `DeliveryService.Service.Settle` | src/outgoing_webhooks/service.rs:700-723 | once the outcome is written: back off keeping permit and share, or return everything |
| `DeliveryLaws.RoomToSend` | src/outgoing_webhooks/service.rs:148-151 | an item about to be sent always finds room in the channel |
| `DeliveryLaws.PruningKeepsLiveLanes` | src/outgoing_webhooks/service.rs:662-665 | pruning never discards a lane with a share in use |
| `DeliveryLaws.StepKeepsInv` | src/outgoing_webhooks/service.rs:306-866 | every step keeps every count: admission permits, lane shares, lane slots and request slots |
| `DeliveryLaws.PermitsConserved` | src/outgoing_webhooks/service.rs:145-147 | free permits plus admitted, unresolved items always equal the queue capacity; requests in flight stay within the slots |
| `DeliveryLaws.SendNeverFull` | src/outgoing_webhooks/service.rs:148-151 | in every run every send goes into the channel and nothing is dropped there |
| `DeliveryLaws.EverythingReturns` | src/outgoing_webhooks/service.rs:145-147 | once every item has resolved, every permit, share and slot is back and the channel is empty |
| `DeliveryLaws.OneLivePerWebhook` | src/outgoing_webhooks/service.rs:660-674 | live deliveries to one webhook are on one lane, however often lanes were pruned |
| `DeliveryLaws.WebhookBounded` | src/outgoing_webhooks/service.rs:90-94 | a webhook's live queued deliveries never exceed its queue share, nor their requests in flight its slots |
| `DeliveryLaws.LimitsSettled` | src/outgoing_webhooks/service.rs:96-120 | derived limits need no correction, normalizing is idempotent, and from four slots up a webhook gets at most a quarter |
| `DeliveryDrops.DropsExactly` | src/outgoing_webhooks/service.rs:306-325 | in every run, something is dropped if and only if every admission permit, or the webhook's whole share, is in use at that step; one item at a time |
| `DeliveryDrops.WaitsExactly` | src/outgoing_webhooks/service.rs:677-694 | a delivery gets a slot at once if and only if fewer than the webhook's slots are in use |
| `DeliveryDrops.IdleHoldsNoSlot` | src/outgoing_webhooks/service.rs:697-699 | a delivery that waits, is being settled or backs off holds no lane or request slot |
| `DeliveryDrops.ForgetsExactly` | src/outgoing_webhooks/service.rs:660-665 | another webhook's lane is forgotten if and only if there are 1024 or more, the arriving webhook has none, and nobody holds a share of it |
| `DeliveryDrops.LimitsInNumbers` | src/outgoing_webhooks/service.rs:96-120 | n slots up to 1024, sixteen times as long a queue, a quarter of each per webhook; limits are corrected if and only if out of range |
| `Breaker.WebhookRow.RecordDeliveryOutcome` | src/outgoing_webhooks/service.rs:875-898 | the row after one resolved delivery |
| `Breaker.WebhookRow.RecordAttemptSummary` | src/outgoing_webhooks/service.rs:1148-1176 | the row after one attempt's summary write |
| `Breaker.WebhookRow.Reenable` | src/api/handlers/outgoing_webhooks.rs:271-292 | switching a webhook on again clears the count and leaves the status |
| `Breaker.BreakerExact` | src/outgoing_webhooks/service.rs:868-898 | from any row: the count is the trailing run of failures; disabled if and only if it was or twenty in a row tripped it; marked if and only if they did, or an old marker has not been written over |
| `Breaker.BreakerFromZero` | src/outgoing_webhooks/service.rs:1148-1176 | from an enabled row with count 0, re-enabled ones included: disabled if and only if twenty in a row occurred; marked if and only if disabled, or marked before and no attempt since |
| `Breaker.OffStaysMarked` | src/outgoing_webhooks/service.rs:1153-1176 | from any row: once disabled and marked, no later write enables the webhook or erases the marker |
| `TokenBucket.Limiter.Check` | src/cache/mod.rs:678-774 | a zero rate or capacity refuses and touches nothing; otherwise the answer, the new bucket and when Redis stored it |
| `TokenBucket.Limiter.Expire` | src/cache/mod.rs:703-706 | Redis drops the key once its own clock is the TTL past the last request |
| `TokenBucket.ServedValid` | src/cache/mod.rs:719-752 | tokens stay within the capacity and the count reported stays below it |
| `TokenBucket.AllowedBound` | src/cache/mod.rs:719-752 | for any clocks and any drops of the key, requests allowed in any window of any run are at most capacity plus rate times the readings' forward moves, plus a capacity for every drop before a full refill |
| `TokenBucket.WindowBound` | src/cache/mod.rs:670-677 | with clocks that keep pace, and whenever Redis drops the key, at most capacity plus rate times the length of the window |
| `TokenBucket.BoundExact` | src/cache/mod.rs:725-750 | that bound holds in every window, under every limit, burst size and choice of drops, if and only if the readings never go back and keep pace with Redis |
| `TokenBucket.ThreeRequestsExact` | src/cache/mod.rs:725-750 | without bursts: three requests, first and last with one reading, keep the bound if and only if the readings stand still and Redis has no time to drop the key |
| `TokenBucket.EvictionExact` | src/cache/mod.rs:719-724 | a request cannot tell a bucket from none if and only if the bucket is full by then |
| `TokenBucket.EvictionNeverObservable` | src/cache/mod.rs:703-706 | where the readings keep up with Redis, dropping idle keys or keeping them gives the same answers over a whole run |
| `TokenBucket.ExpiryHiddenExactly` | src/cache/mod.rs:703-706 | expiry is unobservable in every window, under every limit and burst size, if and only if a minute or more of Redis's time between requests moves the readings on by half of it, in whole seconds |
| `TokenBucket.TokenFlow` | src/cache/mod.rs:719-740 | in numbers: a new bucket is full, `rate` tokens a second flow in up to the capacity, none when the reading goes back, and a request takes one if there is one |
| `TokenBucket.RetryAfterExact` | src/cache/mod.rs:788-801 | after a refusal an undisturbed bucket allows a request exactly from `retry_after_ms` on, which equals `next_token_ms` |
| `TokenBucket.NextTokenExact` | src/cache/mod.rs:741-747 | whole tokens go up exactly from `next_token_ms` on, after every answer |
| `TimeoutTracking.TimeoutTracker.Answer` | src/cache/mod.rs:72-76 | the tracker after an answer |
| `TimeoutTracking.TimeoutTracker.Count` | src/cache/mod.rs:79-82 | counts a timeout; goes on to the lock from the third in a row on |
| `TimeoutTracking.TimeoutTracker.TimedOut` | src/cache/mod.rs:79-82 | a timed-out call that nothing overtakes: count, then lock |
| `TimeoutTracking.TimeoutTracker.ReconnectDue` | src/cache/mod.rs:86-97 | under the lock: grants unless the last reconnect is under a second old, then clears the count |
| `TimeoutTracking.ReconnectsAreSpaced` | src/cache/mod.rs:52-54 | any two reconnects of a run are at least a second apart |
| `TimeoutTracking.LatestReconnect` | src/cache/mod.rs:86-97 | the time on record is that of the latest reconnect, in every run |
| `TimeoutTracking.TimeoutReconnectExact` | src/cache/mod.rs:78-97 | whatever overtakes it, a call reaches the lock only as at least the third timeout since the count was cleared, and is then granted a reconnect if and only if the latest is a second old |
| `TimeoutTracking.FewTimeoutsNeverAsk` | src/cache/mod.rs:79-82 | a first or second timeout never reaches the lock |
| `TimeoutTracking.AnswerCanComeTooLate` | src/cache/mod.rs:79-82 | an answer between the third count and the lock does not stop the reconnect |
| `RustGrammar.RawStringExact` | scripts/check_openapi_drift.py:54 | a raw string opens if and only if `r` or `br`, then hashes only, then a quote stand there, and with those hashes; none opens if and only if there are no such places |
| `RustGrammar.CharLiteralExact` | scripts/check_openapi_drift.py:55 | a character literal stands if and only if its pattern matches, and where it ends |
| `RustGrammar.TokenExact` | scripts/check_openapi_drift.py:73-124 | at every place the scanner reads a token if and only if the grammar has it there: line and block comments, raw strings not in a name, strings, character literals, with their exact ends or errors |
| `RustScan.FindBlockEnd` | scripts/check_openapi_drift.py:85-93 | the loop finds the end that `BlockCommentExact` characterises |
| `RustScan.FindQuoteEnd` | scripts/check_openapi_drift.py:107-110 | the loop finds the closing quote, skipping escapes |
| `CommentNesting.BlockCommentExact` | scripts/check_openapi_drift.py:85-97 | a block comment ends right after the closer that matches its opener, with everything between properly nested, or runs to the end of the text if none matches |
| `RustScan.ReadToken` | scripts/check_openapi_drift.py:73-124 | the branches read the token the lexer defines, which `RustGrammar.TokenExact` characterises |
| `RustScan.Emit` | scripts/check_openapi_drift.py:78-124 | what is appended to the two views, character by character |
| `RustScan.ScanRust` | scripts/check_openapi_drift.py:62-127 | the scan ends for every text, at the first unterminated literal or with both views of the whole text |
| `RustScan.ScanUnique` | scripts/check_openapi_drift.py:62-127 | a text has one tokenization and scans to one outcome |
| `RustScan.ViewsAligned` | scripts/check_openapi_drift.py:58-69 | both views have the source's length, keep every newline, and agree with it outside comments and literal bodies |
| `RustScan.QuoteEndUnescaped` | scripts/check_openapi_drift.py:107-115 | a string ends at its first quote with an even number of backslashes before it |
| `RustScan.BracketsAreCode` | scripts/check_openapi_drift.py:65-67 | a bracket in the code view stands at the same place in the source, outside comments and literals |
| `BracketMatch.ExpectsNested` | scripts/check_openapi_drift.py:132-143 | the stack discipline accepts exactly the properly nested texts |
| `BracketMatch.MatchingClose` | scripts/check_openapi_drift.py:130-144 | the closing bracket with nested text in between, or an error exactly when there is none, saying which kind and where |
| `BracketMatch.CloseExact` | scripts/check_openapi_drift.py:130-144 | a bracket is closed exactly at the first place where the depth returns to zero |
| `BracketMatch.CloseUnique` | scripts/check_openapi_drift.py:130-144 | a bracket closes at one place at most |

## Left out

- Cron leastness in named zones: it depends on the shape of the zone's transitions; order, matching and single firing are proved for all zones.
- chrono's largest year and the width of timestamps: instants are unbounded integers.
- Lua's doubles and Rust's `f64` in the token bucket: rate arithmetic is over reals.
- Python's `str.isalnum` in the scanner: a parameter, any predicate on characters.
- Job dependencies: `check_job_dependencies_met` and the completion triggers are SQL; `dependencies_met` and `expires_at` change by arbitrary outside steps.
- `complete`, `complete_with_worker*` and `fail` (src/queue/mod.rs:472-689, 1118-1253): they carry no lease token and serve the embedded test worker; only the two shutdown releases of that kind are steps of the model.
- Paused queues, history rows, `updated_at`, Redis notifications, worker heartbeats and retention deletes: no bearing on leases or retries.
- The scheduler, job and workflow handlers and the gRPC services: they call the modelled operations.
- Completion webhooks (src/outgoing_webhooks/service.rs:1315-1516): a second gate with the same permits and lanes.
- The webhook re-read before an attempt, URL validation, signing, rendering and response bodies: an attempt may be abandoned, rejected, failed or delivered at will.
- The number of consumers: any number of items may be in hand at once, which only allows more interleavings.
- `split_args` and the later stages of the drift script, plan and configuration merging, pagination, security and observability code: they would only add easy members.
