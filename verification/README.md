# Verified models of the framework's concurrent and algorithmic core

This project models the parts of the web framework whose correctness does not show in any single function, and proves
what they are for. Run `dafny verify dfyconfig.toml` in this directory to check it (Dafny 4.11).

| part | files | what is proved |
|---|---|---|
| durable lease protocol (`contrib/asyncpostgres`) | `LeaseRow`, `LeaseBudget`, `LeaseProtocol`, `LeaseInvariants`, `LeaseTheorems`, `LeaseExclusive`, `LeaseOutcome`, `LeaseStale`, `LeaseRecovery`, `LeaseStore`, `LeaseExecutor` | fencing, when old calls are not fenced, exclusivity of leases in time, how deliveries end, delivery budget and its guard, terminal rows, idempotency, crash recovery |
| in-memory executor (`async/memory.go`) | `MemoryExecutor`, `MemoryInvariants`, `MemoryTheorems`, `MemoryOutcome`, `MemoryKeys`, `MemoryService` | service order, complete drain, outcomes, metrics conservation, which keys tell operations apart |
| token-bucket rate limiter (`middleware/rate_limit.go`) | `RateLimiter`, `RateTheorems`, `RateExact`, `RateTable`, `RateForgetting` | rate bound in any order of times, exact answers and delays, which keys are remembered, when forgetting is invisible |
| JSON field selection (`openapi/schema.go`) | `JsonWalk`, `JsonPaths`, `JsonSelect`, `JsonRule`, `JsonFields` | the cut of the cyclic walk is invisible, the in-place filter gives exactly the dominant fields of all paths |
| event streams (`sse/`) | `SseStream`, `SseEvent`, `SseTheorems`, `SseHub`, `SseHubService`, `SseHubTheorems` | printer and standard reader round trip, delivery over whole runs |
| named-route URLs (`route.go`) | `UrlText`, `RouteUrl`, `RouteTheorems` | URL round trip, when it succeeds, shape of the result |
| latency histogram (`internal/load/load.go`) | `LatencyHistogram` | quantile against the nearest-rank percentile |

`Prelude`, `Operations`, `Text` and `Splitting` hold shared vocabulary.

**Concurrency.** The lease protocol is a transition system: each SQL statement is one atomic step on the table, and between
steps any worker may stall, crash, lose the outcome of a statement, or be told to shut down. A row carries, beside its columns,
the history of its leases, which no statement reads. `LeaseStore` and `LeaseExecutor` are the imperative side: the statements
as methods on a table, and the worker as a loop, where a script supplies what other connections and the handler do.
The table records which statements reached it; `StatementsAgree`, `MoveIsNextPhase` and `IssuesAgree` connect the two
sides. The in-memory executor and the event hub are built the same way: a step function on a state value, invariants and theorems over all runs of steps, and a class whose methods each take
exactly one step.

**Results that are not what one might expect, each with its exact condition.** `attempt` is both delivery budget and fencing
token, and a lease handed back at the shutdown deadline lowers it. For a delivery that a worker is running this is harmless
(`Fencing`), but a call left over from an ended delivery can match a newer lease: when this can still happen is
decided by whether its worker is about to lease and the row can come back to its number (`OldCallMatchesAheadIff`). The
lease query does not check the budget of waiting rows; the budget holds exactly as long as every retry passes the executor's guard (`GuardKeepsBudget`). In memory, a
NUL inside a scope, name or key can make two different triples share an operation (`SharedIff`). And forgetting idle keys is
invisible exactly under the rule that the burst is at most the request count (`ForgettingInvisibleIff`), provided no request
is served with a time before the last cleanup (`EarlyRequestShows`).

## Model

| member | source | states |
|---|---|---|
| LeaseTheorems.Fencing | contrib/asyncpostgres/store.go:349-463 | in every reachable state, for the delivery a worker is running, the shared WHERE clause of progress, extend, succeed, retry, fail and release matches if and only if the row is running and that delivery is its most recent lease |
| LeaseTheorems.SupersededChangesNothing | contrib/asyncpostgres/store.go:349-463 | a worker whose row was leased again changes no row, whichever of its statements it still issues |
| LeaseStale.StaleMatchesIff | contrib/asyncpostgres/store.go:349-390 | in every reachable state a renewal or progress call of any lease, current or past, matches if and only if the row is running and either that lease is the newest, or it was handed back wholesale and the same worker got the newest lease under the same attempt number |
| LeaseStale.StaleFencing | contrib/asyncpostgres/store.go:349-390 | calls of a lease that was never handed back, or whose instance never handed back wholesale, match exactly while that lease is the newest |
| LeaseStale.OldCallMatchesAheadIff | contrib/asyncpostgres/store.go:349-463 | for every lease of every reachable state: some continuation lets one of its calls match a newer lease if and only if one does already; or its worker is past accepting() with its next lease statement still to come, and the row runs under this lease, or the lease was handed back and the row waits for or runs under its number; or the row runs under this lease and its instance still accepts |
| LeaseStale.HandedBackMatchesAheadIff | contrib/asyncpostgres/store.go:349-463 | when the newest lease was handed back, this is so if and only if the row is unfinished and its worker is past accepting() with its next lease statement still to come |
| LeaseStale.CannotKept | contrib/asyncpostgres/store.go:307-463 | a lease whose calls cannot match a newer one in any continuation is in that condition after every step |
| LeaseStale.KeptNeverMatchesAgain | contrib/asyncpostgres/store.go:349-463 | calls of a superseded lease that was never handed back never match again, whatever happens |
| LeaseStale.StepStaleInv | contrib/asyncpostgres/store.go:326-463 | every step keeps: each lease carries the number after those kept before it, leases go only to instances that handle the row, released instances and those of exited workers have stopped |
| LeaseStale.StaleAfterWholesaleRelease | contrib/asyncpostgres/store.go:454-463 | such a match is reached from an empty table: a complete run in which a statement of an old delivery matches a newer lease |
| LeaseExclusive.LeaseIsExclusive | contrib/asyncpostgres/store.go:326-390 | after a lease granted at time t for leaseMs, the row stays with that owner and attempt and nobody is granted it before t + 1000 * leaseMs, in any run in which the delivery is not ended by its worker, a cancel or a hand-back |
| LeaseExclusive.RenewalIsExclusive | contrib/asyncpostgres/store.go:374-390 | the same from a renewal of the newest lease on |
| LeaseExclusive.LeaseRunsOut | contrib/asyncpostgres/store.go:308-346 | a lease that nobody ends or renews is over exactly at t + 1000 * leaseMs: from then on, and not before, a worker that handles the row can be granted it if an attempt is left, and the expiry statement fails it if none is |
| LeaseExclusive.NotBeforeDue | contrib/asyncpostgres/store.go:326-346 | whatever happens, a waiting row is not granted before its due time |
| LeaseExclusive.LeasedFromDue | contrib/asyncpostgres/store.go:326-346 | and as long as nobody leases or cancels it, it can be leased exactly from its due time on |
| LeaseExclusive.EarliestFirst | contrib/asyncpostgres/store.go:333-336 | the granted row is due no later than any other available row, and created no later than one due at the same time |
| LeaseExclusive.NotOvertakenTwice | contrib/asyncpostgres/store.go:326-346 | a row leased at time t is not leased again while another row that is due since before t is there for the asking |
| LeaseExclusive.RunKeepsRequest | contrib/asyncpostgres/schema.sql:1-22 | name, key, scope, attempts, backoffs and creation time of a row never change |
| LeaseOutcome.DeliveryConcludes | contrib/asyncpostgres/executor.go:328-366 | column by column how a delivery that was not stored ends, whatever others do between the look at accepting() and the last statement: cancelled during shutdown it is handed back, due now and without its attempt; an operation error fails it with that code and message; else with an attempt left it waits min(initial * 2^(attempt-1), maximum); else it fails with operation_timeout or operation_failed; no other row changes |
| LeaseOutcome.SuccessIsStored | contrib/asyncpostgres/store.go:392-401 | a value returned in time is stored as the result while the row runs under its delivery, and no other row changes |
| LeaseOutcome.LeaseCallWrites | contrib/asyncpostgres/store.go:307-347 | what the two statements of a lease call write: one row leased, with its first start time kept, and exactly the overdue rows on their last delivery failed |
| LeaseOutcome.CancelAndReleaseWrite | contrib/asyncpostgres/store.go:454-463 | cancelling ends exactly an unfinished row; the wholesale hand-back returns exactly the running rows of the instance |
| LeaseOutcome.RunningWrites | contrib/asyncpostgres/store.go:349-390 | progress and renewals of the newest lease write their column while the row runs, and nothing else |
| LeaseOutcome.SubmissionIsStored | contrib/asyncpostgres/store.go:117-141 | a submission without conflict becomes a pending row, due when created, that asks for what was submitted |
| LeaseTheorems.HandlerAlwaysFound | contrib/asyncpostgres/executor.go:286-295 | a worker only runs operations its instance has a handler for, so the no-handler branch cannot lease forever |
| LeaseTheorems.BudgetConserved | contrib/asyncpostgres/store.go:307-463 | in every reachable state leases granted minus leases handed back is `attempt`, at most max_attempts; running rows have at least 1, waiting rows less than max_attempts; deliveries never handed back have strictly growing attempt numbers; schema checks and row shape hold |
| LeaseTheorems.TerminalForever | contrib/asyncpostgres/store.go:182-189 | a terminal row is unchanged in every later state of every run |
| LeaseTheorems.OneOperationPerTriple | contrib/asyncpostgres/store.go:117-159 | two answers to keyed submissions carry the same id if and only if scope, name and key agree, under any interleaving of INSERTs and follow-up SELECTs |
| LeaseTheorems.FollowUpSelectFinds | contrib/asyncpostgres/store.go:148-159 | the SELECT after a conflicting INSERT finds a row, and only one |
| LeaseTheorems.RunInv | contrib/asyncpostgres/store.go:117-463 | the whole invariant (row shape, budget, ledger, workers, history, keys) holds along every run |
| LeaseTheorems.ReachedInv | contrib/asyncpostgres/store.go:117-463 | an empty table satisfies the invariant, hence so does every reachable state |
| LeaseRow.DeliveryBudget | contrib/asyncpostgres/store.go:307-463 | the ledger of one row: grants minus hand-backs is the attempt counter, and grants that were kept carry distinct attempt numbers within the budget |
| LeaseBudget.GuardKeepsBudget | contrib/asyncpostgres/executor.go:334-349 | take the statements with their WHERE clauses only: along every run of them on a row the delivery budget holds throughout if and only if every retry was issued with an attempt left, which is the guard of the executor |
| LeaseBudget.UnguardedOverruns | contrib/asyncpostgres/store.go:326-340 | without that guard every row on its last delivery can be retried and leased once more, ending at max_attempts + 1 |
| LeaseBudget.OneAttemptTwice | contrib/asyncpostgres/store.go:326-340 | a new operation with one attempt is so delivered twice |
| LeaseRow.AffectKeepsEntryOk | contrib/asyncpostgres/store.go:181-463 | every statement the executor may issue on a row keeps its CHECK constraints, its null pattern, its budget and its lease ledger |
| LeaseRow.AffectKeepsRow | contrib/asyncpostgres/schema.sql:1-22 | the same for the columns alone |
| LeaseRow.AffectKeepsLedger | contrib/asyncpostgres/store.go:326-463 | leasing and handing back keep the attempt numbers of kept grants at exactly 1..attempt |
| LeaseRow.TerminalFrozen | contrib/asyncpostgres/store.go:186-189 | no permitted statement changes a terminal row |
| LeaseInvariants.StepInv | contrib/asyncpostgres/store.go:117-463 | every step of every worker, caller or clock keeps the invariant |
| LeaseInvariants.InitInv | contrib/asyncpostgres/schema.sql:1-26 | the empty table satisfies the invariant |
| LeaseInvariants.StepPermitted | contrib/asyncpostgres/executor.go:328-358 | whatever step a worker takes, its statement only touches rows it is permitted to touch; retry is only issued below the budget |
| LeaseInvariants.TableKept | contrib/asyncpostgres/store.go:307-463 | every row stays well formed across a step, including a newly inserted one |
| LeaseInvariants.WorkersKept | contrib/asyncpostgres/executor.go:268-367 | what each sequential worker believes about its delivery stays true of the table |
| LeaseInvariants.HistoryKept | contrib/asyncpostgres/store.go:326-463 | attempt numbers of kept grants grow, and a grant handed back has an owner that is retired or was released wholesale |
| LeaseInvariants.KeysKept | contrib/asyncpostgres/schema.sql:24-26 | at most one row per idempotency triple, and every answer given points to it |
| LeaseInvariants.ConflictKept | contrib/asyncpostgres/store.go:123-126 | a row that once conflicted with a triple always will |
| LeaseRecovery.LeasesBounded | contrib/asyncpostgres/store.go:307-347 | in any run without submissions and hand-backs, the sum of max_attempts - attempt over unfinished rows of the handled names bounds the leases that took effect: replicas with different names, overlapping calls, crashes between any two statements, lost and in-doubt outcomes, deliveries ending in any way |
| LeaseRecovery.LeasesExact | contrib/asyncpostgres/store.go:307-347 | when workers only lease and crash, in any interleaving, each lease uses up exactly one of them |
| LeaseRecovery.RecoveryTerminates | contrib/asyncpostgres/store.go:307-347 | among more lease statements in such a run than that sum, one finds nothing |
| LeaseRecovery.NothingStuck | contrib/asyncpostgres/store.go:307-347 | an uninterrupted lease call after all due times, with no row locked by others, that finds nothing leaves every row its worker handles terminal |
| LeaseRecovery.StepCost | contrib/asyncpostgres/store.go:307-463 | a step that leases uses up at least one remaining delivery and no other step of such a run adds one; expiry and leasing move the sum by exactly the leases |
| LeaseRecovery.SweptRow | contrib/asyncpostgres/store.go:308-331 | right after the expiry statement, a row past its due time is finished or a lease candidate |
| LeaseStore.StatementsAgree | contrib/asyncpostgres/store.go:117-463 | the statements of the table, as functions on its rows, and the steps of the protocol change the rows alike |
| LeaseStore.ConflictAgrees | contrib/asyncpostgres/schema.sql:24-26 | the partial unique index and the protocol's conflict condition agree |
| LeaseStore.Store.constructor | contrib/asyncpostgres/schema.sql:1-22 | an empty table |
| LeaseStore.Store.Insert | contrib/asyncpostgres/store.go:117-141 | inserts exactly when the key is empty or no row carries the triple; otherwise nothing changes |
| LeaseStore.Store.SelectByKey | contrib/asyncpostgres/store.go:148-159 | finds a row of the triple if there is one |
| LeaseStore.Store.Cancel | contrib/asyncpostgres/store.go:182-207 | cancels exactly an open row, and tells a finished row from an unknown id |
| LeaseStore.Store.Sweep | contrib/asyncpostgres/store.go:308-311 | fails exactly the running rows whose last delivery ran out, and no other row changes |
| LeaseStore.Store.Lease | contrib/asyncpostgres/store.go:326-346 | leases, with all columns stated, a row of a handled name that is due or whose lease ran out with an attempt left, first in due order among the unlocked ones, or finds none when none is available |
| LeaseStore.Store.Update | contrib/asyncpostgres/store.go:392-451 | an owned update takes effect exactly when owner, attempt and status still match |
| LeaseStore.Store.Progress | contrib/asyncpostgres/store.go:349-374 | refuses values outside 0..100 and otherwise takes effect exactly under the fence |
| LeaseStore.Store.ReleaseInstanceLeases | contrib/asyncpostgres/store.go:454-463 | hands back exactly the running rows of the instance |
| LeaseExecutor.NormalizeRetry | contrib/asyncpostgres/store.go:537-560 | accepts exactly the listed policies, keeps explicit values, fills in the defaults, and returns what satisfies the CHECK constraints after rounding to milliseconds |
| LeaseExecutor.RetryBackoff | contrib/asyncpostgres/executor.go:485-494 | the guarded doubling loop computes min(initial * 2^(attempt-1), maximum) and never doubles past the maximum |
| LeaseExecutor.DoubledGrows | contrib/asyncpostgres/executor.go:485-494 | doubling is monotone, so stopping early at the maximum loses nothing |
| LeaseExecutor.MoveIsNextPhase | contrib/asyncpostgres/executor.go:268-367 | a worker's move through its loop is the protocol's next phase for every enabled step |
| LeaseExecutor.IssuesAgree | contrib/asyncpostgres/store.go:307-463 | executing the statements a worker issues at a step changes the rows exactly as the protocol's step does, also when an outcome is lost |
| LeaseExecutor.WalkInOrder | contrib/asyncpostgres/executor.go:268-367 | in every walk of a worker a lease statement directly follows an expiry statement known to have taken effect, a handler a lease known to be granted, the last statement a look at accepting(), and the next look at accepting() the end of a call or delivery |
| LeaseExecutor.Executor.constructor | contrib/asyncpostgres/executor.go:129-159 | a new executor is in state created |
| LeaseExecutor.Executor.Start | contrib/asyncpostgres/executor.go:190-206 | starts exactly once, from the created state |
| LeaseExecutor.Executor.StopAccepting | contrib/asyncpostgres/executor.go:412-418 | a running executor starts stopping, any other state stays; afterwards nothing is accepted |
| LeaseExecutor.Executor.Submit | contrib/asyncpostgres/store.go:86-160 | exactly which submissions are refused; an accepted one inserts one normalized row or returns the row of its triple, whatever other connections do between the two statements and whichever of them fails or succeeds unseen |
| LeaseExecutor.Executor.Run | contrib/asyncpostgres/executor.go:286-367 | one delivery from handler to last statement: the worker walks the protocol phases back to idle and exactly the statements of that walk reach the database; a value returned in time, encoded and stored leaves the row succeeded with it, any other end leaves the row as DeliveryConcludes says, by its columns; a delivery without handler is handed back |
| LeaseExecutor.Executor.Handle | contrib/asyncpostgres/executor.go:302-327 | the success statement is issued exactly for a value returned in time that can be encoded, and stores that value; otherwise the rows are untouched |
| LeaseExecutor.Executor.Conclude | contrib/asyncpostgres/executor.go:328-366 | a delivery that was not stored as a success ends with exactly one owned statement; by its columns the row is handed back, retried after the capped exponential backoff, or failed with the right code and message |
| LeaseExecutor.Executor.Issue | contrib/asyncpostgres/store.go:392-451 | one owned statement takes effect on the row or is lost |
| LeaseExecutor.Executor.Worker | contrib/asyncpostgres/executor.go:268-284 | a worker's whole log is a walk through the protocol phases, exactly the statements of that walk reached the database in that order, and it exits only when the executor no longer accepts |
| LeaseExecutor.Executor.Iterate | contrib/asyncpostgres/executor.go:271-283 | the same for one pass, which ends idle, or exits when the executor no longer accepts |
| LeaseExecutor.Executor.LeaseAndRun | contrib/asyncpostgres/executor.go:272-282 | the expiry statement and, only once it took effect, the lease query; either may be lost |
| LeaseExecutor.Executor.Grasp | contrib/asyncpostgres/store.go:326-346 | the lease query grants the first due row among the unlocked ones, never one under an unexpired lease, and its delivery, with the row's next attempt number, is run; it finds nothing only when none is available |
| LeaseExecutor.Executor.Shutdown | contrib/asyncpostgres/executor.go:233-266 | refused before start, nothing after stop; otherwise it stops, and hands back the instance's leases exactly when the workers did not drain |
| MemoryTheorems.ServedOnceInOrder | async/memory.go:311-357 | the ids popped so far followed by the queue are exactly the accepted ids in order, without repeats and within the capacity; every handler is started at most once, for a popped id |
| MemoryTheorems.DrainComplete | async/memory.go:246-278 | once all workers exited, or Shutdown returned by either branch, every accepted operation is terminal |
| MemoryTheorems.DrainIsFinal | async/memory.go:246-278 | after that no later step adds an operation or changes a status, result or error |
| MemoryTheorems.DrainedForever | async/memory.go:465-515 | a closed executor whose operations are all terminal stays so along every run |
| MemoryTheorems.MetricsConserved | async/memory.go:434-582 | in every reachable state submitted = records = completed + failed + cancelled + pending + running; the running gauge counts the records marked executing, at most one per worker; queue waits = durations + running = handler starts |
| MemoryTheorems.RefusedChangesNothing | async/memory.go:348-356 | a submission refused for a full queue, an unknown name or a stopped executor leaves the whole state as before |
| MemoryTheorems.DoneMeansTerminal | async/memory.go:360-386 | the done channel is closed exactly when the operation is terminal; a result is set exactly on success, an error exactly on failure |
| MemoryOutcome.HandlerReturns | async/memory.go:526-582 | in every reachable state: when a handler returns, an unfinished operation has succeeded with exactly its result if and only if there was no error, the context was alive and the result encodes; else it failed with operation_timeout after a deadline, the operation error with its defaults, or operation_failed; counters move by one each, and a cancelled operation only loses its executing mark |
| MemoryOutcome.HandlerStarts | async/memory.go:472-515 | a worker runs exactly a pending operation and counts its start; one cancelled in the queue is dropped |
| MemoryOutcome.SubmissionDecided | async/memory.go:313-357 | in every reachable state what becomes of a valid submission: refused unless accepting and handled; answered with the earlier operation if and only if its joined key was answered before; else refused if the queue is full; else appended as a new pending operation |
| MemoryOutcome.KnownIff | async/memory.go:327-333 | the key map holds a joined key if and only if a submission with it was answered before |
| MemoryOutcome.AcceptsIff | async/memory.go:203-280 | submissions are taken exactly from the first Start to the next StopAccepting |
| MemoryOutcome.ClientCancels | async/memory.go:434-463 | Cancel ends exactly an unfinished operation and counts it |
| MemoryOutcome.ProgressIsShown | async/memory.go:584-604 | the progress of a running operation is as last reported |
| MemoryOutcome.DeadlineCancels | async/memory.go:615-635 | the deadline of Shutdown cancels exactly the unfinished operations and counts each |
| MemoryKeys.OneOperationPerJoin | async/memory.go:319-356 | in every reachable state two keyed submissions were answered with the same id if and only if their joined keys agree, whatever the texts |
| MemoryKeys.OneOperationPerTriple | async/memory.go:319-356 | when one of the two has no NUL they got the same id if and only if scope, name and key agree |
| MemoryKeys.SharedIff | async/memory.go:287-356 | a submittable triple is answered with the operation of a different one in some run if and only if a NUL inside one of its texts, with text on both sides and no white space next to it, can be taken for a separator |
| MemoryKeys.SharedRun | async/memory.go:319-324 | any two submittable triples with one joined key: a run in which the second is answered with the first one's operation |
| MemoryKeys.JoinIdentifiesIff | async/memory.go:321-321 | the joined key identifies a triple if and only if no part has a NUL |
| MemoryKeys.JoinInjective | async/memory.go:321-321 | one NUL-free triple is enough: nothing else has its joined key |
| MemoryKeys.JoinCollides | async/memory.go:321-321 | every triple with a NUL inside a part shares its joined key with another one |
| MemoryTheorems.RunInv | async/memory.go:203-635 | the invariant of modes, queue, records, hands, places, metrics and keys holds along every run |
| MemoryTheorems.RunBegun | async/memory.go:472-498 | an id whose handler was started was taken off the queue before |
| MemoryTheorems.RunningBound | async/memory.go:486-487 | no more records are marked executing than there are workers |
| MemoryTheorems.TerminalFrozen | async/memory.go:434-635 | no step changes a terminal operation's status, result or error |
| MemoryInvariants.StepInv | async/memory.go:203-635 | every critical section and every worker move keeps the invariant |
| MemoryInvariants.InitInv | async/memory.go:161-183 | a new executor satisfies it |
| MemoryInvariants.QueueKept | async/memory.go:348-357 | accepted = popped + queue, without repeats, is kept by every step |
| MemoryInvariants.RecordsKept | async/memory.go:472-604 | which fields of a record are set, as a function of its status, is kept by every step |
| MemoryInvariants.HandsKept | async/memory.go:465-470 | no two workers hold the same id |
| MemoryInvariants.PlacesKept | async/memory.go:465-515 | a pending operation is queued or in a worker's hand, and exactly the executing records have a worker running them |
| MemoryInvariants.MetricsKept | async/memory.go:434-635 | every counter moves with the set of records it counts |
| MemoryInvariants.FinishMoves | async/memory.go:526-577 | finish lowers the running gauge and counts a duration once, and counts a completion or failure only for a record that was not already terminal |
| MemoryInvariants.ModeKept | async/memory.go:246-278 | the queue is closed exactly from stopping on; a forced stop leaves nothing unfinished |
| MemoryInvariants.BegunKept | async/memory.go:472-498 | no handler is started twice |
| MemoryInvariants.KeysKept | async/memory.go:319-356 | every key maps to one existing record, different keys to different records, and every answer agrees with the key map |
| MemoryService.Executor.constructor | async/memory.go:161-183 | a new executor is in the initial state |
| MemoryService.Executor.StartWorkers | async/memory.go:203-219 | starts the worker pool exactly once |
| MemoryService.Executor.SubmitOperation | async/memory.go:281-357 | exactly which error each request gets, in the order of the checks, and which id otherwise; a request that fails validation changes nothing, all others take the submit step |
| MemoryService.Executor.Admit | async/memory.go:311-357 | the critical section takes the submit step, whichever branch answers |
| MemoryService.Executor.Enqueue | async/memory.go:344-356 | a full queue takes both map entries back out, so nothing has changed |
| MemoryService.Executor.Receive | async/memory.go:465-470 | takes the head of the queue into the worker's hand, or exits once the queue is closed and empty |
| MemoryService.Executor.BeginRun | async/memory.go:472-498 | starts exactly a pending operation; otherwise the worker goes back to waiting |
| MemoryService.Executor.FinishRun | async/memory.go:526-582 | takes the finish step; the record ends as HandlerReturns says, field by field, and the counters with it |
| MemoryService.Executor.Settle | async/memory.go:533-577 | the record succeeds if and only if the handler returned no error, the context was alive and the result encodes, with exactly that result; otherwise it fails with the prescribed error; one counter grows |
| MemoryService.Executor.CancelOperation | async/memory.go:434-463 | cancels exactly a known operation that is not terminal |
| MemoryService.Executor.ReportProgress | async/memory.go:584-604 | succeeds exactly for 0..100 on a running operation, and changes nothing otherwise |
| MemoryService.Executor.StopAcceptingWork | async/memory.go:606-613 | closes the queue exactly when work was accepted |
| MemoryService.Executor.BeginShutdown | async/memory.go:246-259 | refused before start, nothing to do when stopped, otherwise submissions end |
| MemoryService.Executor.CancelUnfinishedWork | async/memory.go:615-635 | takes the step that cancels all unfinished operations |
| MemoryService.Executor.CancelRecords | async/memory.go:618-631 | the loop cancels exactly the unfinished records and counts each once |
| MemoryService.Executor.CompleteShutdown | async/memory.go:260-277 | both ends of Shutdown: drained, or cancelled at the deadline, and then stopped |
| MemoryService.Executor.Snapshot | async/memory.go:418-431 | returns the record, and whether its done channel is closed |
| RateTheorems.RateBoundAnyOrder | middleware/rate_limit.go:126-176 | from any point of any run, in whatever order times come, each private bucket (across deletions) and the overflow bucket accept at most burst + requests * (the sum of the steps forward in time) / window requests; tokens stay in [0, burst]; the table never exceeds MaxKeys |
| RateTheorems.RateBound | middleware/rate_limit.go:126-160 | hence at most burst + requests * (t2 - t1) / window in [t1, t2] when times do not decrease |
| RateTheorems.RetryDelayExact | middleware/rate_limit.go:140-160 | after a denial on a private bucket, and whatever other keys ask meanwhile, the key's next request from its own bucket is allowed if and only if at least the announced delay has passed |
| RateTheorems.RetryDelayExactNext | middleware/rate_limit.go:140-180 | with no request in between this holds without proviso, and waiting the whole seconds of the header suffices |
| RateTheorems.OverflowDelaySuffices | middleware/rate_limit.go:126-160 | on the overflow bucket waiting the announced delay suffices |
| RateExact.AllowedIff | middleware/rate_limit.go:126-160 | when times do not decrease, a request is allowed if and only if accepting it keeps its bucket within burst + requests * elapsed / window over every span that ends now |
| RateExact.DeniedBreaksRate | middleware/rate_limit.go:126-160 | a denial has a reason: some span in which the bucket already accepted what the rate allows |
| RateTable.TableIsRecent | middleware/rate_limit.go:162-176 | every key in the table was allowed from its own bucket less than two windows ago |
| RateTable.OverflowOnlyWhenFull | middleware/rate_limit.go:126-139 | a request has no bucket of its own only if MaxKeys other keys were allowed within the last two windows |
| RateTable.SeenMeans | middleware/rate_limit.go:145-156 | the time of last use in a bucket is that of a request allowed from it |
| RateForgetting.ForgettingInvisible | middleware/rate_limit.go:126-176 | every decision and delay of a run equals that of a limiter that never deletes a bucket and routes the same requests to overflow; times may come out of order as long as none is earlier than the last cleanup |
| RateForgetting.ForgettingInvisibleInOrder | middleware/rate_limit.go:126-176 | in particular in every run whose times do not decrease |
| RateForgetting.EarlyRequestShows | middleware/rate_limit.go:66-66 | without that proviso it fails: for every sound configuration with room for two keys, a run with one request earlier than the last cleanup is answered differently |
| RateForgetting.ForgettingInvisibleBelowMaxKeys | middleware/rate_limit.go:126-176 | while the table stays below MaxKeys the reference is simply one bucket per key for ever |
| RateForgetting.ForgettingInvisibleIff | middleware/rate_limit.go:92-94 | forgetting idle keys is invisible in every run with no request before the last cleanup if and only if the burst is at most the request count, and likewise over the runs with times in order |
| RateForgetting.LargeBurstShows | middleware/rate_limit.go:92-94 | with any larger burst, one burst and then one request more than a window refills are answered differently |
| RateTheorems.DelayExact | middleware/rate_limit.go:158-159 | the announced delay is the least whole number of nanoseconds that refills one token |
| RateTheorems.NextSound | middleware/rate_limit.go:126-176 | every request keeps the bucket bounds and the table bound, in whatever order times come |
| RateTheorems.NextOk | middleware/rate_limit.go:126-176 | and the order of a bucket's times while times do not decrease |
| RateTheorems.RunSound | middleware/rate_limit.go:126-176 | so does every run |
| RateTheorems.LevelMoves | middleware/rate_limit.go:140-144 | between any two times, in either order, a bucket gains at most the refill of the step forward |
| RateTheorems.StaleIsFull | middleware/rate_limit.go:162-176 | a bucket unused for a window is full, whatever was denied meanwhile |
| RateTheorems.LevelSinceSeen | middleware/rate_limit.go:140-149 | since its last accepted request a bucket gained at least the refill of that time, because denials do not refresh it |
| RateTheorems.NextLevel | middleware/rate_limit.go:126-156 | a request lowers the level of its own slot by one token if allowed, and of no other |
| RateTheorems.AcceptedWithinLevel | middleware/rate_limit.go:126-160 | accepted requests are paid for by the starting level plus the refill |
| RateTheorems.AnswerFromLevel | middleware/rate_limit.go:145-160 | the answer depends only on the level of the slot that serves the request |
| RateForgetting.StepForgets | middleware/rate_limit.go:126-176 | one request keeps the limiter and the never-forgetting reference in step |
| RateForgetting.FullIsFresh | middleware/rate_limit.go:136-149 | a full bucket and an absent one behave alike from the next request on |
| RateLimiter.Normalize | middleware/rate_limit.go:79-100 | accepts exactly the sound configurations; the defaults it fills in are sound |
| RateLimiter.RetryAfterSeconds | middleware/rate_limit.go:178-180 | the least number of whole seconds, at least one, that covers the delay |
| RateLimiter.TokenBuckets.constructor | middleware/rate_limit.go:117-123 | an empty table |
| RateLimiter.TokenBuckets.Cleanup | middleware/rate_limit.go:162-176 | the deleting loop keeps exactly the buckets used within the last window, and is due again one window later |
| RateLimiter.TokenBuckets.Allow | middleware/rate_limit.go:126-160 | answer and new state are those of the model |
| JsonSelect.CutInvisible | openapi/schema.go:57-100 | for every type graph, cyclic or not, and any depth from the number of types on, the cut walk fails exactly when the uncut walk does, and the same fields win in the same order |
| JsonRule.WinnerIff | openapi/schema.go:17-55 | a field wins if and only if every other field of its name, on any path however long, lies deeper, or as deep without a tag name while this one has one; names, tags and embedded structs are those of the tag text and the Go declaration |
| JsonRule.CollectedIff | openapi/schema.go:57-100 | the walk collects exactly the fields on paths through untagged embedded structs that visit no type twice, under the name in front of the first comma of the tag if there is one, else the Go name |
| JsonRule.ErrorIff | openapi/schema.go:57-114 | the walk fails exactly when some path leads to a field whose tag name is not allowed |
| JsonRule.KindMeans | openapi/schema.go:76-100 | left out are exactly fields tagged - and unexported ones other than embedded structs; walked into exactly untagged embedded structs; any other field counts |
| JsonFields.Select | openapi/schema.go:19-39 | returns exactly the fields, over all paths through embedded structs, that dominate every field of their name, in index order, whatever the sort does with ties; fails exactly when some path leads to a nonportable tag |
| JsonFields.Compact | openapi/schema.go:25-36 | the in-place filter keeps exactly the winners and never overwrites an entry still to be read |
| JsonFields.GroupWinner | openapi/schema.go:31-34 | looking at the first two entries of a sorted group decides it: its first entry wins, or none does |
| JsonFields.RunIsGroup | openapi/schema.go:26-30 | a run of equal names in the sorted slice holds all candidates of that name |
| JsonFields.SortedBack | openapi/schema.go:37-38 | sorting the winners by index restores the order of the walk |
| JsonSelect.OneWinnerPerName | openapi/schema.go:25-36 | at most one candidate wins per name |
| JsonSelect.SortFunc | openapi/schema.go:24-24 | some sorted permutation; nothing is promised about ties |
| JsonSelect.ByNameOrder | openapi/schema.go:41-55 | the comparison of candidates is a total preorder |
| JsonSelect.ByIndexOrder | openapi/schema.go:37-37 | so is the comparison of index paths |
| JsonSelect.TwinWithinCut | openapi/schema.go:57-62 | every candidate beyond the cut has a same-named, same-tagged twin within it that is strictly shallower |
| JsonSelect.SameWinner | openapi/schema.go:57-74 | hence a candidate wins in the cut walk if and only if it wins in the uncut one |
| JsonSelect.SameError | openapi/schema.go:88-91 | a nonportable tag is found by the cut walk if and only if by the uncut one |
| JsonPaths.Twin | openapi/schema.go:57-62 | every path through the type graph has a path without repeated types to the same field, shorter unless it is the same |
| JsonPaths.SimpleIsShort | openapi/schema.go:57-62 | a path without repeated types is no longer than the number of types |
| JsonPaths.CollectHas | openapi/schema.go:57-100 | the walk collects every field reached by a path without repeated types, and fails on a bad tag there |
| JsonPaths.CollectedPath | openapi/schema.go:57-100 | it collects nothing else |
| JsonPaths.CollectInOrder | openapi/schema.go:64-72 | fields are collected in increasing index order |
| JsonWalk.CollectFields | openapi/schema.go:57-100 | the recursive walk with its shared map of visited types computes the walk function, characterized by CollectedIff and ErrorIff, and restores the map, also on error |
| SseTheorems.RoundTrip | sse/event.go:39-103 | reading any interleaving of written events and comments as sections 9.2.5 and 9.2.6 of the HTML Living Standard say yields exactly the events, in order, with kind, data up to line ends, last id and reconnection time; comments yield nothing and an event without data is dispatched |
| SseTheorems.EventReads | sse/event.go:47-58 | the same for one event, from any reader between two items |
| SseTheorems.RemarkReads | sse/event.go:64-71 | a comment leaves the reader as it was |
| SseTheorems.CommentCarries | sse/event.go:64-71 | a comment is written with all its text: without colons and spaces its lines give the text, up to line ends |
| SseTheorems.DataIntactIff | sse/event.go:87-89 | data comes through unchanged if and only if it has no CR |
| SseTheorems.ReplacedIsLineEnds | sse/event.go:88-89 | replacing CRLF and then CR is reading CRLF, CR and LF as one line end each |
| SseTheorems.ValueLines | sse/event.go:87-103 | a value is split into lines without CR or LF that put back together give the value |
| SseTheorems.DecimalReads | sse/event.go:55-55 | a printed retry time is all digits and reads back as the same number |
| SseTheorems.RefusedIsUncarriable | sse/event.go:74-85 | no stream whatsoever makes a reader report an id or a kind that the validation refuses |
| SseStream.LinesOfTerminated | sse/event.go:100-101 | lines without CR and LF, each ended by LF, are read back as those lines |
| SseEvent.WriteLines | sse/event.go:87-103 | appends one field line per line of the value |
| SseEvent.WriteEvent | sse/event.go:39-60 | refuses exactly the invalid events, and otherwise writes the lines of the event and a blank line |
| SseEvent.WriteComment | sse/event.go:64-72 | writes comment lines and a blank line |
| SseHubTheorems.HubDelivery | sse/sse.go:99-193 | over any run, under DisconnectSlowConsumer a subscription received plus buffered is a gap-free prefix of the events published to its topic since it subscribed, and all of them while registered; under DropEvent a subsequence in order; under either policy all of them, if its context was alive, no Close came before, and it kept up; nothing at all if its context was over or the hub closed |
| SseHubTheorems.SubscribedIff | sse/sse.go:99-125 | a subscription is registered, with an open empty channel, if and only if its context is alive and the hub open; nobody else is concerned |
| SseHubTheorems.OpenIff | sse/sse.go:161-174 | the hub is open exactly until Close is called |
| SseHubTheorems.KeptUpGetsAll | sse/sse.go:134-157 | under either policy a subscription whose channel is never full at an event of its topic stays registered and gets every one |
| SseHubTheorems.AllClosed | sse/sse.go:99-174 | once Close was called every channel, also one handed out later, is closed |
| SseHubTheorems.DeliveredInFull | sse/sse.go:134-157 | the same from any reachable state on, for DisconnectSlowConsumer |
| SseHubTheorems.DeliveredInOrder | sse/sse.go:134-157 | and the ordered subsequence for both policies |
| SseHubTheorems.NothingAfterwards | sse/sse.go:176-193 | a subscription that is no longer registered is never registered again and given nothing more |
| SseHubTheorems.DropNeverDisconnects | sse/sse.go:148-154 | under DropEvent a subscription ends if and only if its own context ends or the hub closes, however slow its reader is |
| SseHubTheorems.CountsGrown | sse/sse.go:134-157 | the number PublishTopic returns counts exactly the channels that grew |
| SseHubTheorems.ClosedForever | sse/sse.go:161-174 | after Close nobody is given anything any more |
| SseHubTheorems.RegisteredAfter | sse/sse.go:134-193 | a step takes a subscription out exactly by Close, its own cancellation, or a publish that finds its channel full under DisconnectSlowConsumer |
| SseHubTheorems.StepInv | sse/sse.go:99-193 | every step keeps: registered exactly while the channel is open, closed at most once, buffer within its bound, no empty topic |
| SseHubTheorems.RunInv | sse/sse.go:99-193 | so does every run |
| SseHubService.Hub.constructor | sse/sse.go:81-87 | an empty hub |
| SseHubService.NewHub | sse/sse.go:59-88 | accepts exactly the listed configurations, and every hub has room for at least one event per channel |
| SseHubService.Hub.SubscribeTopic | sse/sse.go:99-125 | takes the subscribe step: the channel is open and registered if and only if the context is alive and the hub open |
| SseHubService.Hub.PublishTopic | sse/sse.go:134-157 | the loop over the listeners, which may disconnect them on the way, takes the publish step; the result counts the accepting channels |
| SseHubService.Hub.Offer | sse/sse.go:147-154 | one listener gets the event, is disconnected, or misses it |
| SseHubService.Hub.CloseChannel | sse/sse.go:192-192 | only ever called on an open channel: a second close would panic |
| SseHubService.Hub.DisconnectLocked | sse/sse.go:182-193 | takes out a registered subscription and its topic when it was the last, and does nothing otherwise |
| SseHubService.Hub.Remove | sse/sse.go:176-180 | takes the removal step |
| SseHubService.Hub.Receive | sse/sse.go:52-56 | the reader takes the oldest buffered event, also from a closed channel |
| SseHubService.Hub.CloseTopic | sse/sse.go:168-171 | the inner loop closes exactly the channels of one topic |
| SseHubService.Hub.Close | sse/sse.go:161-174 | closes exactly the registered channels, once |
| RouteTheorems.UrlRoundTrip | route.go:43-91 | for every template with clean literals and distinct whole-segment parameters, whenever URL succeeds, splitting the result at slashes and decoding each segment matches the template and gives back exactly the supplied parameters, tails included |
| RouteTheorems.UrlSucceedsIff | route.go:53-86 | URL succeeds exactly for the right number of parameters, a root-relative template and values without empty, dot or slash-only segments, except that a tail may end in a slash |
| RouteTheorems.UrlErrorIs | route.go:45-92 | which error URL returns otherwise: wrong count, then not root-relative, then that of the first segment that cannot be filled, for want of its parameter or for its value |
| RouteTheorems.EncodedLiteralStays | route.go:62-69 | a literal that is already encoded is written as it is |
| RouteTheorems.UrlIsRootRelative | route.go:56-90 | the result starts with one slash and never with two |
| RouteTheorems.ParameterNamesOfPattern | route.go:141-159 | scanning a registered pattern for braces finds exactly the parameters of its template, in order, without the end marker |
| RouteTheorems.MatchExpanded | route.go:60-90 | matching the expanded segments reads back the values of the names they mention |
| RouteTheorems.LiteralExpands | route.go:62-69 | a literal segment is written so that it decodes to what it decoded to before, or to itself if it cannot be decoded |
| RouteTheorems.SingleExpands | route.go:71-88 | a single parameter is written as one segment that decodes to its value |
| RouteTheorems.TailExpands | route.go:79-88 | the segments of a tail decode to the parts of its value, and it does not start with a slash |
| RouteUrl.Url | route.go:43-91 | the nested loops that overwrite segments compute the URL function, with its errors in the same order |
| RouteUrl.ExpandSegment | route.go:61-88 | one segment, literal or parameter |
| RouteUrl.FillSegment | route.go:78-88 | the inner loop over the parts of a value |
| RouteUrl.RouteParameterNames | route.go:141-159 | the loop over a shrinking string computes the names between braces |
| UrlText.EscapeRoundTrip | route.go:67-67 | percent-decoding undoes percent-encoding for every byte string |
| UrlText.EscapeByteByByte | route.go:67-67 | each byte is encoded by itself: left alone exactly if it is a letter, a digit or one of - _ . ~ $ & + : = @, else written as % and two upper-case digits |
| UrlText.EscapeFree | route.go:67-67 | an encoded segment has no slash |
| UrlText.EscapeKeepsDots | route.go:83-86 | an encoded segment is empty or a dot segment only if the segment was |
| Splitting.SplitJoin | route.go:60-90 | joining parts without the separator and splitting again loses nothing |
| Text.TrimSpaceCuts | async/memory.go:285-291 | trimming a name, key or scope cuts white space at both ends, and only that |
| LatencyHistogram.QuantileAgrees | internal/load/load.go:277-290 | the reported quantile is the upper edge of the bucket of the true nearest-rank percentile v: it exceeds v by at most one width if and only if v lies below the last edge, which every v up to the timeout does |
| LatencyHistogram.QuantileReports | internal/load/load.go:277-290 | for every sample and percentile the reported value is the upper edge of the bucket around the value that less than p percent lie below and at least p percent up to, or the last edge if that lies beyond |
| LatencyHistogram.FindsBucket | internal/load/load.go:281-289 | the loop over running sums stops at exactly the bucket of the nearest-rank sample |
| LatencyHistogram.RunningSum | internal/load/load.go:283-286 | the running sum counts the samples below the bucket's lower edge, and every sample at the end |
| LatencyHistogram.NearestRankUnique | internal/load/load.go:281-281 | for 1 <= p <= 100 every nonempty sample has one and only one nearest-rank percentile |
| LatencyHistogram.QuantileMonotone | internal/load/load.go:277-290 | a higher percentile never reports a smaller latency |
| LatencyHistogram.NotClamped | internal/load/load.go:234-256 | no latency up to the timeout is clamped |
| LatencyHistogram.RequestsConserved | internal/load/load.go:245-252 | errors and status counts add up to all requests if and only if every request failed or had a status from 1 to 999 |
| LatencyHistogram.RequestsSplit | internal/load/load.go:245-252 | otherwise they fall short by exactly the requests that did neither |
| LatencyHistogram.Metrics.constructor | internal/load/load.go:234-243 | the bucket width is the least one that covers the timeout, and no less than a microsecond |
| LatencyHistogram.Metrics.Record | internal/load/load.go:245-257 | all counters agree with the requests recorded so far |
| LatencyHistogram.Metrics.QuantileOf | internal/load/load.go:277-290 | the accumulating loop finds the first bucket that reaches the rank |
| LatencyHistogram.Metrics.Result | internal/load/load.go:259-275 | reports the counts of the recorded requests, and for p50, p95 and p99 the upper edge of the bucket around the nearest-rank percentile of the recorded latencies |

## Left out

- Contexts, timers, goroutine scheduling: cancellation, deadlines, crashes and clock advance are steps or script choices that may happen at any time.
- `database/sql`, row scanning and driver errors: a statement took effect, took effect without its caller learning so, or did not take effect; locked rows of SKIP LOCKED are a set chosen freely.
- The renewal goroutine: its statement may happen at any time and any number of times for any delivery, past or present.
- Random identifiers: fresh ids are assumed fresh; the owner text is a pair of instance and worker number.
- JSON encoding, logging and handler bodies: a handler returns any text or any error, a panic is an error, and encoding may fail.
- Payload and metadata columns, which no statement reads; record times in the in-memory executor are kept as set or not set.
- The in-memory executor's records are values in a map, not pointers, so aliasing between a snapshot and its record is not modelled.
- Duration and queue-wait sums in the metrics; only their counts are kept. Counters do not wrap at 64 bits.
- Polling in Wait and Metrics of the durable executor, and schema creation.
- Floating-point rounding in the rate limiter: tokens are reals; durations are unbounded whole nanoseconds, so saturation of a delay is not modelled.
- The client key of the rate limiter and its response headers.
- Character classes of JSON tag names: a field says whether its tag name is portable. OpenAPI schemas beyond field selection.
- UTF-8 decoding of event streams: the reader works on decoded characters, and data that is not UTF-8 is not modelled. Short writes and the HTTP side of the hub.
- Event channels of the hub are sequences with a flag for closed; subscriptions are numbered rather than pointers.
- ServeMux: a small segment matcher is the specification of matching. Route registration, path joining and normalization.
- Application lifecycle, supervisor, sqlkit, authentication, sessions, rendering, adapters and command line.
- LeaseExecutor.Read: reads stored backoffs as at least zero, which the table's CHECK constraints already guarantee.
- RateTheorems.RetryDelayExact: assumes that the key is again served from its private bucket, because after a cleanup others may have filled the table.
- RouteTheorems.UrlRoundTrip: covers templates whose literals carry no opening brace and whose parameters are whole segments with distinct proper names.
