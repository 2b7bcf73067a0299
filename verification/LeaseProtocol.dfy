/**
 The durable lease protocol as a transition system (contrib/asyncpostgres).

 Any number of replicas, each with any number of workers, share one table.  One SQL statement is
 one atomic step.  Between two statements anything may happen: other workers act, the clock moves,
 operations are cancelled, a replica shuts down.  A stalled or crashed worker simply takes no more
 steps, so stalls and crashes need no step of their own.
 */
module LeaseProtocol {
  import opened Prelude
  import opened Operations
  import opened LeaseRow

  // ----- requests and idempotency -----

  /** A validated submission: trimmed texts and a normalized retry policy. */
  datatype Request = Request(triple: Triple, maxAttempts: int, initialBackoffMs: int, maxBackoffMs: int)

  predicate ValidRequest(r: Request) {
    && r.triple.name != ""
    && (r.triple.key != "" ==> r.triple.scope != "")
    && 1 <= r.maxAttempts
    && 0 <= r.initialBackoffMs <= r.maxBackoffMs
  }

  function NullIfEmpty(text: string): Option<string> {
    if text == "" then None else Some(text)
  }

  function NewRow(r: Request, createdAt: Time): Row {
    Row(r.triple.name, Pending, 0, None, None, createdAt, None, None, Some(createdAt), 0, r.maxAttempts,
        r.initialBackoffMs, r.maxBackoffMs, NullIfEmpty(r.triple.key), NullIfEmpty(r.triple.scope), None, None)
  }

  /** The row condition of the follow-up SELECT; with a key, also the key of the partial unique index. */
  predicate Matches(row: Row, t: Triple) {
    row.scope == Some(t.scope) && row.name == t.name && row.key == Some(t.key)
  }

  predicate Conflict(table: map<Id, Entry>, t: Triple) {
    t.key != "" && exists id :: id in table && Matches(table[id].row, t)
  }

  // ----- workers -----

  /** What a worker knows about its lease.  `ticket` is history: the position of its grant. */
  datatype Delivery = Delivery(id: Id, attempt: int, maxAttempts: int, initialBackoffMs: int, maxBackoffMs: int,
                               ticket: nat)

  datatype Statement = ToRelease | ToRetry | ToFail(error: OperationError)

  /** Why a delivery did not succeed: a permanent error, and how the job context ended. */
  datatype Cause = Cause(permanent: Option<OperationError>, canceled: bool, deadline: bool)

  /** Program counter of one worker goroutine. */
  datatype Phase =
    | Idle                                    // about to ask accepting()
    | Cleared                                 // accepting() was true, the expiry statement is next
    | Swept                                   // the expiry statement is done, the lease statement is next
    | Handling(d: Delivery)                   // the handler runs
    | Storing(d: Delivery, result: string)    // the success statement is next
    | Recovering(d: Delivery, cause: Cause)   // not stored as success, asking accepting() is next
    | Finishing(d: Delivery, statement: Statement)
    | Exited

  predicate InFlight(phase: Phase) {
    phase.Handling? || phase.Storing? || phase.Recovering? || phase.Finishing?
  }

  /** A statement took effect, did not, or took effect although the caller saw an error. */
  datatype Fate = Applied | Lost | InDoubt

  datatype Sys = Sys(
    now: Time,
    table: map<Id, Entry>,
    handlers: map<string, set<string>>,  // instance to registered operation names
    workers: map<Owner, Phase>,
    stopped: set<string>,                // instances that no longer accept
    released: set<string>,               // instances whose leases were handed back wholesale
    pending: map<nat, Triple>,           // submissions between INSERT and SELECT
    answers: seq<Answer>)                // keyed submissions answered so far

  function PhaseOf(s: Sys, w: Owner): Phase {
    if w in s.workers then s.workers[w] else Idle
  }

  predicate Handles(s: Sys, instance: string, name: string) {
    instance in s.handlers && name in s.handlers[instance]
  }

  // ----- steps -----

  datatype Step =
    | Tick(elapsed: nat)
    | Insert(call: nat, id: Id, request: Request, createdAt: Time, answered: bool)
    | Select(call: nat, id: Id)
    | CancelOperation(id: Id)
    | Check(w: Owner)
    | Sweep(w: Owner, fate: Fate)
    | Grab(w: Owner, id: Id, leaseMs: int, locked: set<Id>, fate: Fate)
    | FindNothing(w: Owner, locked: set<Id>)
    | GrabError(w: Owner)
    | ReportProgress(id: Id, ticket: nat, progress: int)
    | Renew(id: Id, ticket: nat, leaseMs: int)
    | HandlerSucceeds(w: Owner, result: string)
    | HandlerFails(w: Owner, cause: Cause)
    | StoreSuccess(w: Owner, fate: Fate)
    | Decide(w: Owner)
    | Finish(w: Owner, fate: Fate)
    | StopAccepting(instance: string)
    | ReleaseInstance(instance: string)

  function DueAt(row: Row): Time {
    if row.nextAttemptAt.Some? then row.nextAttemptAt.value
    else if row.leaseExpiresAt.Some? then row.leaseExpiresAt.value
    else 0
  }

  /** ORDER BY COALESCE(next_attempt_at, lease_expires_at), created_at. */
  predicate NotAfter(a: Row, b: Row) {
    DueAt(a) < DueAt(b) || (DueAt(a) == DueAt(b) && a.createdAt <= b.createdAt)
  }

  predicate Candidate(s: Sys, w: Owner, id: Id) {
    id in s.table && Handles(s, w.instance, s.table[id].row.name) && Leasable(s.table[id].row, s.now)
  }

  /** The initial backoff doubled `times` times. */
  function Doubled(initial: int, times: nat): int {
    if times == 0 then initial else 2 * Doubled(initial, times - 1)
  }

  function Backoff(attempt: int, initial: int, maximum: int): int {
    Min(Doubled(initial, if attempt > 1 then attempt - 1 else 0), maximum)
  }

  /** The decision at the end of a delivery that was not stored as a success. */
  function Verdict(d: Delivery, cause: Cause, accepting: bool): Statement {
    if cause.canceled && !accepting then ToRelease
    else if cause.permanent.None? && d.attempt < d.maxAttempts then ToRetry
    else ToFail(
           if cause.permanent.Some? then Published(cause.permanent.value)
           else if cause.deadline then OperationError("operation_timeout", "The operation timed out")
           else OperationError("operation_failed", "The operation could not be completed"))
  }

  function StatementEffect(d: Delivery, statement: Statement): Effect {
    match statement
    case ToRelease => HandBack
    case ToRetry => Retry(Backoff(d.attempt, d.initialBackoffMs, d.maxBackoffMs))
    case ToFail(error) => Fail(error)
  }

  ghost predicate Enabled(s: Sys, step: Step) {
    match step
    case Tick(_) => true
    case Insert(call, id, request, _, _) => id !in s.table && ValidRequest(request) && call !in s.pending
    case Select(call, id) => call in s.pending && id in s.table && Matches(s.table[id].row, s.pending[call])
    case CancelOperation(_) => true
    case Check(w) => PhaseOf(s, w).Idle?
    case Sweep(w, _) => PhaseOf(s, w).Cleared?
    case Grab(w, id, _, locked, _) =>
      && PhaseOf(s, w).Swept?
      && id !in locked && Candidate(s, w, id)
      && (forall other :: other !in locked && Candidate(s, w, other) ==> NotAfter(s.table[id].row, s.table[other].row))
    case FindNothing(w, locked) => PhaseOf(s, w).Swept? && forall id :: Candidate(s, w, id) ==> id in locked
    case GrabError(w) => PhaseOf(s, w).Swept?
    case ReportProgress(id, ticket, progress) =>
      id in s.table && ticket < |s.table[id].grants| && 0 <= progress <= 100
    case Renew(id, ticket, _) => id in s.table && ticket < |s.table[id].grants|
    case HandlerSucceeds(w, _) => PhaseOf(s, w).Handling?
    case HandlerFails(w, _) => PhaseOf(s, w).Handling?
    case StoreSuccess(w, _) => PhaseOf(s, w).Storing?
    case Decide(w) => PhaseOf(s, w).Recovering?
    case Finish(w, _) => PhaseOf(s, w).Finishing?
    case StopAccepting(_) => true
    case ReleaseInstance(instance) => instance in s.stopped
  }

  /** The effect of a step on one existing row; statements whose WHERE clause does not match do nothing. */
  ghost function EffectOn(s: Sys, step: Step, id: Id): Effect
    requires id in s.table && Enabled(s, step)
  {
    var row := s.table[id].row;
    match step
    case CancelOperation(target) => if id == target && Open(row) then Effect.Cancel else Keep
    case Sweep(_, fate) => if !fate.Lost? && Exhausted(row, s.now) then Effect.Expire else Keep
    case Grab(w, target, leaseMs, _, fate) => if !fate.Lost? && id == target then Effect.Lease(w, leaseMs) else Keep
    case ReportProgress(target, ticket, progress) =>
      if id == target && Owned(row, s.table[id].grants[ticket].owner, s.table[id].grants[ticket].attempt)
      then Effect.Progress(progress) else Keep
    case Renew(target, ticket, leaseMs) =>
      if id == target && Owned(row, s.table[id].grants[ticket].owner, s.table[id].grants[ticket].attempt)
      then Effect.Extend(leaseMs) else Keep
    case StoreSuccess(w, fate) =>
      var phase := PhaseOf(s, w);
      if !fate.Lost? && id == phase.d.id && Owned(row, w, phase.d.attempt) then Effect.Succeed(phase.result) else Keep
    case Finish(w, fate) =>
      var phase := PhaseOf(s, w);
      if !fate.Lost? && id == phase.d.id && Owned(row, w, phase.d.attempt)
      then StatementEffect(phase.d, phase.statement) else Keep
    case ReleaseInstance(instance) => if HeldBy(row, instance) then HandBack else Keep
    case _ => Keep
  }

  function Actor(step: Step): Option<Owner> {
    match step
    case Check(w) => Some(w)
    case Sweep(w, _) => Some(w)
    case Grab(w, _, _, _, _) => Some(w)
    case FindNothing(w, _) => Some(w)
    case GrabError(w) => Some(w)
    case HandlerSucceeds(w, _) => Some(w)
    case HandlerFails(w, _) => Some(w)
    case StoreSuccess(w, _) => Some(w)
    case Decide(w) => Some(w)
    case Finish(w, _) => Some(w)
    case _ => None
  }

  function NewDelivery(s: Sys, id: Id): Delivery
    requires id in s.table
  {
    var e := s.table[id];
    Delivery(id, e.row.attempt + 1, e.row.maxAttempts, e.row.initialBackoffMs, e.row.maxBackoffMs, |e.grants|)
  }

  /** Where the acting worker goes. */
  ghost function NextPhase(s: Sys, step: Step): Phase
    requires Enabled(s, step) && Actor(step).Some?
  {
    var phase := PhaseOf(s, step.w);
    match step
    case Check(w) => if w.instance in s.stopped then Exited else Cleared
    case Sweep(_, fate) => if fate.Applied? then Swept else Idle
    case Grab(_, id, _, _, fate) => if fate.Applied? then Handling(NewDelivery(s, id)) else Idle
    case FindNothing(_, _) => Idle
    case GrabError(_) => Idle
    case HandlerSucceeds(_, result) => Storing(phase.d, result)
    case HandlerFails(_, cause) => Recovering(phase.d, cause)
    case StoreSuccess(_, fate) => if fate.Applied? then Idle else Recovering(phase.d, Cause(None, false, false))
    case Decide(w) => Finishing(phase.d, Verdict(phase.d, phase.cause, w.instance !in s.stopped))
    case Finish(_, _) => Idle
  }

  ghost function Apply(s: Sys, step: Step): Sys
    requires Enabled(s, step)
  {
    var affected := map id | id in s.table :: Affect(s.table[id], EffectOn(s, step, id), s.now);
    var moved := if Actor(step).Some? then s.workers[step.w := NextPhase(s, step)] else s.workers;
    var next := s.(table := affected, workers := moved);
    match step
    case Tick(elapsed) => next.(now := s.now + elapsed)
    case Insert(call, id, request, createdAt, answered) =>
      if Conflict(s.table, request.triple) then next.(pending := s.pending[call := request.triple])
      else next.(table := affected[id := Entry(NewRow(request, createdAt), [])],
                 answers := if answered && request.triple.key != "" then s.answers + [Answer(request.triple, id)]
                            else s.answers)
    case Select(call, id) =>
      next.(pending := s.pending - {call}, answers := s.answers + [Answer(s.pending[call], id)])
    case StopAccepting(instance) => next.(stopped := s.stopped + {instance})
    case ReleaseInstance(instance) => next.(released := s.released + {instance})
    case _ => next
  }

  // ----- runs -----

  ghost predicate Init(s: Sys) {
    s.table == map[] && s.workers == map[] && s.stopped == {} && s.released == {} && s.pending == map[] &&
        s.answers == []
  }

  ghost predicate Legal(s: Sys, steps: seq<Step>)
    decreases |steps|
  {
    steps == [] || (Enabled(s, steps[0]) && Legal(Apply(s, steps[0]), steps[1..]))
  }

  ghost function After(s: Sys, steps: seq<Step>): Sys
    requires Legal(s, steps)
    decreases |steps|
  {
    if steps == [] then s else After(Apply(s, steps[0]), steps[1..])
  }
}
