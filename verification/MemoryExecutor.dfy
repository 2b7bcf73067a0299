/**
 The in-memory executor (async/memory.go).  Everything between mu.Lock and mu.Unlock is one step.
 Taking an id off the queue and starting its handler are separate steps, so an id can be in a
 worker's hand.  The state also carries history that no step reads: the ids accepted, taken off the
 queue and started, and the keyed submissions answered.
 */
module MemoryExecutor {
  import opened Prelude
  import opened Operations

  type Id = string

  datatype Status = Pending | Running | Succeeded | Failed | Cancelled {
    predicate Terminal() {
      Succeeded? || Failed? || Cancelled?
    }
  }

  datatype Record = Record(
    name: string,
    status: Status,
    progress: int,
    started: bool,               // StartedAt is set
    finished: bool,              // FinishedAt is set
    result: Option<string>,
    error: Option<OperationError>,
    executing: bool,
    doneClosed: bool)

  datatype Metrics = Metrics(submitted: nat, completed: nat, failed: nat, cancelled: nat, running: int,
                             durationCount: nat, queueWaitCount: nat)

  datatype Phase = Waiting | Holding(id: Id) | Executing(id: Id) | Exited

  datatype Mode = Created | Accepting | Stopping | Stopped

  datatype Exec = Exec(
    workerCount: nat,
    capacity: nat,
    handlers: set<string>,
    mode: Mode,
    operations: map<Id, Record>,
    idempotency: map<string, Id>,
    queue: seq<Id>,
    closed: bool,
    workers: seq<Phase>,
    metrics: Metrics,
    forced: bool,                // history: cancelUnfinished ran
    accepted: seq<Id>,
    popped: seq<Id>,
    begun: seq<Id>,
    answers: seq<Answer>)

  // ----- handler outcomes -----

  datatype HandlerError = NoError | Plain | Public(error: OperationError)

  datatype Outcome = Outcome(error: HandlerError, ended: ContextEnd, encodes: bool, result: string)

  /** The operation error is nil: no handler error, the context is alive, and the result can be encoded. */
  predicate Succeeds(o: Outcome) {
    o.error.NoError? && o.ended.Live? && o.encodes
  }

  function PublicError(o: Outcome): OperationError {
    if o.ended.DeadlineExceeded? then OperationError("operation_timeout", "The operation timed out")
    else if o.error.Public? then Published(o.error.error)
    else OperationError("operation_failed", "The operation could not be completed")
  }

  function Join(t: Triple): string {
    t.scope + "\0" + t.name + "\0" + t.key
  }

  /** What one step does to one record. */
  datatype Effect =
    | Keep
    | BeginIt
    | FinishIt(outcome: Outcome)
    | CancelIt
    | ProgressIt(progress: int)

  function NewRecord(name: string): Record {
    Record(name, Pending, 0, false, false, None, None, false, false)
  }

  function Affect(r: Record, effect: Effect): Record {
    match effect
    case Keep => r
    case BeginIt => r.(status := Running, started := true, executing := true)
    case FinishIt(o) =>
      if r.status.Terminal() then r.(executing := false)
      else if Succeeds(o) then
        r.(executing := false, finished := true, status := Succeeded, progress := 100, result := Some(o.result),
           doneClosed := true)
      else r.(executing := false, finished := true, status := Failed, error := Some(PublicError(o)), doneClosed := true)
    case CancelIt => r.(status := Cancelled, finished := true, doneClosed := true)
    case ProgressIt(progress) => r.(progress := progress)
  }

  function Unfinished(ops: map<Id, Record>): set<Id> {
    set id | id in ops && !ops[id].status.Terminal()
  }

  // ----- steps -----

  datatype Step =
    | Start
    | Submit(t: Triple, id: Id)       // validated texts, fresh id
    | Pop(w: nat)
    | Exit(w: nat)
    | Begin(w: nat)
    | Finish(w: nat, outcome: Outcome)
    | Cancel(id: Id)
    | Progress(id: Id, progress: int)
    | StopAccepting
    | CancelUnfinished                // Shutdown at its deadline
    | SetStopped                      // the last critical section of Shutdown

  predicate AllExited(s: Exec) {
    forall w :: 0 <= w < |s.workers| ==> s.workers[w].Exited?
  }

  predicate Enabled(s: Exec, step: Step) {
    match step
    case Submit(t, id) => id !in s.operations && t.name != "" && (t.key != "" ==> t.scope != "")
    case Pop(w) => w < |s.workers| && s.workers[w].Waiting? && s.queue != []
    case Exit(w) => w < |s.workers| && s.workers[w].Waiting? && s.queue == [] && s.closed
    case Begin(w) => w < |s.workers| && s.workers[w].Holding?
    case Finish(w, _) => w < |s.workers| && s.workers[w].Executing?
    case Progress(_, progress) => 0 <= progress <= 100
    case CancelUnfinished => s.mode == Stopping || s.mode == Stopped
    case SetStopped => (s.mode == Stopping || s.mode == Stopped) && (s.forced || AllExited(s))
    case _ => true
  }

  datatype SubmitResult = Accepted(id: Id) | Existing(id: Id) | Unavailable | NoHandler | QueueFull

  function SubmitAnswer(s: Exec, t: Triple, id: Id): SubmitResult {
    if s.mode != Accepting then Unavailable
    else if t.name !in s.handlers then NoHandler
    else if t.key != "" && Join(t) in s.idempotency then Existing(s.idempotency[Join(t)])
    else if |s.queue| < s.capacity then Accepted(id)
    else QueueFull
  }

  /** The submission is put on the queue. */
  predicate Admits(s: Exec, step: Step) {
    step.Submit? && SubmitAnswer(s, step.t, step.id).Accepted?
  }

  /** The id a worker starts: still pending when it gets its turn. */
  predicate Starts(s: Exec, step: Step)
    requires Enabled(s, step)
  {
    step.Begin? && s.workers[step.w].id in s.operations && s.operations[s.workers[step.w].id].status.Pending?
  }

  function EffectOn(s: Exec, step: Step, id: Id): Effect
    requires Enabled(s, step) && id in s.operations
  {
    match step
    case Begin(w) => if s.workers[w].id == id && s.operations[id].status.Pending? then BeginIt else Keep
    case Finish(w, outcome) => if s.workers[w].id == id then FinishIt(outcome) else Keep
    case Cancel(target) => if id == target && !s.operations[id].status.Terminal() then CancelIt else Keep
    case Progress(target, progress) =>
      if id == target && s.operations[id].status.Running? then ProgressIt(progress) else Keep
    case CancelUnfinished => if !s.operations[id].status.Terminal() then CancelIt else Keep
    case _ => Keep
  }

  function OperationsAfter(s: Exec, step: Step): map<Id, Record>
    requires Enabled(s, step)
  {
    var affected := map id | id in s.operations :: Affect(s.operations[id], EffectOn(s, step, id));
    if Admits(s, step) then affected[step.id := NewRecord(step.t.name)] else affected
  }

  function WorkersAfter(s: Exec, step: Step): seq<Phase>
    requires Enabled(s, step)
  {
    match step
    case Start => if s.mode == Created then seq(s.workerCount, _ => Waiting) else s.workers
    case Pop(w) => s.workers[w := Holding(s.queue[0])]
    case Exit(w) => s.workers[w := Exited]
    case Begin(w) => s.workers[w := if Starts(s, step) then Executing(s.workers[w].id) else Waiting]
    case Finish(w, _) => s.workers[w := Waiting]
    case _ => s.workers
  }

  function FinishMetrics(m: Metrics, r: Record, o: Outcome): Metrics {
    var gauged := if r.executing then
                    m.(running := m.running - 1, durationCount := m.durationCount + if r.started then 1 else 0)
                  else m;
    if r.status.Terminal() then gauged
    else if Succeeds(o) then gauged.(completed := gauged.completed + 1)
    else gauged.(failed := gauged.failed + 1)
  }

  function MetricsAfter(s: Exec, step: Step): Metrics
    requires Enabled(s, step)
  {
    var m := s.metrics;
    match step
    case Submit(_, _) => if Admits(s, step) then m.(submitted := m.submitted + 1) else m
    case Begin(_) => if Starts(s, step) then m.(running := m.running + 1, queueWaitCount := m.queueWaitCount + 1) else m
    case Finish(w, o) =>
      if s.workers[w].id in s.operations then FinishMetrics(m, s.operations[s.workers[w].id], o) else m
    case Cancel(id) =>
      if id in s.operations && !s.operations[id].status.Terminal() then m.(cancelled := m.cancelled + 1) else m
    case CancelUnfinished => m.(cancelled := m.cancelled + |Unfinished(s.operations)|)
    case _ => m
  }

  function IdempotencyAfter(s: Exec, step: Step): map<string, Id> {
    if Admits(s, step) && step.t.key != "" then s.idempotency[Join(step.t) := step.id] else s.idempotency
  }

  function AnswersAfter(s: Exec, step: Step): seq<Answer> {
    if !step.Submit? || step.t.key == "" then s.answers
    else
      match SubmitAnswer(s, step.t, step.id)
      case Accepted(id) => s.answers + [Answer(step.t, id)]
      case Existing(id) => s.answers + [Answer(step.t, id)]
      case _ => s.answers
  }

  function ModeAfter(s: Exec, step: Step): Mode {
    match step
    case Start => if s.mode == Created then Accepting else s.mode
    case StopAccepting => if s.mode == Accepting then Stopping else s.mode
    case SetStopped => Stopped
    case _ => s.mode
  }

  function Apply(s: Exec, step: Step): Exec
    requires Enabled(s, step)
  {
    Exec(s.workerCount, s.capacity, s.handlers,
         ModeAfter(s, step),
         OperationsAfter(s, step),
         IdempotencyAfter(s, step),
         if step.Pop? then s.queue[1..] else if Admits(s, step) then s.queue + [step.id] else s.queue,
         s.closed || (step.StopAccepting? && s.mode == Accepting),
         WorkersAfter(s, step),
         MetricsAfter(s, step),
         s.forced || step.CancelUnfinished?,
         if Admits(s, step) then s.accepted + [step.id] else s.accepted,
         if step.Pop? then s.popped + [s.queue[0]] else s.popped,
         if Starts(s, step) then s.begun + [s.workers[step.w].id] else s.begun,
         AnswersAfter(s, step))
  }

  predicate Init(s: Exec) {
    && s.mode == Created && s.operations == map[] && s.idempotency == map[] && s.queue == [] && !s.closed
    && s.workers == [] && s.metrics == Metrics(0, 0, 0, 0, 0, 0, 0) && !s.forced
    && s.accepted == [] && s.popped == [] && s.begun == [] && s.answers == []
    && s.workerCount >= 1 && s.capacity >= 1
  }

  predicate Legal(s: Exec, steps: seq<Step>)
    decreases |steps|
  {
    steps == [] || (Enabled(s, steps[0]) && Legal(Apply(s, steps[0]), steps[1..]))
  }

  function After(s: Exec, steps: seq<Step>): Exec
    requires Legal(s, steps)
    decreases |steps|
  {
    if steps == [] then s else After(Apply(s, steps[0]), steps[1..])
  }
}
