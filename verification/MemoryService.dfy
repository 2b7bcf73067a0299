/**
 The in-memory executor's methods, changing its fields in place (async/memory.go).  Each method is one
 critical section and takes exactly the corresponding step of MemoryExecutor, so MemoryInvariants and
 MemoryTheorems speak about every sequence of calls.  Goroutine positions and history are ghost.
 */
module MemoryService {
  import opened Prelude
  import opened Operations
  import opened Text
  import opened MemoryExecutor
  import opened MemoryInvariants
  import opened MemoryOutcome

  datatype SubmitError =
    | ContextEnded
    | InvalidOperation
    | RetriesUnsupported
    | AsyncUnavailable
    | AsyncQueueFull

  datatype OperationState = Known(record: Record) | NotFound

  datatype ProgressError = InvalidProgress | ProgressContextEnded | OperationNotFound | OperationFinished

  datatype ShutdownStart = NotStarted | AlreadyStopped | Draining

  class Executor {
    const workerCount: nat
    const capacity: nat
    const handlers: set<string>
    var mode: Mode
    var operations: map<Id, Record>
    var idempotency: map<string, Id>
    var queue: seq<Id>
    var closed: bool
    var metrics: Metrics
    ghost var workers: seq<Phase>
    ghost var forced: bool
    ghost var accepted: seq<Id>
    ghost var popped: seq<Id>
    ghost var begun: seq<Id>
    ghost var answers: seq<Answer>

    ghost function View(): Exec
      reads this
    {
      Exec(workerCount, capacity, handlers, mode, operations, idempotency, queue, closed, workers, metrics, forced,
           accepted, popped, begun, answers)
    }

    constructor (workerCount: nat, capacity: nat, handlers: set<string>)
      requires workerCount >= 1 && capacity >= 1
      ensures Init(View())
      ensures this.workerCount == workerCount && this.capacity == capacity && this.handlers == handlers
    {
      this.workerCount, this.capacity, this.handlers := workerCount, capacity, handlers;
      mode, operations, idempotency, queue, closed := Created, map[], map[], [], false;
      metrics := Metrics(0, 0, 0, 0, 0, 0, 0);
      workers, forced, accepted, popped, begun, answers := [], false, [], [], [], [];
    }

    method StartWorkers() returns (ok: bool)
      modifies this`mode, this`workers
      ensures View() == Apply(old(View()), Start)
      ensures ok <==> old(mode) == Created
    {
      ok := mode == Created;
      assert OperationsAfter(View(), Start) == operations;
      if ok {
        mode := Accepting;
        workers := seq(workerCount, _ => Waiting);
      }
    }

    /** Submit: validation outside the lock, then one critical section. */
    method SubmitOperation(contextEnded: bool, name: string, key: string, scope: string, retry: RetryPolicy,
        encodes: bool, id: Id)
      returns (r: Result<Id, SubmitError>)
      requires id !in operations && "" !in idempotency
      modifies this`operations, this`idempotency, this`queue, this`metrics, this`accepted, this`answers
      ensures "" !in idempotency
      ensures r == Err(ContextEnded) <==> contextEnded
      ensures var malformed := Blank(name) || (!Blank(key) && Blank(scope))
                || retry.maxAttempts < 0 || retry.initialBackoff < 0 || retry.maxBackoff < 0;
              var retries := retry.maxAttempts > 1 || retry.initialBackoff != 0 || retry.maxBackoff != 0;
              var passes := !contextEnded && !malformed && !retries && encodes;
              var joined := Join(Triple(TrimSpace(scope), TrimSpace(name), TrimSpace(key)));
              var known := !Blank(key) && joined in old(idempotency);
              && (r == Err(RetriesUnsupported) <==> !contextEnded && !malformed && retries)
              && (r == Err(InvalidOperation) <==>
                    && !contextEnded
                    && (|| malformed || (!retries && !encodes)
                        || (passes && old(mode) == Accepting && TrimSpace(name) !in handlers)))
              && (r == Err(AsyncUnavailable) <==> passes && old(mode) != Accepting)
              && (r == Err(AsyncQueueFull) <==>
                    && passes && old(mode) == Accepting && TrimSpace(name) in handlers
                    && !known && |old(queue)| >= capacity)
              && (r.Ok? && known ==> r.value == old(idempotency)[joined])
              && (r.Ok? && !known ==> r.value == id)
      ensures !Passes(contextEnded, name, key, scope, retry, encodes) ==> r.Err? && View() == old(View())
      ensures Passes(contextEnded, name, key, scope, retry, encodes) ==>
                var t := Triple(TrimSpace(scope), TrimSpace(name), TrimSpace(key));
                && Enabled(old(View()), Submit(t, id))
                && View() == Apply(old(View()), Submit(t, id))
                && r == match SubmitAnswer(old(View()), t, id)
                        case Accepted(added) => Ok(added)
                        case Existing(earlier) => Ok(earlier)
                        case Unavailable => Err(AsyncUnavailable)
                        case NoHandler => Err(InvalidOperation)
                        case QueueFull => Err(AsyncQueueFull)
    {
      if contextEnded {
        return Err(ContextEnded);
      }
      var trimmed := TrimSpace(name);
      if trimmed == "" {
        return Err(InvalidOperation);
      }
      var trimmedKey, trimmedScope := TrimSpace(key), TrimSpace(scope);
      if trimmedKey != "" && trimmedScope == "" {
        return Err(InvalidOperation);
      }
      if retry.maxAttempts < 0 || retry.initialBackoff < 0 || retry.maxBackoff < 0 {
        return Err(InvalidOperation);
      }
      if retry.maxAttempts > 1 || retry.initialBackoff != 0 || retry.maxBackoff != 0 {
        return Err(RetriesUnsupported);
      }
      if !encodes {
        return Err(InvalidOperation);
      }
      r := Admit(Triple(trimmedScope, trimmed, trimmedKey), id);
    }

    /** The critical section of Submit; a full queue takes both map entries back out. */
    method Admit(t: Triple, id: Id) returns (r: Result<Id, SubmitError>)
      requires Enabled(View(), Submit(t, id)) && "" !in idempotency
      modifies this`operations, this`idempotency, this`queue, this`metrics, this`accepted, this`answers
      ensures "" !in idempotency
      ensures View() == Apply(old(View()), Submit(t, id))
      ensures r == match SubmitAnswer(old(View()), t, id)
                   case Accepted(added) => Ok(added)
                   case Existing(earlier) => Ok(earlier)
                   case Unavailable => Err(AsyncUnavailable)
                   case NoHandler => Err(InvalidOperation)
                   case QueueFull => Err(AsyncQueueFull)
    {
      ghost var step := Submit(t, id);
      KeepsOthers(View(), step);
      if mode != Accepting {
        return Err(AsyncUnavailable);
      }
      if t.name !in handlers {
        return Err(InvalidOperation);
      }
      var idempotencyKey := "";
      if t.key != "" {
        idempotencyKey := t.scope + "\0" + t.name + "\0" + t.key;
        if idempotencyKey in idempotency {
          answers := answers + [Answer(t, idempotency[idempotencyKey])];
          return Ok(idempotency[idempotencyKey]);
        }
      }
      var queued := Enqueue(t, id, idempotencyKey);
      if queued {
        return Ok(id);
      }
      return Err(AsyncQueueFull);
    }

    /** The end of that section: record and key go in first, and come out again when the queue is full. */
    method Enqueue(t: Triple, id: Id, idempotencyKey: string) returns (queued: bool)
      requires id !in operations && "" !in idempotency && idempotencyKey !in idempotency
      requires idempotencyKey == if t.key != "" then Join(t) else ""
      modifies this`operations, this`idempotency, this`queue, this`metrics, this`accepted, this`answers
      ensures queued <==> |old(queue)| < capacity
      ensures queued ==>
                && operations == old(operations)[id := NewRecord(t.name)]
                && idempotency == (if t.key != "" then old(idempotency)[Join(t) := id] else old(idempotency))
                && queue == old(queue) + [id] && accepted == old(accepted) + [id]
                && metrics == old(metrics).(submitted := old(metrics).submitted + 1)
                && answers == (if t.key != "" then old(answers) + [Answer(t, id)] else old(answers))
      ensures !queued ==>
                && operations == old(operations) && idempotency == old(idempotency) && metrics == old(metrics)
                && queue == old(queue) && accepted == old(accepted) && answers == old(answers)
    {
      operations := operations[id := NewRecord(t.name)];
      if idempotencyKey != "" {
        idempotency := idempotency[idempotencyKey := id];
      }
      queued := |queue| < capacity;
      if queued {
        queue := queue + [id];
        metrics := metrics.(submitted := metrics.submitted + 1);
        accepted := accepted + [id];
        if t.key != "" {
          answers := answers + [Answer(t, id)];
        }
      } else {
        operations := operations - {id};
        idempotency := idempotency - {idempotencyKey};
      }
    }

    /** One turn of `for id := range queue`: an id, or nothing once the queue is closed and empty. */
    method Receive(ghost w: nat) returns (id: Option<Id>)
      requires (Enabled(View(), Pop(w)) || Enabled(View(), Exit(w)))
      modifies this`queue, this`workers, this`popped
      ensures id.Some? ==>
          Enabled(old(View()), Pop(w)) && View() == Apply(old(View()), Pop(w)) && workers[w] == Holding(id.value)
      ensures id.None? ==> Enabled(old(View()), Exit(w)) && View() == Apply(old(View()), Exit(w))
    {
      if queue == [] {
        KeepsOthers(View(), Exit(w));
        workers := workers[w := Exited];
        return None;
      }
      KeepsOthers(View(), Pop(w));
      id := Some(queue[0]);
      workers := workers[w := Holding(queue[0])];
      popped := popped + [queue[0]];
      queue := queue[1..];
    }

    /** The first critical section of run; false when the operation is no longer pending. */
    method BeginRun(id: Id, ghost w: nat) returns (started: bool)
      requires w < |workers| && workers[w] == Holding(id)
      modifies this`operations, this`metrics, this`workers, this`begun
      ensures View() == Apply(old(View()), Begin(w))
      ensures started <==> id in old(operations) && old(operations)[id].status == Pending
      ensures started ==> workers[w] == Executing(id)
    {
      ghost var step := Begin(w);
      KeepsOthers(View(), step);
      started := id in operations && operations[id].status == Pending;
      if !started {
        workers := workers[w := Waiting];
        return;
      }
      operations := operations[id := operations[id].(status := Running, started := true, executing := true)];
      metrics := metrics.(running := metrics.running + 1, queueWaitCount := metrics.queueWaitCount + 1);
      workers := workers[w := Executing(id)];
      begun := begun + [id];
    }

    /** finish. */
    method FinishRun(id: Id, o: Outcome, ghost w: nat)
      requires w < |workers| && workers[w] == Executing(id)
      modifies this`operations, this`metrics, this`workers
      ensures View() == Apply(old(View()), Finish(w, o))
      ensures id in old(operations) ==>
                && id in operations && operations == old(operations)[id := operations[id]]
                && RecordAfterwards(old(operations)[id], o, operations[id])
                && EndCounted(old(metrics), old(operations)[id], o, metrics)
    {
      ghost var step := Finish(w, o);
      KeepsOthers(View(), step);
      workers := workers[w := Waiting];
      if id in operations {
        ghost var was, before := operations[id], metrics;
        Settle(id, o);
        RecordEnds(was, o, operations[id]);
        CountersEnd(before, was, o, metrics);
      }
    }

    /** finish, for an existing record. */
    method Settle(id: Id, o: Outcome)
      requires id in operations
      modifies this`operations, this`metrics
      ensures id in operations && operations == old(operations)[id := operations[id]]
      ensures RecordAfterwards(old(operations)[id], o, operations[id])
      ensures EndCounted(old(metrics), old(operations)[id], o, metrics)
    {
      var record := operations[id];
      if record.executing {
        record := record.(executing := false);
        metrics := metrics.(running := metrics.running - 1);
        if record.started {
          metrics := metrics.(durationCount := metrics.durationCount + 1);
        }
      }
      assert record == operations[id].(executing := false);
      if record.status.Terminal() {
        operations := operations[id := record];
        return;
      }
      record := record.(finished := true);
      if o.error.NoError? && o.ended.Live? && o.encodes {
        record := record.(status := Succeeded, progress := 100, result := Some(o.result), doneClosed := true);
        metrics := metrics.(completed := metrics.completed + 1);
      } else {
        var publicErr := OperationError("operation_failed", "The operation could not be completed");
        if o.ended.DeadlineExceeded? {
          publicErr := OperationError("operation_timeout", "The operation timed out");
        } else if o.error.Public? {
          publicErr := Published(o.error.error);
        }
        assert publicErr == Told(o);
        record := record.(status := Failed, error := Some(publicErr), doneClosed := true);
        metrics := metrics.(failed := metrics.failed + 1);
      }
      assert EndsAs(operations[id], o, record);
      operations := operations[id := record];
    }

    method CancelOperation(id: Id) returns (known: bool)
      modifies this`operations, this`metrics
      ensures View() == Apply(old(View()), Cancel(id))
      ensures known <==> id in old(operations)
    {
      ghost var step := Cancel(id);
      KeepsOthers(View(), step);
      known := id in operations;
      if known && !operations[id].status.Terminal() {
        operations := operations[id := operations[id].(status := Cancelled, finished := true, doneClosed := true)];
        metrics := metrics.(cancelled := metrics.cancelled + 1);
      }
    }

    method ReportProgress(contextEnded: bool, id: Id, progress: int) returns (r: Result<(), ProgressError>)
      modifies this`operations
      ensures r.Ok? <==>
                && 0 <= progress <= 100 && !contextEnded
                && id in old(operations) && old(operations)[id].status == Running
      ensures r.Ok? ==>
                && Enabled(old(View()), Progress(id, progress))
                && View() == Apply(old(View()), Progress(id, progress))
      ensures r.Err? ==> View() == old(View())
    {
      if progress < 0 || progress > 100 {
        return Err(InvalidProgress);
      }
      if contextEnded {
        return Err(ProgressContextEnded);
      }
      if id !in operations {
        return Err(OperationNotFound);
      }
      if operations[id].status != Running {
        return Err(OperationFinished);
      }
      ghost var step := Progress(id, progress);
      KeepsOthers(View(), step);
      operations := operations[id := operations[id].(progress := progress)];
      return Ok(());
    }

    method StopAcceptingWork()
      modifies this`mode, this`closed
      ensures View() == Apply(old(View()), StopAccepting)
      ensures mode != Accepting
    {
      KeepsOthers(View(), StopAccepting);
      if mode == Accepting {
        mode := Stopping;
        closed := true;
      }
    }

    /** The start of Shutdown: refused before Start, nothing to do when stopped, otherwise no more submissions. */
    method BeginShutdown() returns (r: ShutdownStart)
      modifies this`mode, this`closed
      ensures r == match old(mode) case Created => NotStarted case Stopped => AlreadyStopped case _ => Draining
      ensures r == Draining ==> View() == Apply(old(View()), StopAccepting) && mode == Stopping
      ensures r != Draining ==> View() == old(View())
    {
      if mode == Created {
        return NotStarted;
      }
      if mode == Stopped {
        return AlreadyStopped;
      }
      StopAcceptingWork();
      return Draining;
    }

    method CancelUnfinishedWork()
      requires mode == Stopping || mode == Stopped
      modifies this`operations, this`metrics, this`forced
      ensures View() == Apply(old(View()), CancelUnfinished)
    {
      CancelRecords();
      CancelledAll(old(View()), operations);
      forced := true;
    }

    /** cancelUnfinished: a loop over all records. */
    method CancelRecords()
      modifies this`operations, this`metrics
      ensures operations.Keys == old(operations).Keys
      ensures forall id :: id in operations ==>
                operations[id] == if old(operations)[id].status.Terminal() then old(operations)[id]
                    else Affect(old(operations)[id], CancelIt)
      ensures metrics == old(metrics).(cancelled := old(metrics).cancelled + |Unfinished(old(operations))|)
    {
      ghost var before := operations;
      var left := operations.Keys;
      assert CancelledSoFar(before, left) == {};
      while left != {}
        invariant left <= before.Keys == operations.Keys
        invariant forall id :: id in before ==>
                    operations[id] == if id in left || before[id].status.Terminal() then before[id]
                        else Affect(before[id], CancelIt)
        invariant metrics == old(metrics).(cancelled := old(metrics).cancelled + |CancelledSoFar(before, left)|)
        decreases left
      {
        var id :| id in left;
        ghost var was := CancelledSoFar(before, left);
        left := left - {id};
        if !operations[id].status.Terminal() {
          assert CancelledSoFar(before, left) == was + {id};
          operations := operations[id := operations[id].(status := Cancelled, finished := true, doneClosed := true)];
          metrics := metrics.(cancelled := metrics.cancelled + 1);
        } else {
          assert CancelledSoFar(before, left) == was;
        }
      }
      assert CancelledSoFar(before, left) == Unfinished(before);
    }

    /** The last section of Shutdown: after the workers are done, or at the deadline after cancelling what is left. */
    method CompleteShutdown(drained: bool)
      requires (mode == Stopping || mode == Stopped)
      requires drained ==> AllExited(View())
      modifies this`operations, this`metrics, this`forced, this`mode
      ensures mode == Stopped
      ensures drained ==> View() == Apply(old(View()), SetStopped)
      ensures !drained ==>
          var t := Apply(old(View()), CancelUnfinished); Enabled(t, SetStopped) && View() == Apply(t, SetStopped)
    {
      if !drained {
        CancelUnfinishedWork();
      }
      KeepsOthers(View(), SetStopped);
      mode := Stopped;
    }

    /** Get, and the snapshot Wait takes once the done channel is closed. */
    method Snapshot(id: Id) returns (r: OperationState, done: bool)
      ensures r == if id in operations then Known(operations[id]) else NotFound
      ensures done <==> id in operations && operations[id].doneClosed
    {
      if id !in operations {
        return NotFound, false;
      }
      return Known(operations[id]), operations[id].doneClosed;
    }
  }

  predicate NegativeRetry(retry: RetryPolicy) {
    retry.maxAttempts < 0 || retry.initialBackoff < 0 || retry.maxBackoff < 0
  }

  predicate WantsRetry(retry: RetryPolicy) {
    retry.maxAttempts > 1 || retry.initialBackoff != 0 || retry.maxBackoff != 0
  }

  /** The checks Submit makes before it takes the lock. */
  predicate Passes(contextEnded: bool, name: string, key: string, scope: string, retry: RetryPolicy, encodes: bool) {
    && !contextEnded && !Blank(name) && (Blank(key) || !Blank(scope))
    && !NegativeRetry(retry) && !WantsRetry(retry) && encodes
  }

  function CancelledSoFar(ops: map<Id, Record>, left: set<Id>): set<Id> {
    set id | id in ops && id !in left && !ops[id].status.Terminal()
  }

  lemma CancelledAll(s: Exec, after: map<Id, Record>)
    requires Enabled(s, CancelUnfinished) && after.Keys == s.operations.Keys
    requires forall id :: id in s.operations ==>
               after[id] == if s.operations[id].status.Terminal() then s.operations[id]
                   else Affect(s.operations[id], CancelIt)
    ensures after == OperationsAfter(s, CancelUnfinished)
  {
  }

  /** The record map after a step that concerns one record. */
  lemma KeepsOthers(s: Exec, step: Step)
    requires Enabled(s, step) && !step.CancelUnfinished?
    ensures Apply(s, step).operations ==
            if Admits(s, step) then s.operations[step.id := NewRecord(step.t.name)]
            else if Target(s, step).Some? && Target(s, step).value in s.operations then
              var id := Target(s, step).value;
              s.operations[id := Affect(s.operations[id], EffectOn(s, step, id))]
            else s.operations
  {
    SingleChange(s, step);
  }
}
