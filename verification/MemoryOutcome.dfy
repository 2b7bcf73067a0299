/** What each critical section of the in-memory executor does, field by field, to the record and metrics it is about. */
module MemoryOutcome {
  import opened Prelude
  import opened Operations
  import opened MemoryExecutor
  import opened MemoryInvariants
  import opened MemoryTheorems

  /** Only this record changes. */
  predicate OnlyRecord(s: Exec, t: Exec, id: Id, end: Record) {
    t.operations == s.operations[id := end]
  }

  // ----- the handler returns -----

  /** What is told of a failure: a deadline is a timeout, an operation error is kept with its defaults, else nothing. */
  function Told(o: Outcome): OperationError {
    if o.ended == DeadlineExceeded then OperationError("operation_timeout", "The operation timed out")
    else if o.error.Public? then
      OperationError(if o.error.error.code == "" then "operation_failed" else o.error.error.code,
                     if o.error.error.message == "" then "The operation could not be completed"
                     else o.error.error.message)
    else OperationError("operation_failed", "The operation could not be completed")
  }

  /**
   The record after the handler returned.  It succeeded, with exactly the handler's result, if and only if the handler
   returned no error, the context was alive and the result can be encoded; otherwise it failed.
   */
  predicate EndsAs(was: Record, o: Outcome, end: Record) {
    var over := was.(executing := false, finished := true, doneClosed := true);
    if o.error == NoError && o.ended == Live && o.encodes then
      end == over.(status := Succeeded, progress := 100, result := Some(o.result))
    else
      end == over.(status := Failed, error := Some(Told(o)))
  }

  /** Its counters: one handler fewer runs, one more duration is known, and an unfinished operation is counted once. */
  predicate EndCounted(m: Metrics, was: Record, o: Outcome, n: Metrics) {
    var success := o.error == NoError && o.ended == Live && o.encodes;
    n == m.(running := m.running - if was.executing then 1 else 0,
            durationCount := m.durationCount + if was.executing && was.started then 1 else 0,
            completed := m.completed + if !was.status.Terminal() && success then 1 else 0,
            failed := m.failed + if !was.status.Terminal() && !success then 1 else 0)
  }

  /** The record after the handler returned, in any case. */
  predicate RecordAfterwards(was: Record, o: Outcome, end: Record) {
    if was.status.Terminal() then end == was.(executing := false) else EndsAs(was, o, end)
  }

  lemma ToldIsPublic(o: Outcome)
    ensures Told(o) == PublicError(o)
  {
  }

  lemma RecordEnds(was: Record, o: Outcome, end: Record)
    ensures RecordAfterwards(was, o, end) <==> end == Affect(was, FinishIt(o))
  {
    ToldIsPublic(o);
  }

  lemma CountersEnd(m: Metrics, was: Record, o: Outcome, n: Metrics)
    ensures EndCounted(m, was, o, n) <==> n == FinishMetrics(m, was, o)
  {
  }

  lemma FinishStep(s: Exec, w: nat, o: Outcome)
    requires Enabled(s, Finish(w, o)) && s.workers[w].id in s.operations
    ensures var id, t := s.workers[w].id, Apply(s, Finish(w, o));
            && t.operations == s.operations[id := Affect(s.operations[id], FinishIt(o))]
            && t.metrics == FinishMetrics(s.metrics, s.operations[id], o)
            && t.workers == s.workers[w := Waiting]
  {
    SingleChange(s, Finish(w, o));
  }

  /** In every reachable state; an operation that was cancelled meanwhile only loses its executing mark. */
  lemma HandlerReturns(init: Exec, steps: seq<Step>, s: Exec, w: nat, o: Outcome)
    requires Reached(init, steps, s) && Enabled(s, Finish(w, o))
    ensures var id, t := s.workers[w].id, Apply(s, Finish(w, o));
            && id in s.operations && id in t.operations
            && var was, end := s.operations[id], t.operations[id];
               && OnlyRecord(s, t, id, end)
               && RecordAfterwards(was, o, end)
               && was.executing && was.started && EndCounted(s.metrics, was, o, t.metrics)
               && t.workers[w] == Waiting
  {
    ReachedInv(init, steps, s);
    var id := s.workers[w].id;
    assert RecordOk(s, s.operations[id]);
    FinishStep(s, w, o);
    RecordEnds(s.operations[id], o, Apply(s, Finish(w, o)).operations[id]);
    CountersEnd(s.metrics, s.operations[id], o, Apply(s, Finish(w, o)).metrics);
  }

  // ----- the handler starts -----

  /** A worker runs exactly the pending operation it took; one cancelled in the queue is dropped. */
  lemma HandlerStarts(init: Exec, steps: seq<Step>, s: Exec, w: nat)
    requires Reached(init, steps, s) && Enabled(s, Begin(w))
    ensures var id, t := s.workers[w].id, Apply(s, Begin(w));
            if id in s.operations && s.operations[id].status == Pending then
              && OnlyRecord(s, t, id, s.operations[id].(status := Running, started := true, executing := true))
              && t.workers == s.workers[w := Executing(id)] && t.begun == s.begun + [id]
              && t.metrics == s.metrics.(running := s.metrics.running + 1,
                                         queueWaitCount := s.metrics.queueWaitCount + 1)
            else
              && t.operations == s.operations && t.workers == s.workers[w := Waiting] && t.begun == s.begun
              && t.metrics == s.metrics
  {
    SingleChange(s, Begin(w));
  }

  // ----- accepting -----

  /** Start was called, and StopAccepting was not called since it first was. */
  ghost predicate StartedAndNotStopped(steps: seq<Step>) {
    exists k :: 0 <= k < |steps| && FirstStart(steps, k)
      && forall i :: k < i < |steps| ==> steps[i] != StopAccepting
  }

  predicate FirstStart(steps: seq<Step>, k: nat)
    requires k < |steps|
  {
    steps[k] == Start && forall i :: 0 <= i < k ==> steps[i] != Start
  }

  lemma FirstStartLater(steps: seq<Step>)
    requires steps != [] && steps[0] != Start
    ensures StartedAndNotStopped(steps) <==> StartedAndNotStopped(steps[1..])
  {
    if StartedAndNotStopped(steps) {
      var k :| 0 <= k < |steps| && FirstStart(steps, k) && forall i :: k < i < |steps| ==> steps[i] != StopAccepting;
      assert FirstStart(steps[1..], k - 1);
    }
    if StartedAndNotStopped(steps[1..]) {
      var k :| 0 <= k < |steps[1..]| && FirstStart(steps[1..], k)
               && forall i :: k < i < |steps[1..]| ==> steps[1..][i] != StopAccepting;
      forall i | k + 1 < i < |steps| ensures steps[i] != StopAccepting {
        assert steps[i] == steps[1..][i - 1];
      }
      forall i | 0 <= i < k + 1 ensures steps[i] != Start {
        assert i > 0 ==> steps[i] == steps[1..][i - 1];
      }
      assert FirstStart(steps, k + 1);
    }
  }

  lemma FirstStartNow(steps: seq<Step>)
    requires steps != [] && steps[0] == Start
    ensures StartedAndNotStopped(steps) <==> StopAccepting !in steps[1..]
  {
    if StartedAndNotStopped(steps) {
      var k :| 0 <= k < |steps| && FirstStart(steps, k) && forall i :: k < i < |steps| ==> steps[i] != StopAccepting;
      assert k == 0;
    }
    if StopAccepting !in steps[1..] {
      forall i | 0 < i < |steps| ensures steps[i] != StopAccepting {
        assert steps[i] == steps[1..][i - 1];
      }
      assert FirstStart(steps, 0);
    }
  }

  lemma {:induction false} AcceptsFrom(s: Exec, steps: seq<Step>)
    requires Legal(s, steps)
    ensures s.mode == Accepting ==> (After(s, steps).mode == Accepting <==> StopAccepting !in steps)
    ensures s.mode == Stopping || s.mode == Stopped ==> After(s, steps).mode != Accepting
    ensures s.mode == Created ==> (After(s, steps).mode == Accepting <==> StartedAndNotStopped(steps))
    decreases |steps|
  {
    if steps != [] {
      AcceptsFrom(Apply(s, steps[0]), steps[1..]);
      assert steps == [steps[0]] + steps[1..];
      if steps[0] == Start {
        FirstStartNow(steps);
      } else {
        FirstStartLater(steps);
      }
    }
  }

  /** Submissions are taken exactly from the first Start to the next StopAccepting. */
  lemma AcceptsIff(init: Exec, steps: seq<Step>, s: Exec)
    requires Reached(init, steps, s)
    ensures s.mode == Accepting <==> StartedAndNotStopped(steps)
  {
    AcceptsFrom(init, steps);
  }

  // ----- clients and shutdown -----

  predicate IsCancelled(was: Record, end: Record) {
    end == was.(status := Cancelled, finished := true, doneClosed := true)
  }

  /** Cancelling ends exactly an unfinished operation, and counts it. */
  lemma ClientCancels(s: Exec, id: Id)
    ensures var t := Apply(s, Cancel(id));
            if id in s.operations && !s.operations[id].status.Terminal() then
              && id in t.operations && IsCancelled(s.operations[id], t.operations[id])
              && OnlyRecord(s, t, id, t.operations[id])
              && t.metrics == s.metrics.(cancelled := s.metrics.cancelled + 1)
            else t == s
  {
    SingleChange(s, Cancel(id));
  }

  /** Progress of a running operation is shown as reported. */
  lemma ProgressIsShown(s: Exec, id: Id, progress: int)
    requires Enabled(s, Progress(id, progress))
    ensures var t := Apply(s, Progress(id, progress));
            if id in s.operations && s.operations[id].status == Running then
              t == s.(operations := s.operations[id := s.operations[id].(progress := progress)])
            else t == s
  {
    SingleChange(s, Progress(id, progress));
  }

  /** The deadline of Shutdown cancels every unfinished operation, wherever it is, and counts each. */
  lemma DeadlineCancels(s: Exec)
    requires Enabled(s, CancelUnfinished)
    ensures var t := Apply(s, CancelUnfinished);
            && t.operations.Keys == s.operations.Keys
            && (forall id :: id in s.operations ==>
                  if s.operations[id].status.Terminal() then t.operations[id] == s.operations[id]
                  else IsCancelled(s.operations[id], t.operations[id]))
            && t.metrics == s.metrics.(cancelled := s.metrics.cancelled +
                              |set id | id in s.operations && !s.operations[id].status.Terminal()|)
            && t.queue == s.queue && t.workers == s.workers && t.mode == s.mode && t.closed == s.closed
  {
  }

  // ----- submissions -----

  /** Every key in the map was answered before. */
  ghost predicate KeysAnswered(s: Exec) {
    forall k :: k in s.idempotency ==> exists i :: 0 <= i < |s.answers| && Join(s.answers[i].triple) == k
  }

  lemma StepAnswered(s: Exec, step: Step)
    requires KeysAnswered(s) && Enabled(s, step)
    ensures KeysAnswered(Apply(s, step))
  {
    var t := Apply(s, step);
    forall k | k in t.idempotency ensures exists i :: 0 <= i < |t.answers| && Join(t.answers[i].triple) == k {
      if k in s.idempotency {
        var i :| 0 <= i < |s.answers| && Join(s.answers[i].triple) == k;
        assert t.answers[i] == s.answers[i];
      } else {
        assert t.answers == s.answers + [Answer(step.t, step.id)];
        assert t.answers[|s.answers|] == Answer(step.t, step.id);
      }
    }
  }

  lemma {:induction false} RunAnswered(s: Exec, steps: seq<Step>)
    requires KeysAnswered(s) && Legal(s, steps)
    ensures KeysAnswered(After(s, steps))
    decreases |steps|
  {
    if steps != [] {
      StepAnswered(s, steps[0]);
      RunAnswered(Apply(s, steps[0]), steps[1..]);
    }
  }

  /** An earlier keyed submission had the same joined key. */
  predicate AnsweredAs(s: Exec, t: Triple, id: Id) {
    exists i :: 0 <= i < |s.answers| && s.answers[i].id == id
      && s.answers[i].triple.scope + "\0" + s.answers[i].triple.name + "\0" + s.answers[i].triple.key ==
         t.scope + "\0" + t.name + "\0" + t.key
  }

  ghost predicate AnsweredBefore(s: Exec, t: Triple) {
    exists id :: AnsweredAs(s, t, id)
  }

  lemma KnownIff(init: Exec, steps: seq<Step>, s: Exec, t: Triple)
    requires Reached(init, steps, s)
    ensures Join(t) in s.idempotency <==> AnsweredBefore(s, t)
    ensures Join(t) in s.idempotency ==> AnsweredAs(s, t, s.idempotency[Join(t)])
  {
    ReachedInv(init, steps, s);
    RunAnswered(init, steps);
    if Join(t) in s.idempotency {
      var i :| 0 <= i < |s.answers| && Join(s.answers[i].triple) == Join(t);
      assert s.answers[i].id == s.idempotency[Join(t)];
      assert AnsweredAs(s, t, s.idempotency[Join(t)]);
    }
    if AnsweredBefore(s, t) {
      var id :| AnsweredAs(s, t, id);
      var i :| 0 <= i < |s.answers| && s.answers[i].id == id && Join(s.answers[i].triple) == Join(t);
    }
  }

  /**
   What becomes of a valid submission, by what came before it.  A keyed one whose joined key was answered before gets
   that operation again; otherwise it needs room in the queue, and is then appended to it as a new pending operation.
   */
  lemma SubmissionDecided(init: Exec, steps: seq<Step>, s: Exec, t: Triple, id: Id)
    requires Reached(init, steps, s) && Enabled(s, Submit(t, id))
    ensures var u, r := Apply(s, Submit(t, id)), SubmitAnswer(s, t, id);
            if s.mode != Accepting then r == Unavailable && u == s
            else if t.name !in s.handlers then r == NoHandler && u == s
            else if t.key != "" && AnsweredBefore(s, t) then
              && r.Existing? && AnsweredAs(s, t, r.id)
              && u == s.(answers := s.answers + [Answer(t, r.id)])
            else if |s.queue| >= s.capacity then r == QueueFull && u == s
            else
              && r == Accepted(id)
              && OnlyRecord(s, u, id, Record(t.name, Pending, 0, false, false, None, None, false, false))
              && u.queue == s.queue + [id] && u.accepted == s.accepted + [id]
              && u.metrics == s.metrics.(submitted := s.metrics.submitted + 1)
              && u.answers == (if t.key != "" then s.answers + [Answer(t, id)] else s.answers)
              && u.workers == s.workers && u.mode == s.mode
  {
    KnownIff(init, steps, s, t);
    SingleChange(s, Submit(t, id));
  }
}
