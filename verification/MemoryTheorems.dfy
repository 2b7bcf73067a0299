/** Properties of whole runs of the in-memory executor. */
module MemoryTheorems {
  import opened Prelude
  import opened Operations
  import opened MemoryExecutor
  import opened MemoryInvariants

  lemma {:induction false} RunInv(s: Exec, steps: seq<Step>)
    requires Inv(s) && Legal(s, steps)
    ensures Inv(After(s, steps))
    decreases |steps|
  {
    if steps != [] {
      StepInv(s, steps[0]);
      RunInv(Apply(s, steps[0]), steps[1..]);
    }
  }

  ghost predicate Reached(init: Exec, steps: seq<Step>, s: Exec) {
    Init(init) && Legal(init, steps) && After(init, steps) == s
  }

  lemma ReachedInv(init: Exec, steps: seq<Step>, s: Exec)
    requires Reached(init, steps, s)
    ensures Inv(s)
  {
    InitInv(init);
    RunInv(init, steps);
  }

  // ----- service order -----

  /** Ids leave the queue in the order they were accepted, none twice, and each handler is started at most once. */
  lemma ServedOnceInOrder(init: Exec, steps: seq<Step>, s: Exec)
    requires Reached(init, steps, s)
    ensures s.accepted == s.popped + s.queue && Distinct(s.accepted) && |s.queue| <= s.capacity
    ensures Distinct(s.begun) && forall id :: id in s.begun ==> id in s.popped
  {
    ReachedInv(init, steps, s);
    RunBegun(init, steps);
  }

  lemma {:induction false} RunBegun(s: Exec, steps: seq<Step>)
    requires Inv(s) && Legal(s, steps) && forall id :: id in s.begun ==> id in s.popped
    ensures forall id :: id in After(s, steps).begun ==> id in After(s, steps).popped
    decreases |steps|
  {
    if steps != [] {
      StepInv(s, steps[0]);
      StepBegun(s, steps[0]);
      RunBegun(Apply(s, steps[0]), steps[1..]);
    }
  }

  lemma StepBegun(s: Exec, step: Step)
    requires HandsOk(s) && Enabled(s, step) && forall id :: id in s.begun ==> id in s.popped
    ensures forall id :: id in Apply(s, step).begun ==> id in Apply(s, step).popped
  {
    if Starts(s, step) {
      assert Held(s.workers[step.w]);
    }
  }

  // ----- draining -----

  predicate Drained(s: Exec) {
    s.mode == Stopped || (s.mode != Created && AllExited(s))
  }

  predicate AllTerminal(s: Exec) {
    forall id :: id in s.operations ==> s.operations[id].status.Terminal()
  }

  /** Once all workers exited, or Shutdown returned by either branch, every accepted operation is terminal. */
  lemma DrainComplete(init: Exec, steps: seq<Step>, s: Exec)
    requires Reached(init, steps, s) && Drained(s)
    ensures AllTerminal(s) && forall id :: id in s.accepted ==> id in s.operations
  {
    ReachedInv(init, steps, s);
    if s.forced {
      assert forall id :: id in s.operations && !s.operations[id].status.Terminal() ==> id in Unfinished(s.operations);
    } else {
      assert s.workers[0].Exited? && s.queue == [];
      forall id | id in s.operations ensures s.operations[id].status.Terminal() {
        assert RecordOk(s, s.operations[id]) && !HoldingSome(s, id) && !ExecutingSome(s, id);
      }
    }
  }

  /** What a client sees of an operation. */
  predicate SameOperation(a: Record, b: Record) {
    a.(executing := false) == b.(executing := false)
  }

  lemma ClosedForever(s: Exec, step: Step)
    requires Inv(s) && s.closed && Enabled(s, step)
    ensures Apply(s, step).closed && Apply(s, step).operations.Keys == s.operations.Keys
  {
  }

  /** A terminal operation is never changed again; only the executing mark is cleared when its handler returns. */
  lemma TerminalFrozen(s: Exec, step: Step, id: Id)
    requires Enabled(s, step) && id in s.operations && s.operations[id].status.Terminal()
    ensures id in Apply(s, step).operations && SameOperation(s.operations[id], Apply(s, step).operations[id])
  {
    RecordAfter(s, step, id);
  }

  /** After draining, no later step adds an operation or changes a status, result, error or progress. */
  lemma {:induction false} DrainedForever(s: Exec, steps: seq<Step>)
    requires Inv(s) && s.closed && AllTerminal(s) && Legal(s, steps)
    ensures After(s, steps).operations.Keys == s.operations.Keys
    ensures forall id :: id in s.operations ==> SameOperation(s.operations[id], After(s, steps).operations[id])
    decreases |steps|
  {
    if steps != [] {
      var t := Apply(s, steps[0]);
      StepInv(s, steps[0]);
      ClosedForever(s, steps[0]);
      forall id | id in s.operations ensures id in t.operations && SameOperation(s.operations[id], t.operations[id]) {
        TerminalFrozen(s, steps[0], id);
      }
      DrainedForever(t, steps[1..]);
    }
  }

  lemma DrainedIsClosed(init: Exec, steps: seq<Step>, s: Exec)
    requires Reached(init, steps, s) && Drained(s)
    ensures Inv(s) && s.closed
  {
    ReachedInv(init, steps, s);
    if s.mode != Stopped {
      assert s.workers[0].Exited?;
    }
  }

  /** Draining, both halves: everything accepted is terminal, now and in every later state. */
  lemma DrainIsFinal(init: Exec, steps: seq<Step>, s: Exec, later: seq<Step>)
    requires Reached(init, steps, s) && Drained(s) && Legal(s, later)
    ensures var t := After(s, later);
            && t.operations.Keys == s.operations.Keys
            && AllTerminal(s)
            && forall id :: id in s.operations ==> SameOperation(s.operations[id], t.operations[id])
  {
    DrainComplete(init, steps, s);
    DrainedIsClosed(init, steps, s);
    DrainedForever(s, later);
  }

  // ----- metrics -----

  lemma StatusPartition(ops: map<Id, Record>)
    ensures |ops| == |WithStatus(ops, Pending)| + |WithStatus(ops, Running)| + |WithStatus(ops, Succeeded)|
                     + |WithStatus(ops, Failed)| + |WithStatus(ops, Cancelled)|
  {
    var open := WithStatus(ops, Pending) + WithStatus(ops, Running);
    var ended := WithStatus(ops, Succeeded) + WithStatus(ops, Failed);
    UnionSize(WithStatus(ops, Pending), WithStatus(ops, Running));
    UnionSize(WithStatus(ops, Succeeded), WithStatus(ops, Failed));
    UnionSize(ended, WithStatus(ops, Cancelled));
    UnionSize(open, ended + WithStatus(ops, Cancelled));
    EveryStatus(ops);
    assert |ops.Keys| == |ops|;
  }

  lemma UnionSize(a: set<Id>, b: set<Id>)
    requires a !! b
    ensures |a + b| == |a| + |b|
  {
  }

  lemma EveryStatus(ops: map<Id, Record>)
    ensures ops.Keys == WithStatus(ops, Pending) + WithStatus(ops, Running)
                        + (WithStatus(ops, Succeeded) + WithStatus(ops, Failed) + WithStatus(ops, Cancelled))
  {
  }

  function Executed(workers: seq<Phase>): set<Id> {
    set w | 0 <= w < |workers| && workers[w].Executing? :: workers[w].id
  }

  lemma {:induction false} ExecutedBound(workers: seq<Phase>)
    ensures |Executed(workers)| <= |workers|
  {
    if workers != [] {
      var front, last := workers[..|workers| - 1], workers[|workers| - 1];
      ExecutedBound(front);
      var extra: set<Id> := if last.Executing? then {last.id} else {};
      assert Executed(workers) == Executed(front) + extra by {
        forall id | id in Executed(front) + extra ensures id in Executed(workers) {
          if id in Executed(front) {
            var w :| 0 <= w < |front| && front[w].Executing? && front[w].id == id;
            assert workers[w].id == id;
          } else {
            assert workers[|workers| - 1].id == id;
          }
        }
      }
    }
  }

  lemma RunningBound(s: Exec)
    requires Inv(s)
    ensures |ExecutingIds(s.operations)| <= s.workerCount
  {
    ExecutedBound(s.workers);
    forall id | id in ExecutingIds(s.operations) ensures id in Executed(s.workers) {
      assert ExecutingSome(s, id);
    }
    SubsetSize(ExecutingIds(s.operations), Executed(s.workers));
  }

  lemma AcceptedSize(s: Exec)
    requires QueueOk(s)
    ensures |s.operations| == |s.accepted|
  {
    DistinctSize(s.accepted);
    assert (set id | id in s.accepted) == s.operations.Keys;
    assert |s.operations.Keys| == |s.operations|;
  }

  /**
   Metrics conservation: every submission is counted exactly once as completed, failed, cancelled,
   pending or running; the Running gauge counts the records marked executing, at most one per worker;
   every handler start is counted as a queue wait and later as a duration.
   */
  lemma MetricsConserved(init: Exec, steps: seq<Step>, s: Exec)
    requires Reached(init, steps, s)
    ensures s.metrics.submitted == |s.operations| == |s.accepted|
    ensures s.metrics.submitted ==
            s.metrics.completed + s.metrics.failed + s.metrics.cancelled
            + |WithStatus(s.operations, Pending)| + |WithStatus(s.operations, Running)|
    ensures 0 <= s.metrics.running == |ExecutingIds(s.operations)| <= s.workerCount
    ensures s.metrics.queueWaitCount == s.metrics.durationCount + s.metrics.running == |s.begun|
  {
    ReachedInv(init, steps, s);
    StatusPartition(s.operations);
    RunningBound(s);
    AcceptedSize(s);
  }

  /** A refused submission changes nothing. */
  lemma RefusedChangesNothing(s: Exec, t: Triple, id: Id)
    requires Enabled(s, Submit(t, id)) &&
        (SubmitAnswer(s, t, id).QueueFull? || SubmitAnswer(s, t, id).Unavailable? || SubmitAnswer(s, t, id).NoHandler?)
    ensures Apply(s, Submit(t, id)) == s
  {
    assert OperationsAfter(s, Submit(t, id)) == s.operations;
  }

  // ----- waiting -----

  /**
   The done channel of an operation is closed exactly when the operation is terminal, so Wait returns terminal
   snapshots.
   */
  lemma DoneMeansTerminal(init: Exec, steps: seq<Step>, s: Exec, id: Id)
    requires Reached(init, steps, s) && id in s.operations
    ensures s.operations[id].doneClosed <==> s.operations[id].status.Terminal()
    ensures s.operations[id].result.Some? <==> s.operations[id].status.Succeeded?
    ensures s.operations[id].error.Some? <==> s.operations[id].status.Failed?
  {
    ReachedInv(init, steps, s);
    assert RecordOk(s, s.operations[id]);
  }
}
