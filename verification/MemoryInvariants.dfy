/** What every step of the in-memory executor keeps. */
module MemoryInvariants {
  import opened Prelude
  import opened Operations
  import opened MemoryExecutor

  // ----- the invariant, part by part -----

  predicate ModeOk(s: Exec) {
    && s.workerCount >= 1 && s.capacity >= 1
    && (s.mode == Created ==> s.workers == [] && s.accepted == [])
    && (s.mode != Created ==> |s.workers| == s.workerCount)
    && (s.closed <==> s.mode == Stopping || s.mode == Stopped)
    && (s.forced ==> s.closed && Unfinished(s.operations) == {})
    && (s.mode == Stopped ==> s.forced || AllExited(s))
  }

  /** The ids taken off the queue followed by the queue are the accepted ids, in order and without repeats. */
  ghost predicate QueueOk(s: Exec) {
    && s.accepted == s.popped + s.queue
    && Distinct(s.accepted)
    && (forall id :: id in s.operations <==> id in s.accepted)
    && |s.queue| <= s.capacity
    && (forall w :: 0 <= w < |s.workers| && s.workers[w].Exited? ==> s.closed && s.queue == [])
  }

  predicate RecordOk(s: Exec, r: Record) {
    && r.name in s.handlers
    && 0 <= r.progress <= 100
    && (r.doneClosed <==> r.status.Terminal())
    && (r.finished <==> r.status.Terminal())
    && (r.result.Some? <==> r.status.Succeeded?)
    && (r.error.Some? <==> r.status.Failed?)
    && (r.status.Running? ==> r.executing)
    && (r.executing ==> r.started)
    && (r.status.Pending? ==> !r.started)
  }

  predicate RecordsOk(s: Exec) {
    forall id :: id in s.operations ==> RecordOk(s, s.operations[id])
  }

  predicate Held(p: Phase) {
    p.Holding? || p.Executing?
  }

  /** Every hand holds an id already taken off the queue, and no two hands hold the same one. */
  predicate HandsOk(s: Exec) {
    && (forall w :: 0 <= w < |s.workers| && Held(s.workers[w]) ==> s.workers[w].id in s.popped)
    && (forall v, w ::
          0 <= v < |s.workers| && 0 <= w < |s.workers| && v != w && Held(s.workers[v]) && Held(s.workers[w]) ==>
          s.workers[v].id != s.workers[w].id)
  }

  predicate HoldingSome(s: Exec, id: Id) {
    exists w :: 0 <= w < |s.workers| && s.workers[w] == Holding(id)
  }

  predicate ExecutingSome(s: Exec, id: Id) {
    exists w :: 0 <= w < |s.workers| && s.workers[w] == Executing(id)
  }

  /** A pending operation is queued or in a hand; a record is marked executing while a worker runs its handler. */
  predicate PlacesOk(s: Exec) {
    && (forall id :: id in s.operations && s.operations[id].status.Pending? ==> id in s.queue || HoldingSome(s, id))
    && (forall id :: id in s.operations && s.operations[id].executing ==> ExecutingSome(s, id))
    && (forall w :: 0 <= w < |s.workers| && s.workers[w].Executing? ==>
          s.workers[w].id in s.operations && s.operations[s.workers[w].id].executing)
  }

  function WithStatus(ops: map<Id, Record>, status: Status): set<Id> {
    set id | id in ops && ops[id].status == status
  }

  function ExecutingIds(ops: map<Id, Record>): set<Id> {
    set id | id in ops && ops[id].executing
  }

  predicate MetricsOk(s: Exec) {
    Counted(s.metrics, s.operations, |s.begun|)
  }

  predicate Counted(m: Metrics, operations: map<Id, Record>, begun: nat) {
    && m.submitted == |operations|
    && m.completed == |WithStatus(operations, Succeeded)|
    && m.failed == |WithStatus(operations, Failed)|
    && m.cancelled == |WithStatus(operations, Cancelled)|
    && m.running == |ExecutingIds(operations)|
    && m.queueWaitCount == m.durationCount + m.running
    && m.queueWaitCount == begun
  }

  predicate BegunOk(s: Exec) {
    && Distinct(s.begun)
    && (forall id :: id in s.begun ==> id in s.operations && s.operations[id].started)
  }

  predicate KeysOk(s: Exec) {
    && "" !in s.idempotency
    && (forall k :: k in s.idempotency ==> s.idempotency[k] in s.operations)
    && (forall j, k :: j in s.idempotency && k in s.idempotency && s.idempotency[j] == s.idempotency[k] ==> j == k)
    && (forall i :: 0 <= i < |s.answers| ==>
          Join(s.answers[i].triple) in s.idempotency && s.idempotency[Join(s.answers[i].triple)] == s.answers[i].id)
  }

  ghost predicate Inv(s: Exec) {
    ModeOk(s) && QueueOk(s) && RecordsOk(s) && HandsOk(s) && PlacesOk(s) && MetricsOk(s) && BegunOk(s) && KeysOk(s)
  }

  // ----- counting -----

  lemma StatusUpdate(ops: map<Id, Record>, id: Id, r: Record, status: Status)
    ensures |WithStatus(ops[id := r], status)| ==
            |WithStatus(ops, status)|
            - (if id in ops && ops[id].status == status then 1 else 0)
            + (if r.status == status then 1 else 0)
  {
    var before, after := WithStatus(ops, status), WithStatus(ops[id := r], status);
    assert after - {id} == before - {id};
    assert |after - {id}| == |after| - if id in after then 1 else 0;
    assert |before - {id}| == |before| - if id in before then 1 else 0;
  }

  lemma ExecutingUpdate(ops: map<Id, Record>, id: Id, r: Record)
    ensures |ExecutingIds(ops[id := r])| ==
            |ExecutingIds(ops)| - (if id in ops && ops[id].executing then 1 else 0) + (if r.executing then 1 else 0)
  {
    var before, after := ExecutingIds(ops), ExecutingIds(ops[id := r]);
    assert after - {id} == before - {id};
    assert |after - {id}| == |after| - if id in after then 1 else 0;
    assert |before - {id}| == |before| - if id in before then 1 else 0;
  }

  lemma SizeUpdate(ops: map<Id, Record>, id: Id, r: Record)
    ensures |ops[id := r]| == |ops| + if id in ops then 0 else 1
  {
    assert ops[id := r].Keys == ops.Keys + {id};
    assert |ops.Keys| == |ops| && |ops[id := r].Keys| == |ops[id := r]|;
  }

  lemma CountsUpdate(ops: map<Id, Record>, id: Id, r: Record)
    ensures |ops[id := r]| == |ops| + if id in ops then 0 else 1
    ensures forall status :: |WithStatus(ops[id := r], status)| ==
              |WithStatus(ops, status)|
              - (if id in ops && ops[id].status == status then 1 else 0) + (if r.status == status then 1 else 0)
    ensures |ExecutingIds(ops[id := r])| ==
            |ExecutingIds(ops)| - (if id in ops && ops[id].executing then 1 else 0) + (if r.executing then 1 else 0)
  {
    SizeUpdate(ops, id, r);
    ExecutingUpdate(ops, id, r);
    forall status {
      StatusUpdate(ops, id, r, status);
    }
  }

  lemma CountsCancelAll(before: map<Id, Record>, after: map<Id, Record>)
    requires after.Keys == before.Keys
    requires forall id :: id in before ==>
        after[id] == Affect(before[id], if before[id].status.Terminal() then Keep else CancelIt)
    ensures |after| == |before|
    ensures |WithStatus(after, Succeeded)| == |WithStatus(before, Succeeded)|
    ensures |WithStatus(after, Failed)| == |WithStatus(before, Failed)|
    ensures |WithStatus(after, Cancelled)| == |WithStatus(before, Cancelled)| + |Unfinished(before)|
    ensures |ExecutingIds(after)| == |ExecutingIds(before)|
  {
    assert |after.Keys| == |after| && |before.Keys| == |before|;
    SetsCancelAll(before, after);
    assert WithStatus(before, Cancelled) !! Unfinished(before);
  }

  lemma SetsCancelAll(before: map<Id, Record>, after: map<Id, Record>)
    requires after.Keys == before.Keys
    requires forall id :: id in before ==>
        after[id] == Affect(before[id], if before[id].status.Terminal() then Keep else CancelIt)
    ensures WithStatus(after, Succeeded) == WithStatus(before, Succeeded)
    ensures WithStatus(after, Failed) == WithStatus(before, Failed)
    ensures WithStatus(after, Cancelled) == WithStatus(before, Cancelled) + Unfinished(before)
    ensures ExecutingIds(after) == ExecutingIds(before)
  {
  }

  // ----- each part is kept -----

  lemma InitInv(s: Exec)
    requires Init(s)
    ensures Inv(s)
  {
    assert WithStatus(s.operations, Succeeded) == {};
    assert WithStatus(s.operations, Failed) == {};
    assert WithStatus(s.operations, Cancelled) == {};
    assert ExecutingIds(s.operations) == {};
  }

  lemma RecordAfter(s: Exec, step: Step, id: Id)
    requires Enabled(s, step) && id in s.operations
    ensures id in Apply(s, step).operations
    ensures Apply(s, step).operations[id] == Affect(s.operations[id], EffectOn(s, step, id))
  {
  }

  lemma RecordNew(s: Exec, step: Step, id: Id)
    requires Enabled(s, step) && id in Apply(s, step).operations && id !in s.operations
    ensures Admits(s, step) && id == step.id && s.mode == Accepting && step.t.name in s.handlers
    ensures Apply(s, step).operations[id] == NewRecord(step.t.name)
  {
  }

  lemma RecordsKept(s: Exec, step: Step)
    requires RecordsOk(s) && Enabled(s, step)
    ensures RecordsOk(Apply(s, step))
  {
    var t := Apply(s, step);
    forall id | id in t.operations ensures RecordOk(t, t.operations[id]) {
      if id in s.operations {
        RecordAfter(s, step, id);
        assert RecordOk(s, s.operations[id]);
      } else {
        RecordNew(s, step, id);
      }
    }
  }

  /** No step makes an unfinished operation, except accepting a new one. */
  lemma UnfinishedShrinks(s: Exec, step: Step, id: Id)
    requires Enabled(s, step) && id in Unfinished(Apply(s, step).operations)
    ensures id in Unfinished(s.operations) || s.mode == Accepting
    ensures !step.CancelUnfinished?
  {
    if id in s.operations {
      RecordAfter(s, step, id);
    } else {
      RecordNew(s, step, id);
    }
  }

  lemma ModeKept(s: Exec, step: Step)
    requires ModeOk(s) && QueueOk(s) && Enabled(s, step)
    ensures ModeOk(Apply(s, step))
  {
    var t := Apply(s, step);
    if t.forced {
      forall id | id in Unfinished(t.operations) ensures false {
        UnfinishedShrinks(s, step, id);
      }
    }
  }

  lemma PopKeepsOrder(popped: seq<Id>, queue: seq<Id>)
    requires queue != []
    ensures popped + queue == (popped + [queue[0]]) + queue[1..]
  {
  }

  lemma PushKeepsOrder(popped: seq<Id>, queue: seq<Id>, id: Id)
    requires Distinct(popped + queue) && id !in popped + queue
    ensures popped + queue + [id] == popped + (queue + [id]) && Distinct(popped + queue + [id])
  {
  }

  lemma OrderKept(s: Exec, step: Step)
    requires QueueOk(s) && Enabled(s, step)
    ensures var t := Apply(s, step); t.accepted == t.popped + t.queue && Distinct(t.accepted)
  {
    if step.Pop? {
      PopKeepsOrder(s.popped, s.queue);
    } else if Admits(s, step) {
      assert step.id !in s.accepted;
      PushKeepsOrder(s.popped, s.queue, step.id);
    }
  }

  lemma AcceptedAreOperations(s: Exec, step: Step, id: Id)
    requires QueueOk(s) && Enabled(s, step)
    ensures var t := Apply(s, step); id in t.operations <==> id in t.accepted
  {
    if id in s.operations {
      RecordAfter(s, step, id);
    } else if id in Apply(s, step).operations {
      RecordNew(s, step, id);
    }
  }

  lemma QueueKept(s: Exec, step: Step)
    requires ModeOk(s) && QueueOk(s) && Enabled(s, step)
    ensures QueueOk(Apply(s, step))
  {
    OrderKept(s, step);
    forall id ensures id in Apply(s, step).operations <==> id in Apply(s, step).accepted {
      AcceptedAreOperations(s, step, id);
    }
    ExitedSeeEmptyQueue(s, step);
  }

  lemma ExitedSeeEmptyQueue(s: Exec, step: Step)
    requires ModeOk(s) && QueueOk(s) && Enabled(s, step)
    ensures var t := Apply(s, step);
            forall w :: 0 <= w < |t.workers| && t.workers[w].Exited? ==> t.closed && t.queue == []
  {
  }

  lemma PoppedNew(s: Exec)
    requires QueueOk(s) && s.queue != []
    ensures s.queue[0] !in s.popped
  {
    assert s.accepted[|s.popped|] == s.queue[0];
    assert forall i :: 0 <= i < |s.popped| ==> s.accepted[i] == s.popped[i];
  }

  lemma HandsKept(s: Exec, step: Step)
    requires QueueOk(s) && HandsOk(s) && Enabled(s, step)
    ensures HandsOk(Apply(s, step))
  {
    if step.Pop? {
      PoppedNew(s);
    }
    var t := Apply(s, step);
    forall w | 0 <= w < |t.workers| && Held(t.workers[w]) ensures t.workers[w].id in t.popped {
      HandOrigin(s, step, w);
    }
    forall v, w | 0 <= v < |t.workers| && 0 <= w < |t.workers| && v != w && Held(t.workers[v]) && Held(t.workers[w])
      ensures t.workers[v].id != t.workers[w].id
    {
      HandOrigin(s, step, v);
      HandOrigin(s, step, w);
    }
  }

  /** A hand holds what it held before, or the head of the queue it just took. */
  lemma HandOrigin(s: Exec, step: Step, w: nat)
    requires Enabled(s, step) && w < |WorkersAfter(s, step)| && Held(WorkersAfter(s, step)[w])
    ensures || (step.Pop? && w == step.w && WorkersAfter(s, step)[w].id == s.queue[0])
            || (w < |s.workers| && Held(s.workers[w]) && WorkersAfter(s, step)[w].id == s.workers[w].id)
  {
  }

  lemma HoldingKept(s: Exec, step: Step, id: Id)
    requires ModeOk(s) && Enabled(s, step) && HoldingSome(s, id)
    ensures HoldingSome(Apply(s, step), id) || (step.Begin? && s.workers[step.w] == Holding(id))
  {
    var w :| 0 <= w < |s.workers| && s.workers[w] == Holding(id);
    assert WorkersAfter(s, step)[w] == s.workers[w] || (step.Begin? && step.w == w);
  }

  lemma ExecutingKept(s: Exec, step: Step, id: Id)
    requires ModeOk(s) && Enabled(s, step) && ExecutingSome(s, id)
    ensures ExecutingSome(Apply(s, step), id) || (step.Finish? && s.workers[step.w] == Executing(id))
  {
    var w :| 0 <= w < |s.workers| && s.workers[w] == Executing(id);
    assert WorkersAfter(s, step)[w] == s.workers[w] || (step.Finish? && step.w == w);
  }

  lemma QueuedKept(s: Exec, step: Step, id: Id)
    requires Enabled(s, step) && id in s.queue
    ensures id in Apply(s, step).queue || HoldingSome(Apply(s, step), id)
  {
    if step.Pop? && id == s.queue[0] {
      assert Apply(s, step).workers[step.w] == Holding(id);
    }
  }

  lemma PendingPlaced(s: Exec, step: Step, id: Id)
    requires ModeOk(s) && PlacesOk(s) && Enabled(s, step)
    requires id in Apply(s, step).operations && Apply(s, step).operations[id].status.Pending?
    ensures id in Apply(s, step).queue || HoldingSome(Apply(s, step), id)
  {
    if id in s.operations {
      RecordAfter(s, step, id);
      if id in s.queue {
        QueuedKept(s, step, id);
      } else {
        HoldingKept(s, step, id);
      }
    } else {
      RecordNew(s, step, id);
    }
  }

  lemma ExecutingPlaced(s: Exec, step: Step, id: Id)
    requires ModeOk(s) && PlacesOk(s) && Enabled(s, step)
    requires id in Apply(s, step).operations && Apply(s, step).operations[id].executing
    ensures ExecutingSome(Apply(s, step), id)
  {
    if id in s.operations {
      RecordAfter(s, step, id);
      if s.operations[id].executing {
        ExecutingKept(s, step, id);
      } else {
        assert Starts(s, step) && Apply(s, step).workers[step.w] == Executing(id);
      }
    } else {
      RecordNew(s, step, id);
    }
  }

  lemma WorkerExecutes(s: Exec, step: Step, w: nat)
    requires ModeOk(s) && PlacesOk(s) && HandsOk(s) && Enabled(s, step)
    requires w < |Apply(s, step).workers| && Apply(s, step).workers[w].Executing?
    ensures var t := Apply(s, step);
            t.workers[w].id in t.operations && t.operations[t.workers[w].id].executing
  {
    var id := Apply(s, step).workers[w].id;
    if Starts(s, step) && step.w == w {
      RecordAfter(s, step, id);
    } else {
      assert s.workers[w] == Executing(id);
      RecordAfter(s, step, id);
      assert step.Finish? ==> step.w != w;
    }
  }

  lemma PlacesKept(s: Exec, step: Step)
    requires ModeOk(s) && PlacesOk(s) && HandsOk(s) && Enabled(s, step)
    ensures PlacesOk(Apply(s, step))
  {
    var t := Apply(s, step);
    forall id | id in t.operations && t.operations[id].status.Pending? ensures id in t.queue || HoldingSome(t, id) {
      PendingPlaced(s, step, id);
    }
    forall id | id in t.operations && t.operations[id].executing ensures ExecutingSome(t, id) {
      ExecutingPlaced(s, step, id);
    }
    forall w | 0 <= w < |t.workers| && t.workers[w].Executing?
      ensures t.workers[w].id in t.operations && t.operations[t.workers[w].id].executing
    {
      WorkerExecutes(s, step, w);
    }
  }

  /** The id whose record a step changes, when it is a single one. */
  function Target(s: Exec, step: Step): Option<Id>
    requires Enabled(s, step)
  {
    match step
    case Begin(w) => Some(s.workers[w].id)
    case Finish(w, _) => Some(s.workers[w].id)
    case Cancel(id) => Some(id)
    case Progress(id, _) => Some(id)
    case _ => None
  }

  lemma SingleChange(s: Exec, step: Step)
    requires Enabled(s, step) && !step.CancelUnfinished?
    ensures OperationsAfter(s, step) ==
            if Admits(s, step) then s.operations[step.id := NewRecord(step.t.name)]
            else if Target(s, step).Some? && Target(s, step).value in s.operations then
              var id := Target(s, step).value;
              s.operations[id := Affect(s.operations[id], EffectOn(s, step, id))]
            else s.operations
  {
  }

  lemma CountsAfter(s: Exec, step: Step)
    requires Enabled(s, step) && !step.CancelUnfinished? && !Admits(s, step)
    requires Target(s, step).Some? && Target(s, step).value in s.operations
    ensures var id := Target(s, step).value;
            var before, after := s.operations[id], Affect(s.operations[id], EffectOn(s, step, id));
            && |OperationsAfter(s, step)| == |s.operations|
            && (forall status :: |WithStatus(OperationsAfter(s, step), status)| == |WithStatus(s.operations, status)|
                  - (if before.status == status then 1 else 0) + (if after.status == status then 1 else 0))
            && |ExecutingIds(OperationsAfter(s, step))| == |ExecutingIds(s.operations)|
                  - (if before.executing then 1 else 0) + (if after.executing then 1 else 0)
  {
    var id := Target(s, step).value;
    SingleChange(s, step);
    CountsUpdate(s.operations, id, Affect(s.operations[id], EffectOn(s, step, id)));
  }

  lemma MetricsBegin(s: Exec, w: nat)
    requires MetricsOk(s) && RecordsOk(s) && PlacesOk(s) && Enabled(s, Begin(w))
    requires Target(s, Begin(w)).value in s.operations
    ensures MetricsOk(Apply(s, Begin(w)))
  {
    CountsAfter(s, Begin(w));
    assert RecordOk(s, s.operations[Target(s, Begin(w)).value]);
  }

  lemma MetricsFinish(s: Exec, w: nat, o: Outcome)
    requires MetricsOk(s) && RecordsOk(s) && PlacesOk(s) && Enabled(s, Finish(w, o))
    requires Target(s, Finish(w, o)).value in s.operations
    ensures MetricsOk(Apply(s, Finish(w, o)))
  {
    var r := s.operations[Target(s, Finish(w, o)).value];
    CountsAfter(s, Finish(w, o));
    assert RecordOk(s, r) && r.executing;
    FinishCounted(s.metrics, s.operations, OperationsAfter(s, Finish(w, o)), |s.begun|, r, o);
  }

  lemma FinishCounted(m: Metrics, before: map<Id, Record>, after: map<Id, Record>, begun: nat, r: Record, o: Outcome)
    requires Counted(m, before, begun) && r.executing && r.started
    requires |after| == |before|
    requires forall status :: |WithStatus(after, status)| == |WithStatus(before, status)|
                  - (if r.status == status then 1 else 0) + (if Affect(r, FinishIt(o)).status == status then 1 else 0)
    requires |ExecutingIds(after)| == |ExecutingIds(before)| - 1
    ensures Counted(FinishMetrics(m, r, o), after, begun)
  {
    FinishMoves(m, r, o);
  }

  /** What finishing does to the counters is what it does to the record. */
  lemma FinishMoves(m: Metrics, r: Record, o: Outcome)
    requires r.executing && r.started
    ensures
      var n, q := FinishMetrics(m, r, o), Affect(r, FinishIt(o));
      && n.submitted == m.submitted && n.cancelled == m.cancelled && n.queueWaitCount == m.queueWaitCount
      && n.running == m.running - 1 && n.durationCount == m.durationCount + 1
      && n.completed == m.completed + (if !r.status.Terminal() && q.status.Succeeded? then 1 else 0)
      && n.failed == m.failed + (if !r.status.Terminal() && q.status.Failed? then 1 else 0)
  {
  }

  lemma MetricsCancel(s: Exec, id: Id)
    requires MetricsOk(s) && RecordsOk(s) && PlacesOk(s) && Enabled(s, Cancel(id))
    requires Target(s, Cancel(id)).value in s.operations
    ensures MetricsOk(Apply(s, Cancel(id)))
  {
    CountsAfter(s, Cancel(id));
    assert RecordOk(s, s.operations[Target(s, Cancel(id)).value]);
  }

  lemma MetricsProgress(s: Exec, id: Id, progress: int)
    requires MetricsOk(s) && RecordsOk(s) && PlacesOk(s) && Enabled(s, Progress(id, progress))
    requires Target(s, Progress(id, progress)).value in s.operations
    ensures MetricsOk(Apply(s, Progress(id, progress)))
  {
    CountsAfter(s, Progress(id, progress));
    assert RecordOk(s, s.operations[Target(s, Progress(id, progress)).value]);
  }

  lemma MetricsAdmit(s: Exec, step: Step)
    requires MetricsOk(s) && Enabled(s, step) && Admits(s, step)
    ensures MetricsOk(Apply(s, step))
  {
    SingleChange(s, step);
    CountsUpdate(s.operations, step.id, NewRecord(step.t.name));
  }

  lemma MetricsCancelAll(s: Exec)
    requires MetricsOk(s) && Enabled(s, CancelUnfinished)
    ensures MetricsOk(Apply(s, CancelUnfinished))
  {
    CountsCancelAll(s.operations, OperationsAfter(s, CancelUnfinished));
  }

  lemma MetricsKept(s: Exec, step: Step)
    requires MetricsOk(s) && RecordsOk(s) && PlacesOk(s) && Enabled(s, step)
    ensures MetricsOk(Apply(s, step))
  {
    if step.CancelUnfinished? {
      MetricsCancelAll(s);
    } else if Admits(s, step) {
      MetricsAdmit(s, step);
    } else if Target(s, step).Some? && Target(s, step).value in s.operations {
      match step
      case Begin(w) => MetricsBegin(s, w);
      case Finish(w, o) => MetricsFinish(s, w, o);
      case Cancel(id) => MetricsCancel(s, id);
      case Progress(id, progress) => MetricsProgress(s, id, progress);
    } else {
      SingleChange(s, step);
    }
  }

  lemma BegunKept(s: Exec, step: Step)
    requires BegunOk(s) && RecordsOk(s) && Enabled(s, step)
    ensures BegunOk(Apply(s, step))
  {
    var t := Apply(s, step);
    forall id | id in t.begun ensures id in t.operations && t.operations[id].started {
      assert id in s.begun || (Starts(s, step) && id == s.workers[step.w].id);
      RecordAfter(s, step, id);
    }
    if Starts(s, step) {
      assert RecordOk(s, s.operations[s.workers[step.w].id]);
    }
  }

  lemma JoinNotEmpty(t: Triple)
    ensures |Join(t)| >= 2
  {
  }

  lemma KeysKept(s: Exec, step: Step)
    requires KeysOk(s) && Enabled(s, step)
    ensures KeysOk(Apply(s, step))
  {
    var t := Apply(s, step);
    if step.Submit? {
      JoinNotEmpty(step.t);
    }
    forall k | k in t.idempotency ensures t.idempotency[k] in t.operations {
      if k in s.idempotency {
        RecordAfter(s, step, s.idempotency[k]);
      }
    }
  }

  lemma StepInv(s: Exec, step: Step)
    requires Inv(s) && Enabled(s, step)
    ensures Inv(Apply(s, step))
  {
    ModeKept(s, step);
    QueueKept(s, step);
    RecordsKept(s, step);
    HandsKept(s, step);
    PlacesKept(s, step);
    MetricsKept(s, step);
    BegunKept(s, step);
    KeysKept(s, step);
  }
}
