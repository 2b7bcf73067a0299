/** Properties of whole runs of the lease protocol. */
module LeaseTheorems {
  import opened LeaseRow
  import opened LeaseProtocol
  import opened LeaseInvariants

  /** Every state of every run satisfies the invariant. */
  lemma {:induction false} RunInv(s: Sys, steps: seq<Step>)
    requires Inv(s) && Legal(s, steps)
    ensures Inv(After(s, steps))
    decreases |steps|
  {
    if steps != [] {
      StepInv(s, steps[0]);
      RunInv(Apply(s, steps[0]), steps[1..]);
    }
  }

  ghost predicate Reached(init: Sys, steps: seq<Step>, s: Sys) {
    Init(init) && Legal(init, steps) && After(init, steps) == s
  }

  lemma ReachedInv(init: Sys, steps: seq<Step>, s: Sys)
    requires Reached(init, steps, s)
    ensures Inv(s)
  {
    InitInv(init);
    RunInv(init, steps);
  }

  // ----- fencing -----

  predicate Newest(s: Sys, id: Id, ticket: nat) {
    id in s.table && ticket == |s.table[id].grants| - 1
  }

  /**
   Fencing.  For a delivery a worker is currently running, the WHERE clause of progress, extend,
   succeed, retry, fail and release matches exactly when the row is running and that delivery is
   the row's most recent lease.
   */
  lemma Fencing(init: Sys, steps: seq<Step>, s: Sys, w: Owner)
    requires Reached(init, steps, s) && InFlight(PhaseOf(s, w))
    ensures var d := PhaseOf(s, w).d;
            && d.id in s.table
            && (Owned(s.table[d.id].row, w, d.attempt) <==>
                s.table[d.id].row.status.Running? && Newest(s, d.id, d.ticket))
  {
    ReachedInv(init, steps, s);
    assert WorkerOk(s, w);
    assert EntryOk(s.table[PhaseOf(s, w).d.id]);
  }

  /** The statements that act for the delivery `d` of worker `w`. */
  predicate ActsFor(step: Step, w: Owner, d: Delivery) {
    || (step.StoreSuccess? && step.w == w)
    || (step.Finish? && step.w == w)
    || (step.ReportProgress? && step.id == d.id && step.ticket == d.ticket)
    || (step.Renew? && step.id == d.id && step.ticket == d.ticket)
  }

  /** A worker whose row was leased again changes nothing. */
  lemma SupersededChangesNothing(init: Sys, steps: seq<Step>, s: Sys, w: Owner, step: Step)
    requires Reached(init, steps, s) && InFlight(PhaseOf(s, w))
    requires ActsFor(step, w, PhaseOf(s, w).d) && Enabled(s, step)
    requires var d := PhaseOf(s, w).d; d.id in s.table && !Newest(s, d.id, d.ticket)
    ensures Apply(s, step).table == s.table
  {
    Fencing(init, steps, s, w);
    ReachedInv(init, steps, s);
    forall id | id in s.table ensures Affect(s.table[id], EffectOn(s, step, id), s.now) == s.table[id] {
      UnownedKeeps(s, w, step, id);
    }
    KeptTable(s, step);
  }

  lemma KeptTable(s: Sys, step: Step)
    requires Enabled(s, step) && !step.Insert?
    requires forall id :: id in s.table ==> Affect(s.table[id], EffectOn(s, step, id), s.now) == s.table[id]
    ensures Apply(s, step).table == s.table
  {
  }

  lemma UnownedKeeps(s: Sys, w: Owner, step: Step, id: Id)
    requires InFlight(PhaseOf(s, w)) && ActsFor(step, w, PhaseOf(s, w).d) && Enabled(s, step) && WorkerOk(s, w)
    requires var d := PhaseOf(s, w).d; d.id in s.table && !Owned(s.table[d.id].row, w, d.attempt)
    requires id in s.table
    ensures EffectOn(s, step, id) == Keep
  {
  }

  /** A worker is only handed operations it has a handler for, so the no-handler branch of run never leases forever. */
  lemma HandlerAlwaysFound(init: Sys, steps: seq<Step>, s: Sys, w: Owner)
    requires Reached(init, steps, s) && InFlight(PhaseOf(s, w))
    ensures PhaseOf(s, w).d.id in s.table && Handles(s, w.instance, s.table[PhaseOf(s, w).d.id].row.name)
  {
    ReachedInv(init, steps, s);
    assert WorkerOk(s, w);
  }

  // ----- budget -----

  /** In every reachable state every row keeps its schema checks, its shape, its budget and its ledger. */
  lemma BudgetConserved(init: Sys, steps: seq<Step>, s: Sys, id: Id)
    requires Reached(init, steps, s) && id in s.table
    ensures var e := s.table[id];
            && SchemaChecks(e.row) && Shape(e.row)
            && |e.grants| - Returned(e.grants) == e.row.attempt <= e.row.maxAttempts
            && (e.row.status.Running? ==> 1 <= e.row.attempt)
            && (e.row.status.Waiting() ==> e.row.attempt < e.row.maxAttempts)
            && (forall i, j :: 0 <= i < j < |e.grants| && !e.grants[i].returned && !e.grants[j].returned
                               ==> e.grants[i].attempt < e.grants[j].attempt)
  {
    ReachedInv(init, steps, s);
    DeliveryBudget(s.table[id]);
  }

  // ----- terminal rows -----

  /** A terminal row is the same in every later state. */
  lemma {:induction false} TerminalForever(s: Sys, steps: seq<Step>, id: Id)
    requires Inv(s) && Legal(s, steps) && id in s.table && s.table[id].row.status.Terminal()
    ensures id in After(s, steps).table && After(s, steps).table[id] == s.table[id]
    decreases |steps|
  {
    if steps != [] {
      StepInv(s, steps[0]);
      EntryAfter(s, steps[0], id);
      StepPermitted(s, steps[0], id);
      TerminalFrozen(s.table[id], EffectOn(s, steps[0], id), s.now);
      TerminalForever(Apply(s, steps[0]), steps[1..], id);
    }
  }

  // ----- idempotency -----

  /** Two answers carry the same id if and only if scope, name and key agree, whatever was interleaved. */
  lemma OneOperationPerTriple(init: Sys, steps: seq<Step>, s: Sys, i: nat, j: nat)
    requires Reached(init, steps, s) && i < |s.answers| && j < |s.answers|
    ensures s.answers[i].id == s.answers[j].id <==> s.answers[i].triple == s.answers[j].triple
  {
    ReachedInv(init, steps, s);
    var t, u := s.answers[i].triple, s.answers[j].triple;
    assert Matches(s.table[s.answers[i].id].row, t) && Matches(s.table[s.answers[j].id].row, u);
  }

  /** The SELECT after a conflicting INSERT finds exactly one row. */
  lemma FollowUpSelectFinds(init: Sys, steps: seq<Step>, s: Sys, call: nat) returns (id: Id)
    requires Reached(init, steps, s) && call in s.pending
    ensures Enabled(s, Select(call, id))
    ensures forall other :: Enabled(s, Select(call, other)) ==> other == id
  {
    ReachedInv(init, steps, s);
    id :| id in s.table && Matches(s.table[id].row, s.pending[call]);
  }
}
