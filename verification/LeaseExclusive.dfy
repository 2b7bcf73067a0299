/**
 What a lease is for.  Until it runs out nobody else gets the row, once it ran out somebody may, a waiting row is leased
 from its due time on and not before, and a row that is due is not passed over.
 */
module LeaseExclusive {
  import opened Prelude
  import opened Operations
  import opened LeaseRow
  import opened LeaseProtocol
  import opened LeaseInvariants
  import opened LeaseOutcome
  import opened LeaseTheorems

  /** The step leases the row, even if its worker never learns. */
  predicate Grants(step: Step, id: Id) {
    step.Grab? && step.id == id && !step.fate.Lost?
  }

  /** A worker with nothing but the lease statement to issue can get this row when all others are locked. */
  ghost predicate CanBeLeased(s: Sys, id: Id, w: Owner) {
    exists leaseMs, fate :: Enabled(s, Grab(w, id, leaseMs, s.table.Keys - {id}, fate))
  }

  /** The worker is at its lease statement and its instance handles the row. */
  predicate Asks(s: Sys, id: Id, w: Owner) {
    id in s.table && PhaseOf(s, w).Swept? && Handles(s, w.instance, s.table[id].row.name)
  }

  lemma TimeStep(s: Sys, step: Step)
    requires Enabled(s, step)
    ensures s.now <= Apply(s, step).now
  {
  }

  lemma {:induction false} TimeGrows(s: Sys, steps: seq<Step>)
    requires Legal(s, steps)
    ensures s.now <= After(s, steps).now
    decreases |steps|
  {
    if steps != [] {
      TimeStep(s, steps[0]);
      TimeGrows(Apply(s, steps[0]), steps[1..]);
    }
  }

  lemma {:induction false} RunKeepsRequest(s: Sys, steps: seq<Step>, id: Id)
    requires Legal(s, steps) && id in s.table
    ensures id in After(s, steps).table && SameRequest(s.table[id].row, After(s, steps).table[id].row)
    ensures After(s, steps).handlers == s.handlers
    decreases |steps|
  {
    if steps != [] {
      GrantsAfter(s, steps[0], id);
      RunKeepsRequest(Apply(s, steps[0]), steps[1..], id);
    }
  }

  // ----- a lease in force -----

  /** The row runs under this owner and attempt number, and its lease lasts at least until `until`. */
  predicate Held(s: Sys, id: Id, w: Owner, attempt: int, until: Time) {
    && id in s.table
    && s.table[id].row.status.Running?
    && s.table[id].row.leaseOwner == Some(w)
    && s.table[id].row.attempt == attempt
    && s.table[id].row.leaseExpiresAt.Some? && s.table[id].row.leaseExpiresAt.value >= until
  }

  /** The delivery ends: its worker issues its last statement, the row is cancelled, or its instance hands all back. */
  predicate Ends(s: Sys, step: Step, id: Id, w: Owner) {
    || step == CancelOperation(id)
    || step == ReleaseInstance(w.instance)
    || ((step.StoreSuccess? || step.Finish?) && step.w == w && InFlight(PhaseOf(s, w)) && PhaseOf(s, w).d.id == id)
  }

  /** A renewal to an earlier time; with one lease duration for all statements there is none. */
  predicate Shortens(s: Sys, step: Step, id: Id, until: Time) {
    step.Renew? && step.id == id && s.now + 1000 * step.leaseMs < until
  }

  ghost predicate Undisturbed(s: Sys, steps: seq<Step>, id: Id, w: Owner, until: Time)
    decreases |steps|
  {
    steps == [] ||
    (&& Enabled(s, steps[0]) && !Ends(s, steps[0], id, w) && !Shortens(s, steps[0], id, until)
     && Undisturbed(Apply(s, steps[0]), steps[1..], id, w, until))
  }

  lemma HeldStep(s: Sys, step: Step, id: Id, w: Owner, attempt: int, until: Time)
    requires Enabled(s, step) && Held(s, id, w, attempt, until) && s.now < until
    requires !Ends(s, step, id, w) && !Shortens(s, step, id, until)
    ensures Held(Apply(s, step), id, w, attempt, until) && !(step.Grab? && step.id == id)
    ensures |Apply(s, step).table[id].grants| == |s.table[id].grants|
  {
    EntryAfter(s, step, id);
  }

  /** The row runs under this owner and attempt number, after this many leases, and the steps led to no other. */
  predicate StaysWith(u: Sys, steps: seq<Step>, id: Id, w: Owner, attempt: int, leases: nat) {
    && id in u.table && u.table[id].row.status.Running? && u.table[id].row.leaseOwner == Some(w)
    && u.table[id].row.attempt == attempt && |u.table[id].grants| == leases
    && forall i :: 0 <= i < |steps| ==> !Grants(steps[i], id)
  }

  lemma {:induction false} HeldRun(s: Sys, steps: seq<Step>, id: Id, w: Owner, attempt: int, until: Time)
    requires Undisturbed(s, steps, id, w, until) && Held(s, id, w, attempt, until)
    ensures Legal(s, steps)
    ensures After(s, steps).now < until ==>
              StaysWith(After(s, steps), steps, id, w, attempt, |s.table[id].grants|)
    decreases |steps|
  {
    if steps != [] {
      UndisturbedLegal(s, steps, id, w, until);
      TimeGrows(s, steps);
      if After(s, steps).now < until {
        HeldStep(s, steps[0], id, w, attempt, until);
        HeldRun(Apply(s, steps[0]), steps[1..], id, w, attempt, until);
      }
    }
  }

  lemma {:induction false} UndisturbedLegal(s: Sys, steps: seq<Step>, id: Id, w: Owner, until: Time)
    requires Undisturbed(s, steps, id, w, until)
    ensures Legal(s, steps)
    decreases |steps|
  {
    if steps != [] {
      UndisturbedLegal(Apply(s, steps[0]), steps[1..], id, w, until);
    }
  }

  /**
   Exclusivity.  After a lease granted at time t for leaseMs milliseconds, the row stays with that owner and attempt
   number, and nobody is granted it, before t + 1000 * leaseMs microseconds, unless the delivery ends.
   */
  lemma LeaseIsExclusive(s: Sys, step: Step, steps: seq<Step>, id: Id)
    requires Enabled(s, step) && Grants(step, id)
    requires Undisturbed(Apply(s, step), steps, id, step.w, s.now + 1000 * step.leaseMs)
    ensures Legal(Apply(s, step), steps) && id in s.table
    ensures var u := After(Apply(s, step), steps);
            u.now < s.now + 1000 * step.leaseMs ==>
              StaysWith(u, steps, id, step.w, s.table[id].row.attempt + 1, |s.table[id].grants| + 1)
  {
    EntryAfter(s, step, id);
    HeldRun(Apply(s, step), steps, id, step.w, s.table[id].row.attempt + 1, s.now + 1000 * step.leaseMs);
  }

  lemma RenewedIsHeld(s: Sys, step: Step)
    requires Inv(s) && Enabled(s, step) && step.Renew?
    requires s.table[step.id].row.status.Running? && Newest(s, step.id, step.ticket)
    ensures var g := s.table[step.id].grants[step.ticket];
            && Held(Apply(s, step), step.id, g.owner, g.attempt, s.now + 1000 * step.leaseMs)
            && |Apply(s, step).table[step.id].grants| == |s.table[step.id].grants|
  {
    NewestIsOwned(s, step.id, step.ticket);
    RunningEffect(s, step, step.id);
    RenewedRow(s.table[step.id], step.leaseMs, s.now);
    EntryAfter(s, step, step.id);
  }

  lemma RenewedRow(e: Entry, leaseMs: int, now: Time)
    ensures Affect(e, Effect.Extend(leaseMs), now) ==
            Entry(e.row.(leaseExpiresAt := Some(now + 1000 * leaseMs)), e.grants)
  {
  }

  /** The step renews the newest lease of a running row, which went to this owner under this attempt number. */
  predicate Renews(s: Sys, step: Step, id: Id, w: Owner, attempt: int) {
    && step.Renew? && step.id == id && Newest(s, id, step.ticket) && step.ticket < |s.table[id].grants|
    && s.table[id].row.status.Running?
    && s.table[id].grants[step.ticket].owner == w && s.table[id].grants[step.ticket].attempt == attempt
  }

  /** The same after a renewal of the newest lease. */
  lemma RenewalIsExclusive(s: Sys, step: Step, steps: seq<Step>, id: Id, w: Owner, attempt: int)
    requires Inv(s) && Enabled(s, step) && Renews(s, step, id, w, attempt)
    requires Undisturbed(Apply(s, step), steps, id, w, s.now + 1000 * step.leaseMs)
    ensures Legal(Apply(s, step), steps) && id in s.table
    ensures var u := After(Apply(s, step), steps);
            u.now < s.now + 1000 * step.leaseMs ==> StaysWith(u, steps, id, w, attempt, |s.table[id].grants|)
  {
    RenewedIsHeld(s, step);
    HeldRun(Apply(s, step), steps, id, w, attempt, s.now + 1000 * step.leaseMs);
  }

  // ----- a lease that is not renewed -----

  /** The lease as it was granted; or, when its time is over and it was the last one, the row has failed. */
  predicate RunsOut(s: Sys, id: Id, w: Owner, attempt: int, until: Time) {
    && id in s.table
    && var row := s.table[id].row;
       || (&& row.status.Running? && row.leaseOwner == Some(w) && row.attempt == attempt
           && row.leaseExpiresAt == Some(until))
       || (&& row.status.Failed? && attempt >= row.maxAttempts && until <= s.now
           && row.error == Some(OperationError("operation_delivery_exhausted", "The operation could not be completed")))
  }

  /** Nobody ends or renews the lease, or gets the row anew. */
  ghost predicate LeftAlone(s: Sys, steps: seq<Step>, id: Id, w: Owner)
    decreases |steps|
  {
    steps == [] ||
    (&& Enabled(s, steps[0]) && !Ends(s, steps[0], id, w) && !Grants(steps[0], id)
     && !(steps[0].Renew? && steps[0].id == id)
     && LeftAlone(Apply(s, steps[0]), steps[1..], id, w))
  }

  lemma RunsOutStep(s: Sys, step: Step, id: Id, w: Owner, attempt: int, until: Time)
    requires Enabled(s, step) && RunsOut(s, id, w, attempt, until)
    requires !Ends(s, step, id, w) && !Grants(step, id) && !(step.Renew? && step.id == id)
    ensures RunsOut(Apply(s, step), id, w, attempt, until)
  {
    EntryAfter(s, step, id);
  }

  lemma {:induction false} RunsOutRun(s: Sys, steps: seq<Step>, id: Id, w: Owner, attempt: int, until: Time)
    requires LeftAlone(s, steps, id, w) && RunsOut(s, id, w, attempt, until)
    ensures Legal(s, steps) && RunsOut(After(s, steps), id, w, attempt, until)
    decreases |steps|
  {
    if steps != [] {
      RunsOutStep(s, steps[0], id, w, attempt, until);
      RunsOutRun(Apply(s, steps[0]), steps[1..], id, w, attempt, until);
    }
  }

  /** With all other rows locked, a row can be leased exactly when the lease query selects it. */
  lemma CanBeLeasedIff(s: Sys, id: Id, w: Owner)
    requires id in s.table
    ensures CanBeLeased(s, id, w) <==> Asks(s, id, w) && Leasable(s.table[id].row, s.now)
  {
    if Asks(s, id, w) && Leasable(s.table[id].row, s.now) {
      assert Enabled(s, Grab(w, id, 0, s.table.Keys - {id}, Applied));
    }
  }

  /** The next expiry statement fails a row whose last lease ran out, and only then. */
  lemma FailsWhenSwept(u: Sys, id: Id, w: Owner, owner: Owner, attempt: int, until: Time)
    requires RunsOut(u, id, owner, attempt, until) && Enabled(u, Sweep(w, Applied))
    ensures id in Apply(u, Sweep(w, Applied)).table
    ensures Apply(u, Sweep(w, Applied)).table[id].row.status.Failed? <==>
            attempt >= u.table[id].row.maxAttempts && until <= u.now
  {
    EntryAfter(u, Sweep(w, Applied), id);
  }

  /**
   A lease that nobody ends or renews lasts exactly until t + 1000 * leaseMs: with an attempt left, the row can be
   leased from then on; without one, the next expiry statement fails it from then on.
   */
  lemma LeaseRunsOut(s: Sys, step: Step, steps: seq<Step>, id: Id, w: Owner)
    requires Enabled(s, step) && Grants(step, id) && LeftAlone(Apply(s, step), steps, id, step.w)
    ensures Legal(Apply(s, step), steps) && id in s.table && id in After(Apply(s, step), steps).table
    ensures var u, row := After(Apply(s, step), steps), s.table[id].row;
            CanBeLeased(u, id, w) <==>
              Asks(u, id, w) && row.attempt + 1 < row.maxAttempts && s.now + 1000 * step.leaseMs <= u.now
    ensures var u, row := After(Apply(s, step), steps), s.table[id].row;
            Enabled(u, Sweep(w, Applied)) ==>
              && id in Apply(u, Sweep(w, Applied)).table
              && (Apply(u, Sweep(w, Applied)).table[id].row.status.Failed? <==>
                  row.attempt + 1 >= row.maxAttempts && s.now + 1000 * step.leaseMs <= u.now)
  {
    var t, until := Apply(s, step), s.now + 1000 * step.leaseMs;
    EntryAfter(s, step, id);
    RunsOutRun(t, steps, id, step.w, s.table[id].row.attempt + 1, until);
    RunKeepsRequest(t, steps, id);
    var u := After(t, steps);
    CanBeLeasedIff(u, id, w);
    if Enabled(u, Sweep(w, Applied)) {
      FailsWhenSwept(u, id, w, step.w, s.table[id].row.attempt + 1, until);
    }
  }

  // ----- a row that waits -----

  predicate WaitsFor(s: Sys, id: Id, due: Time) {
    id in s.table && s.table[id].row.status.Waiting() && s.table[id].row.nextAttemptAt == Some(due)
  }

  predicate WaitsOrCancelled(s: Sys, id: Id, due: Time) {
    WaitsFor(s, id, due) || (id in s.table && s.table[id].row.status.Cancelled?)
  }

  lemma WaitStep(s: Sys, step: Step, id: Id, due: Time)
    requires Enabled(s, step) && WaitsOrCancelled(s, id, due)
    requires !Grants(step, id)
    ensures WaitsOrCancelled(Apply(s, step), id, due)
    ensures step != CancelOperation(id) && WaitsFor(s, id, due) ==> WaitsFor(Apply(s, step), id, due)
  {
    EntryAfter(s, step, id);
  }

  /** Whatever happens, a row that waits for its due time is not leased before. */
  lemma {:induction false} NotBeforeDue(s: Sys, steps: seq<Step>, id: Id, due: Time)
    requires Legal(s, steps) && WaitsOrCancelled(s, id, due) && After(s, steps).now < due
    ensures forall i :: 0 <= i < |steps| ==> !Grants(steps[i], id)
    ensures WaitsOrCancelled(After(s, steps), id, due)
    decreases |steps|
  {
    if steps != [] {
      TimeGrows(s, steps);
      assert !Grants(steps[0], id);
      WaitStep(s, steps[0], id, due);
      NotBeforeDue(Apply(s, steps[0]), steps[1..], id, due);
    }
  }

  /** And as long as nobody leases or cancels it, it can be leased exactly from its due time on. */
  lemma {:induction false} LeasedFromDue(s: Sys, steps: seq<Step>, id: Id, due: Time, w: Owner)
    requires Legal(s, steps) && WaitsFor(s, id, due)
    requires forall i :: 0 <= i < |steps| ==> !Grants(steps[i], id) && steps[i] != CancelOperation(id)
    ensures var u := After(s, steps);
            WaitsFor(u, id, due) && (CanBeLeased(u, id, w) <==> Asks(u, id, w) && due <= u.now)
    decreases |steps|
  {
    if steps == [] {
      CanBeLeasedIff(s, id, w);
    } else {
      WaitStep(s, steps[0], id, due);
      LeasedFromDue(Apply(s, steps[0]), steps[1..], id, due, w);
    }
  }

  // ----- who comes first -----

  /** A row that the lease statement of `w` may take, due since `due` at least. */
  predicate DueSince(s: Sys, id: Id, w: Owner, locked: set<Id>, due: Time) {
    && Asks(s, id, w) && id !in locked
    && var row := s.table[id].row;
       || (row.status.Waiting() && row.nextAttemptAt.Some? && row.nextAttemptAt.value <= due)
       || (row.status.Running? && row.nextAttemptAt.None? && row.leaseExpiresAt.Some? && row.leaseExpiresAt.value <= due
           && row.attempt < row.maxAttempts)
  }

  /**
   The lease statement takes a row that is due no later than any other it may take, and among rows due at the same time
   one that was created first.
   */
  lemma EarliestFirst(s: Sys, step: Step, other: Id, due: Time)
    requires Inv(s) && Enabled(s, step) && step.Grab? && due <= s.now && DueSince(s, other, step.w, step.locked, due)
    ensures DueSince(s, step.id, step.w, step.locked, due)
    ensures DueSince(s, step.id, step.w, step.locked, due - 1)
            || s.table[step.id].row.createdAt <= s.table[other].row.createdAt
            || DueSince(s, other, step.w, step.locked, due - 1)
  {
    assert EntryOk(s.table[step.id]) && EntryOk(s.table[other]);
    assert Candidate(s, step.w, other);
    assert NotAfter(s.table[step.id].row, s.table[other].row);
  }

  /** Leases last, and renewals do not go into the past. */
  predicate Forward(steps: seq<Step>) {
    forall i :: 0 <= i < |steps| && (steps[i].Grab? || steps[i].Renew?) ==> steps[i].leaseMs > 0
  }

  /** The row is finished or will not be due again before `t`. */
  predicate DueLater(s: Sys, id: Id, t: Time) {
    id in s.table && t <= s.now && RowDueLater(s.table[id].row, t)
  }

  /** The statement gives no row a due time in the past. */
  predicate Onwards(effect: Effect) {
    match effect
    case Lease(_, leaseMs) => leaseMs > 0
    case Extend(leaseMs) => leaseMs > 0
    case Retry(backoffMs) => backoffMs >= 0
    case _ => true
  }

  predicate RowDueLater(row: Row, t: Time) {
    && (row.status.Waiting() ==> row.nextAttemptAt.Some? && row.nextAttemptAt.value >= t)
    && (row.status.Running? ==> row.nextAttemptAt.None? && row.leaseExpiresAt.Some? && row.leaseExpiresAt.value >= t)
  }

  lemma OnwardsRow(row: Row, effect: Effect, now: Time, t: Time)
    requires RowDueLater(row, t) && t <= now && Onwards(effect) && Permitted(row, effect, now)
    ensures RowDueLater(AffectRow(row, effect, now), t)
  {
  }

  lemma RetryComesFrom(s: Sys, step: Step, id: Id)
    requires Enabled(s, step) && id in s.table && EffectOn(s, step, id).Retry?
    ensures step.Finish? && PhaseOf(s, step.w).d.id == id
    ensures var d := PhaseOf(s, step.w).d;
            EffectOn(s, step, id) == Effect.Retry(Backoff(d.attempt, d.initialBackoffMs, d.maxBackoffMs))
  {
    match step {
      case Finish(_, _) =>
      case _ => assert false;
    }
  }

  lemma StepOnwards(s: Sys, step: Step, id: Id)
    requires Inv(s) && Enabled(s, step) && id in s.table && ((step.Grab? || step.Renew?) ==> step.leaseMs > 0)
    ensures Onwards(EffectOn(s, step, id))
  {
    if EffectOn(s, step, id).Retry? {
      RetryComesFrom(s, step, id);
      assert step.w in s.workers;
      assert WorkerOk(s, step.w);
      assert EntryOk(s.table[id]);
      BackoffNonNegative(PhaseOf(s, step.w).d.attempt, s.table[id].row.initialBackoffMs, s.table[id].row.maxBackoffMs);
    }
  }

  lemma DueLaterStep(s: Sys, step: Step, id: Id, t: Time)
    requires Inv(s) && Enabled(s, step) && DueLater(s, id, t) && ((step.Grab? || step.Renew?) ==> step.leaseMs > 0)
    ensures DueLater(Apply(s, step), id, t)
  {
    EntryAfter(s, step, id);
    StepPermitted(s, step, id);
    StepOnwards(s, step, id);
    OnwardsRow(s.table[id].row, EffectOn(s, step, id), s.now, t);
    TimeStep(s, step);
  }

  lemma {:induction false} BackoffNonNegative(attempt: int, initial: int, maximum: int)
    requires 0 <= initial <= maximum
    ensures 0 <= Backoff(attempt, initial, maximum) <= maximum
  {
    DoubledNonNegative(initial, if attempt > 1 then attempt - 1 else 0);
  }

  lemma {:induction false} DoubledNonNegative(initial: int, times: nat)
    requires 0 <= initial
    ensures 0 <= Doubled(initial, times)
  {
    if times > 0 {
      DoubledNonNegative(initial, times - 1);
    }
  }

  lemma {:induction false} DueLaterRun(s: Sys, steps: seq<Step>, id: Id, t: Time)
    requires Inv(s) && Legal(s, steps) && Forward(steps) && DueLater(s, id, t)
    ensures DueLater(After(s, steps), id, t)
    decreases |steps|
  {
    if steps != [] {
      DueLaterStep(s, steps[0], id, t);
      StepInv(s, steps[0]);
      DueLaterRun(Apply(s, steps[0]), steps[1..], id, t);
    }
  }

  lemma GrantedIsDueLater(s: Sys, step: Step, id: Id)
    requires Inv(s) && Enabled(s, step) && Grants(step, id) && step.leaseMs > 0
    ensures DueLater(Apply(s, step), id, s.now)
  {
    assert EntryOk(s.table[id]);
    EntryAfter(s, step, id);
  }

  /** A row that is due later is not taken while an earlier one is there. */
  lemma EarlierIsTaken(u: Sys, step: Step, other: Id, t: Time, due: Time)
    requires Enabled(u, step) && step.Grab? && DueLater(u, step.id, t) && due < t
    ensures !DueSince(u, other, step.w, step.locked, due)
  {
    if DueSince(u, other, step.w, step.locked, due) {
      OtherIsCandidate(u, step, other, due);
    }
  }

  lemma OtherIsCandidate(u: Sys, step: Step, other: Id, due: Time)
    requires Enabled(u, step) && step.Grab? && due <= u.now && DueSince(u, other, step.w, step.locked, due)
    ensures step.id in u.table && NotAfter(u.table[step.id].row, u.table[other].row)
    ensures DueAt(u.table[other].row) <= due && Leasable(u.table[step.id].row, u.now)
  {
    assert Candidate(u, step.w, other);
  }

  /**
   No overtaking twice.  When a row was leased at time t, nobody leases it again while another row that is due since
   before t is there for the asking.
   */
  lemma NotOvertakenTwice(s: Sys, first: Step, steps: seq<Step>, second: Step, id: Id, other: Id, due: Time)
    requires Inv(s) && Enabled(s, first) && Grants(first, id) && first.leaseMs > 0 && due < s.now
    requires Legal(Apply(s, first), steps) && Forward(steps) && Enabled(After(Apply(s, first), steps), second)
    requires second.Grab? && DueSince(After(Apply(s, first), steps), other, second.w, second.locked, due)
    ensures second.id != id
  {
    StepInv(s, first);
    GrantedIsDueLater(s, first, id);
    DueLaterRun(Apply(s, first), steps, id, s.now);
    if second.id == id {
      EarlierIsTaken(After(Apply(s, first), steps), second, other, s.now, due);
    }
  }
}
