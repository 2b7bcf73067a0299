/** What a row holds after each statement, said column by column: how a delivery ends, and what the others write. */
module LeaseOutcome {
  import opened Prelude
  import opened Operations
  import opened LeaseRow
  import opened LeaseProtocol
  import opened LeaseInvariants
  import opened LeaseTheorems

  // ----- the four ends of a delivery -----

  predicate IsSucceeded(was: Row, now: Time, result: string, end: Row) {
    end == was.(status := Succeeded, progress := 100, result := Some(result), error := None, finishedAt := Some(now),
               leaseOwner := None, leaseExpiresAt := None)
  }

  predicate IsFailed(was: Row, now: Time, code: string, message: string, end: Row) {
    end == was.(status := Failed, error := Some(OperationError(code, message)), finishedAt := Some(now),
               leaseOwner := None, leaseExpiresAt := None)
  }

  predicate IsRetried(was: Row, due: Time, end: Row) {
    end == was.(status := Retrying, nextAttemptAt := Some(due), progress := 0, error := None, leaseOwner := None,
               leaseExpiresAt := None)
  }

  predicate IsHandedBack(was: Row, now: Time, end: Row) {
    end == was.(status := Retrying, nextAttemptAt := Some(now),
                attempt := if was.attempt > 0 then was.attempt - 1 else 0, leaseOwner := None, leaseExpiresAt := None)
  }

  function PowerOfTwo(n: int): int {
    if n <= 0 then 1 else 2 * PowerOfTwo(n - 1)
  }

  /**
   The end of a delivery that was not stored as a success.  A cancelled delivery of an executor that shuts down is
   handed back without costing an attempt; an operation error is final; otherwise an attempt that is left is used after
   min(initial * 2^(attempt - 1), maximum) milliseconds, and when none is left the row fails.
   */
  predicate ConcludedAs(was: Row, now: Time, d: Delivery, cause: Cause, accepting: bool, end: Row) {
    if cause.canceled && !accepting then IsHandedBack(was, now, end)
    else if cause.permanent.Some? then
      var e := cause.permanent.value;
      IsFailed(was, now, if e.code == "" then "operation_failed" else e.code,
               if e.message == "" then "The operation could not be completed" else e.message, end)
    else if d.attempt < d.maxAttempts then
      var backoff := d.initialBackoffMs * PowerOfTwo(d.attempt - 1);
      IsRetried(was, now + 1000 * (if backoff <= d.maxBackoffMs then backoff else d.maxBackoffMs), end)
    else if cause.deadline then IsFailed(was, now, "operation_timeout", "The operation timed out", end)
    else IsFailed(was, now, "operation_failed", "The operation could not be completed", end)
  }

  lemma {:induction false} DoubledIsPower(initial: int, times: nat)
    ensures Doubled(initial, times) == initial * PowerOfTwo(times)
  {
    if times > 0 {
      DoubledIsPower(initial, times - 1);
    }
  }

  lemma VerdictConcludes(was: Row, now: Time, d: Delivery, cause: Cause, accepting: bool)
    ensures ConcludedAs(was, now, d, cause, accepting,
                        AffectRow(was, StatementEffect(d, Verdict(d, cause, accepting)), now))
  {
    DoubledIsPower(d.initialBackoffMs, if d.attempt > 1 then d.attempt - 1 else 0);
  }

  // ----- in the protocol -----

  ghost predicate WithoutStepsOf(steps: seq<Step>, w: Owner) {
    forall i :: 0 <= i < |steps| ==> Actor(steps[i]) != Some(w)
  }

  lemma {:induction false} WorkerWaits(s: Sys, steps: seq<Step>, w: Owner)
    requires Legal(s, steps) && WithoutStepsOf(steps, w)
    ensures PhaseOf(After(s, steps), w) == PhaseOf(s, w)
    decreases |steps|
  {
    if steps != [] {
      OtherPhase(s, steps[0], w);
      WorkerWaits(Apply(s, steps[0]), steps[1..], w);
    }
  }

  /** What a worker knows of its newest, running lease is what the row says. */
  lemma KnowsItsRow(u: Sys, w: Owner)
    requires Inv(u) && InFlight(PhaseOf(u, w)) && Newest(u, PhaseOf(u, w).d.id, PhaseOf(u, w).d.ticket)
    requires u.table[PhaseOf(u, w).d.id].row.status.Running?
    ensures var d := PhaseOf(u, w).d; var row := u.table[d.id].row;
            && Owned(row, w, d.attempt) && d.attempt == row.attempt && d.maxAttempts == row.maxAttempts
            && d.initialBackoffMs == row.initialBackoffMs && d.maxBackoffMs == row.maxBackoffMs
  {
    assert WorkerOk(u, w) && EntryOk(u.table[PhaseOf(u, w).d.id]);
  }

  /**
   The end of a delivery.  Whatever others do between the worker's last look at accepting() and its final statement,
   when the row still runs under that delivery it ends as ConcludedAs says, by the row's own columns, and no other row
   changes.
   */
  lemma DeliveryConcludes(s: Sys, w: Owner, steps: seq<Step>, fate: Fate)
    requires Inv(s) && PhaseOf(s, w).Recovering? && !fate.Lost?
    requires Legal(Apply(s, Decide(w)), steps) && WithoutStepsOf(steps, w)
    requires var u, d := After(Apply(s, Decide(w)), steps), PhaseOf(s, w).d;
             Newest(u, d.id, d.ticket) && u.table[d.id].row.status.Running?
    ensures var u, d := After(Apply(s, Decide(w)), steps), PhaseOf(s, w).d;
            && Enabled(u, Finish(w, fate))
            && var t, row := Apply(u, Finish(w, fate)), u.table[d.id].row;
               && d.attempt == row.attempt && d.maxAttempts == row.maxAttempts
               && d.initialBackoffMs == row.initialBackoffMs && d.maxBackoffMs == row.maxBackoffMs
               && t.table.Keys == u.table.Keys
               && ConcludedAs(row, u.now, d, PhaseOf(s, w).cause, w.instance !in s.stopped, t.table[d.id].row)
               && forall id :: id in u.table && id != d.id ==> t.table[id] == u.table[id]
  {
    DecidedPhase(s, w, steps);
    var u, d := After(Apply(s, Decide(w)), steps), PhaseOf(s, w).d;
    KnowsItsRow(u, w);
    FinishWrites(u, w, fate);
    VerdictConcludes(u.table[d.id].row, u.now, d, PhaseOf(s, w).cause, w.instance !in s.stopped);
  }

  lemma DecidedPhase(s: Sys, w: Owner, steps: seq<Step>)
    requires Inv(s) && PhaseOf(s, w).Recovering?
    requires Legal(Apply(s, Decide(w)), steps) && WithoutStepsOf(steps, w)
    ensures var u, d := After(Apply(s, Decide(w)), steps), PhaseOf(s, w).d;
            && Inv(u)
            && PhaseOf(u, w) == Finishing(d, Verdict(d, PhaseOf(s, w).cause, w.instance !in s.stopped))
  {
    StepInv(s, Decide(w));
    RunInv(Apply(s, Decide(w)), steps);
    WorkerWaits(Apply(s, Decide(w)), steps, w);
  }

  lemma FinishWrites(u: Sys, w: Owner, fate: Fate)
    requires Enabled(u, Finish(w, fate)) && !fate.Lost? && PhaseOf(u, w).d.id in u.table
    requires Owned(u.table[PhaseOf(u, w).d.id].row, w, PhaseOf(u, w).d.attempt)
    ensures var t, phase := Apply(u, Finish(w, fate)), PhaseOf(u, w);
            && t.table.Keys == u.table.Keys
            && t.table[phase.d.id].row ==
               AffectRow(u.table[phase.d.id].row, StatementEffect(phase.d, phase.statement), u.now)
            && forall id :: id in u.table && id != phase.d.id ==> t.table[id] == u.table[id]
  {
    EntryAfter(u, Finish(w, fate), PhaseOf(u, w).d.id);
  }

  /** A value that was returned in time and encoded is stored, as long as the row still runs under its delivery. */
  lemma SuccessIsStored(u: Sys, w: Owner, fate: Fate)
    requires Inv(u) && PhaseOf(u, w).Storing? && !fate.Lost?
    requires var d := PhaseOf(u, w).d; Newest(u, d.id, d.ticket) && u.table[d.id].row.status.Running?
    ensures var t, phase := Apply(u, StoreSuccess(w, fate)), PhaseOf(u, w);
            && t.table.Keys == u.table.Keys
            && IsSucceeded(u.table[phase.d.id].row, u.now, phase.result, t.table[phase.d.id].row)
            && forall id :: id in u.table && id != phase.d.id ==> t.table[id] == u.table[id]
  {
    KnowsItsRow(u, w);
    EntryAfter(u, StoreSuccess(w, fate), PhaseOf(u, w).d.id);
  }

  // ----- the other statements -----

  /** The lease statement: the first lease starts the operation, every one costs an attempt. */
  predicate IsLeased(was: Row, now: Time, owner: Owner, leaseMs: int, end: Row) {
    end == was.(status := Running, attempt := was.attempt + 1, progress := 0, nextAttemptAt := None,
               startedAt := Some(if was.startedAt.Some? then was.startedAt.value else now),
               leaseOwner := Some(owner), leaseExpiresAt := Some(now + 1000 * leaseMs))
  }

  predicate IsCancelled(was: Row, now: Time, end: Row) {
    end == was.(status := Cancelled, finishedAt := Some(now), nextAttemptAt := None, leaseOwner := None,
               leaseExpiresAt := None)
  }

  lemma NewestIsOwned(s: Sys, id: Id, ticket: nat)
    requires Inv(s) && Newest(s, id, ticket) && s.table[id].row.status.Running?
    ensures Owned(s.table[id].row, s.table[id].grants[ticket].owner, s.table[id].grants[ticket].attempt)
  {
    assert EntryOk(s.table[id]);
  }

  /** The effect a step has on a row, and what that writes. */
  lemma Writes(s: Sys, step: Step, id: Id, effect: Effect)
    requires Enabled(s, step) && id in s.table && EffectOn(s, step, id) == effect
    ensures id in Apply(s, step).table && Apply(s, step).table[id].row == AffectRow(s.table[id].row, effect, s.now)
  {
    EntryAfter(s, step, id);
  }

  /** Overdue last deliveries fail, and one row is leased. */
  predicate LeftByCall(was: Row, now: Time, id: Id, step: Step, end: Row)
    requires step.Grab? || step.Sweep?
  {
    if step.Grab? && step.id == id then IsLeased(was, now, step.w, step.leaseMs, end)
    else if step.Sweep? && was.status.Running? && was.attempt == was.maxAttempts && was.leaseExpiresAt.Some?
      && was.leaseExpiresAt.value <= now
    then IsFailed(was, now, "operation_delivery_exhausted", "The operation could not be completed", end)
    else end == was
  }

  lemma CallEffect(s: Sys, step: Step, id: Id)
    requires Enabled(s, step) && id in s.table && EntryOk(s.table[id])
    requires (step.Grab? || step.Sweep?) && !step.fate.Lost?
    ensures LeftByCall(s.table[id].row, s.now, id, step, AffectRow(s.table[id].row, EffectOn(s, step, id), s.now))
  {
  }

  /** What the two statements of a lease call write. */
  lemma LeaseCallWrites(s: Sys, step: Step, id: Id)
    requires Inv(s) && Enabled(s, step) && id in s.table && (step.Grab? || step.Sweep?) && !step.fate.Lost?
    ensures id in Apply(s, step).table
    ensures LeftByCall(s.table[id].row, s.now, id, step, Apply(s, step).table[id].row)
  {
    assert EntryOk(s.table[id]);
    CallEffect(s, step, id);
    Writes(s, step, id, EffectOn(s, step, id));
  }

  predicate LeftByEnding(was: Row, now: Time, id: Id, step: Step, end: Row)
    requires step.CancelOperation? || step.ReleaseInstance?
  {
    if step.CancelOperation? && step.id == id && !was.status.Terminal() then IsCancelled(was, now, end)
    else if step.ReleaseInstance? && was.status.Running? && was.leaseOwner.Some?
      && was.leaseOwner.value.instance == step.instance
    then IsHandedBack(was, now, end)
    else end == was
  }

  lemma EndingEffect(s: Sys, step: Step, id: Id)
    requires Enabled(s, step) && id in s.table && (step.CancelOperation? || step.ReleaseInstance?)
    ensures LeftByEnding(s.table[id].row, s.now, id, step, AffectRow(s.table[id].row, EffectOn(s, step, id), s.now))
  {
  }

  /** Cancelling ends exactly an unfinished row, the wholesale hand-back exactly the running rows of the instance. */
  lemma CancelAndReleaseWrite(s: Sys, step: Step, id: Id)
    requires Enabled(s, step) && id in s.table && (step.CancelOperation? || step.ReleaseInstance?)
    ensures id in Apply(s, step).table
    ensures LeftByEnding(s.table[id].row, s.now, id, step, Apply(s, step).table[id].row)
  {
    EndingEffect(s, step, id);
    Writes(s, step, id, EffectOn(s, step, id));
  }

  predicate LeftByReport(was: Row, now: Time, id: Id, step: Step, end: Row)
    requires step.ReportProgress? || step.Renew?
  {
    if step.id != id || !was.status.Running? then end == was
    else if step.ReportProgress? then end == was.(progress := step.progress)
    else end == was.(leaseExpiresAt := Some(now + 1000 * step.leaseMs))
  }

  lemma RunningEffect(s: Sys, step: Step, id: Id)
    requires Enabled(s, step) && id in s.table && (step.ReportProgress? || step.Renew?)
    requires var g := s.table[step.id].grants[step.ticket];
             s.table[step.id].row.status.Running? ==> Owned(s.table[step.id].row, g.owner, g.attempt)
    ensures EffectOn(s, step, id) ==
            if step.id != id || !s.table[id].row.status.Running? then Keep
            else if step.ReportProgress? then Effect.Progress(step.progress) else Effect.Extend(step.leaseMs)
    ensures LeftByReport(s.table[id].row, s.now, id, step, AffectRow(s.table[id].row, EffectOn(s, step, id), s.now))
  {
  }

  /** Progress and renewals of the newest lease write their column, while the row runs, and nothing else. */
  lemma RunningWrites(s: Sys, step: Step, id: Id)
    requires Inv(s) && Enabled(s, step) && id in s.table && (step.ReportProgress? || step.Renew?)
    requires Newest(s, step.id, step.ticket)
    ensures id in Apply(s, step).table
    ensures LeftByReport(s.table[id].row, s.now, id, step, Apply(s, step).table[id].row)
  {
    if s.table[step.id].row.status.Running? {
      NewestIsOwned(s, step.id, step.ticket);
    }
    RunningEffect(s, step, id);
    Writes(s, step, id, EffectOn(s, step, id));
  }

  /** A submission that meets no conflict becomes a pending row, due when created, that asks for what was submitted. */
  lemma SubmissionIsStored(s: Sys, step: Step)
    requires Enabled(s, step) && step.Insert?
    requires step.request.triple.key == "" ||
        forall id :: id in s.table ==> !Matches(s.table[id].row, step.request.triple)
    ensures var t, r := Apply(s, step), step.request;
            && t.table.Keys == s.table.Keys + {step.id}
            && (forall id :: id in s.table ==> t.table[id] == s.table[id])
            && t.table[step.id].grants == []
            && t.table[step.id].row ==
               Row(r.triple.name, Pending, 0, None, None, step.createdAt, None, None, Some(step.createdAt), 0,
                   r.maxAttempts, r.initialBackoffMs, r.maxBackoffMs,
                   if r.triple.key == "" then None else Some(r.triple.key),
                   if r.triple.scope == "" then None else Some(r.triple.scope), None, None)
  {
  }
}
