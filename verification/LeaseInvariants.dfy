/** What every step of the lease protocol keeps, and what follows for every run. */
module LeaseInvariants {
  import opened Prelude
  import opened Operations
  import opened LeaseRow
  import opened LeaseProtocol

  // ----- the invariant -----

  predicate TableOk(s: Sys) {
    forall id :: id in s.table ==> EntryOk(s.table[id])
  }

  /** The delivery is one of the row's grants, its owner handles it and got no later lease on that row. */
  predicate DeliveryOk(s: Sys, w: Owner, d: Delivery) {
    && d.id in s.table
    && d.ticket < |s.table[d.id].grants|
    && s.table[d.id].grants[d.ticket].owner == w
    && s.table[d.id].grants[d.ticket].attempt == d.attempt
    && s.table[d.id].row.maxAttempts == d.maxAttempts
    && s.table[d.id].row.initialBackoffMs == d.initialBackoffMs
    && s.table[d.id].row.maxBackoffMs == d.maxBackoffMs
    && Handles(s, w.instance, s.table[d.id].row.name)
    && (forall j :: d.ticket < j < |s.table[d.id].grants| ==> s.table[d.id].grants[j].owner != w)
  }

  predicate WorkerOk(s: Sys, w: Owner) {
    var phase := PhaseOf(s, w);
    && (InFlight(phase) ==> DeliveryOk(s, w, phase.d))
    && (phase.Finishing? && phase.statement.ToRetry? ==> phase.d.attempt < phase.d.maxAttempts)
    && (phase.Finishing? && phase.statement.ToRelease? ==> w.instance in s.stopped)
  }

  predicate WorkersOk(s: Sys) {
    forall w :: w in s.workers ==> WorkerOk(s, w)
  }

  /** A worker of a stopped instance that is at the top of its loop leases no more. */
  predicate Retired(s: Sys, w: Owner) {
    w.instance in s.stopped && (PhaseOf(s, w).Idle? || PhaseOf(s, w).Exited?)
  }

  /** After a grant that was not handed back, attempt numbers only grow. */
  predicate Ascending(grants: seq<Grant>) {
    forall i, j :: 0 <= i < j < |grants| && !grants[i].returned ==> grants[i].attempt < grants[j].attempt
  }

  /** A grant handed back belongs to a wholesale release, or its owner is retired and got no later grant here. */
  predicate ReturnedOk(s: Sys, id: Id)
    requires id in s.table
  {
    var grants := s.table[id].grants;
    forall i :: 0 <= i < |grants| && grants[i].returned ==>
      grants[i].owner.instance in s.released ||
      (Retired(s, grants[i].owner) && forall j :: i < j < |grants| ==> grants[j].owner != grants[i].owner)
  }

  predicate HistoryOk(s: Sys) {
    forall id :: id in s.table ==> Ascending(s.table[id].grants) && ReturnedOk(s, id)
  }

  ghost predicate KeysOk(s: Sys) {
    && (forall a, b, t :: a in s.table && b in s.table && Matches(s.table[a].row, t) && Matches(s.table[b].row, t) ==>
        a == b)
    && (forall id :: id in s.table ==> s.table[id].row.key != Some(""))
    && (forall call :: call in s.pending ==> Conflict(s.table, s.pending[call]))
    && (forall i :: 0 <= i < |s.answers| ==>
          s.answers[i].id in s.table && Matches(s.table[s.answers[i].id].row, s.answers[i].triple))
  }

  ghost predicate Inv(s: Sys) {
    TableOk(s) && WorkersOk(s) && HistoryOk(s) && KeysOk(s)
  }

  // ----- one step -----

  lemma InitInv(s: Sys)
    requires Init(s)
    ensures Inv(s)
  {
  }

  /** Every statement a worker issues is one the row-level invariant allows. */
  lemma StepPermitted(s: Sys, step: Step, id: Id)
    requires TableOk(s) && WorkersOk(s) && Enabled(s, step) && id in s.table
    ensures Permitted(s.table[id].row, EffectOn(s, step, id), s.now)
  {
    if step.Finish? {
      assert WorkerOk(s, step.w);
    }
  }

  /** The row of `id` after a step; new rows start out well-formed. */
  lemma EntryAfter(s: Sys, step: Step, id: Id)
    requires Enabled(s, step) && id in s.table
    ensures id in Apply(s, step).table
    ensures Apply(s, step).table[id] == Affect(s.table[id], EffectOn(s, step, id), s.now)
  {
  }

  lemma NewEntry(s: Sys, step: Step, id: Id)
    requires Enabled(s, step) && id in Apply(s, step).table && id !in s.table
    ensures step.Insert? && id == step.id && !Conflict(s.table, step.request.triple)
    ensures Apply(s, step).table[id] == Entry(NewRow(step.request, step.createdAt), [])
  {
  }

  lemma TableKept(s: Sys, step: Step)
    requires TableOk(s) && WorkersOk(s) && Enabled(s, step)
    ensures TableOk(Apply(s, step))
  {
    var t := Apply(s, step);
    forall id | id in t.table ensures EntryOk(t.table[id]) {
      if id in s.table {
        StepPermitted(s, step, id);
        EntryAfter(s, step, id);
        AffectKeepsEntryOk(s.table[id], EffectOn(s, step, id), s.now);
      } else {
        NewEntry(s, step, id);
      }
    }
  }

  lemma HandlersSame(s: Sys, step: Step)
    requires Enabled(s, step)
    ensures Apply(s, step).handlers == s.handlers
  {
  }

  lemma AffectKeepsRequest(row: Row, effect: Effect, now: Time)
    ensures SameRequest(row, AffectRow(row, effect, now))
  {
  }

  /** Grants of a row are only appended to, and only by the worker that executes the lease statement. */
  lemma GrantsAfter(s: Sys, step: Step, id: Id)
    requires Enabled(s, step) && id in s.table
    ensures id in Apply(s, step).table
    ensures var before := s.table[id].grants; var after := Apply(s, step).table[id].grants;
            && |before| <= |after|
            && (forall i :: 0 <= i < |before| ==>
                after[i].owner == before[i].owner && after[i].attempt == before[i].attempt)
            && (forall i :: |before| <= i < |after| ==> step.Grab? && after[i].owner == step.w)
    ensures SameRequest(s.table[id].row, Apply(s, step).table[id].row) && Apply(s, step).handlers == s.handlers
  {
    EntryAfter(s, step, id);
    HandlersSame(s, step);
    AffectKeepsRequest(s.table[id].row, EffectOn(s, step, id), s.now);
  }

  lemma OtherPhase(s: Sys, step: Step, w: Owner)
    requires Enabled(s, step) && Actor(step) != Some(w)
    ensures PhaseOf(Apply(s, step), w) == PhaseOf(s, w)
  {
  }

  lemma DeliveryKept(s: Sys, step: Step, w: Owner, d: Delivery)
    requires Enabled(s, step) && DeliveryOk(s, w, d) && (step.Grab? ==> step.w != w)
    ensures DeliveryOk(Apply(s, step), w, d)
  {
    GrantsAfter(s, step, d.id);
  }

  /** A fresh lease: the delivery handed to the worker is the newest grant of the row. */
  lemma DeliveryGranted(s: Sys, step: Step)
    requires Enabled(s, step) && step.Grab? && step.fate.Applied?
    ensures DeliveryOk(Apply(s, step), step.w, NewDelivery(s, step.id))
  {
    EntryAfter(s, step, step.id);
  }

  lemma WorkersKept(s: Sys, step: Step)
    requires WorkersOk(s) && Enabled(s, step)
    ensures WorkersOk(Apply(s, step))
  {
    var t := Apply(s, step);
    forall w | w in t.workers ensures WorkerOk(t, w) {
      assert WorkerOk(s, w);
      if Actor(step) != Some(w) {
        OtherPhase(s, step, w);
        if InFlight(PhaseOf(s, w)) {
          DeliveryKept(s, step, w, PhaseOf(s, w).d);
        }
      } else if step.Grab? {
        if step.fate.Applied? {
          DeliveryGranted(s, step);
        }
      } else if InFlight(PhaseOf(s, w)) {
        DeliveryKept(s, step, w, PhaseOf(s, w).d);
      }
    }
  }

  // ----- the history of grants -----

  /** Every grant not handed back carries an attempt number within the counter. */
  lemma UnreturnedWithinAttempt(e: Entry, i: nat)
    requires EntryOk(e) && i < |e.grants| && !e.grants[i].returned
    ensures e.grants[i].attempt <= e.row.attempt
  {
    var k := KeptAt(e.grants, i);
  }

  lemma AscendingKept(e: Entry, effect: Effect, now: Time)
    requires EntryOk(e) && Ascending(e.grants)
    ensures Ascending(Affect(e, effect, now).grants)
  {
    if effect.Lease? {
      forall i | 0 <= i < |e.grants| && !e.grants[i].returned
        ensures e.grants[i].attempt < e.row.attempt + 1
      {
        UnreturnedWithinAttempt(e, i);
      }
    }
  }

  lemma RetiredKept(s: Sys, step: Step, w: Owner)
    requires Enabled(s, step) && Retired(s, w)
    ensures Retired(Apply(s, step), w)
  {
  }

  /** A statement hands a row back only for a worker that retires with it, or wholesale. */
  lemma HandBackOwner(s: Sys, step: Step, id: Id)
    requires Inv(s) && Enabled(s, step) && id in s.table && EffectOn(s, step, id).HandBack?
    ensures Leads(s.table[id])
    ensures var w := Last(s.table[id].grants).owner;
            w.instance in Apply(s, step).released || Retired(Apply(s, step), w)
  {
    assert EntryOk(s.table[id]);
    if step.Finish? {
      assert WorkerOk(s, step.w);
    }
  }

  /** The condition on returned grants carries over when retired owners stay retired. */
  lemma ReturnedCarries(s: Sys, t: Sys, id: Id, leaser: Option<Owner>)
    requires id in s.table && id in t.table && ReturnedOk(s, id) && s.released <= t.released
    requires var before, after := s.table[id].grants, t.table[id].grants;
             && |before| <= |after|
             && (forall i :: 0 <= i < |before| ==> after[i].owner == before[i].owner)
             && (forall i :: |before| <= i < |after| ==> leaser == Some(after[i].owner) && !after[i].returned)
             && (forall i :: 0 <= i < |before| && after[i].returned && !before[i].returned ==>
                   i == |after| - 1 && (after[i].owner.instance in t.released || Retired(t, after[i].owner)))
    requires forall w :: Retired(s, w) ==> Retired(t, w) && leaser != Some(w)
    ensures ReturnedOk(t, id)
  {
  }

  lemma ReleasedGrows(s: Sys, step: Step)
    requires Enabled(s, step)
    ensures s.released <= Apply(s, step).released
  {
  }

  /** Only a hand-back sets the flag of a grant, and only that of the newest one. */
  lemma FlagsAfter(e: Entry, effect: Effect, now: Time)
    ensures var before, after := e.grants, Affect(e, effect, now).grants;
            && |before| <= |after|
            && (forall i :: |before| <= i < |after| ==> !after[i].returned)
            && (forall i :: 0 <= i < |before| && after[i].returned && !before[i].returned ==>
                  i == |after| - 1 && effect.HandBack?)
  {
  }

  lemma GrantFlags(s: Sys, step: Step, id: Id)
    requires Inv(s) && Enabled(s, step) && id in s.table
    ensures id in Apply(s, step).table && s.released <= Apply(s, step).released
    ensures var t := Apply(s, step); var before, after := s.table[id].grants, t.table[id].grants;
            && |before| <= |after|
            && (forall i :: |before| <= i < |after| ==> !after[i].returned)
            && (forall i :: 0 <= i < |before| && after[i].returned && !before[i].returned ==>
                  i == |after| - 1 && (after[i].owner.instance in t.released || Retired(t, after[i].owner)))
  {
    EntryAfter(s, step, id);
    FlagsAfter(s.table[id], EffectOn(s, step, id), s.now);
    ReleasedGrows(s, step);
    if EffectOn(s, step, id).HandBack? {
      HandBackOwner(s, step, id);
      assert Last(s.table[id].grants).owner == Last(Apply(s, step).table[id].grants).owner;
    }
  }

  lemma ReturnedKept(s: Sys, step: Step, id: Id)
    requires Inv(s) && Enabled(s, step) && id in s.table
    ensures id in Apply(s, step).table && ReturnedOk(Apply(s, step), id)
  {
    GrantsAfter(s, step, id);
    GrantFlags(s, step, id);
    forall w | Retired(s, w) ensures Retired(Apply(s, step), w) && (step.Grab? ==> step.w != w) {
      RetiredKept(s, step, w);
    }
    ReturnedCarries(s, Apply(s, step), id, if step.Grab? then Some(step.w) else None);
  }

  lemma HistoryKept(s: Sys, step: Step)
    requires Inv(s) && Enabled(s, step)
    ensures HistoryOk(Apply(s, step))
  {
    var t := Apply(s, step);
    forall id | id in t.table ensures Ascending(t.table[id].grants) && ReturnedOk(t, id) {
      if id in s.table {
        EntryAfter(s, step, id);
        AscendingKept(s.table[id], EffectOn(s, step, id), s.now);
        ReturnedKept(s, step, id);
      } else {
        NewEntry(s, step, id);
      }
    }
  }

  // ----- idempotency keys -----

  lemma KeyFrozen(s: Sys, step: Step, id: Id, t: Triple)
    requires Enabled(s, step) && id in s.table
    ensures id in Apply(s, step).table
    ensures Matches(Apply(s, step).table[id].row, t) <==> Matches(s.table[id].row, t)
    ensures Apply(s, step).table[id].row.key == s.table[id].row.key
  {
    EntryAfter(s, step, id);
  }

  lemma ConflictKept(s: Sys, step: Step, t: Triple)
    requires Enabled(s, step) && Conflict(s.table, t)
    ensures Conflict(Apply(s, step).table, t)
  {
    var id :| id in s.table && Matches(s.table[id].row, t);
    KeyFrozen(s, step, id, t);
  }

  /** The row that Matches(row, t) after an insert, when it is the new one, has exactly the triple of the request. */
  lemma NewRowMatches(r: Request, createdAt: Time, t: Triple)
    requires ValidRequest(r) && Matches(NewRow(r, createdAt), t)
    ensures t == r.triple && t.key != ""
  {
  }

  lemma UniqueKept(s: Sys, step: Step, a: Id, b: Id, t: Triple)
    requires KeysOk(s) && Enabled(s, step)
    requires var u := Apply(s, step);
             a in u.table && b in u.table && Matches(u.table[a].row, t) && Matches(u.table[b].row, t)
    ensures a == b
  {
    if a in s.table {
      KeyFrozen(s, step, a, t);
    } else {
      NewEntry(s, step, a);
      NewRowMatches(step.request, step.createdAt, t);
    }
    if b in s.table {
      KeyFrozen(s, step, b, t);
    } else {
      NewEntry(s, step, b);
      NewRowMatches(step.request, step.createdAt, t);
    }
  }

  lemma KeysKept(s: Sys, step: Step)
    requires KeysOk(s) && Enabled(s, step)
    ensures KeysOk(Apply(s, step))
  {
    var u := Apply(s, step);
    forall a, b, t | a in u.table && b in u.table && Matches(u.table[a].row, t) && Matches(u.table[b].row, t)
      ensures a == b
    {
      UniqueKept(s, step, a, b, t);
    }
    forall id | id in u.table ensures u.table[id].row.key != Some("") {
      if id in s.table {
        KeyFrozen(s, step, id, Triple("", "", ""));
      } else {
        NewEntry(s, step, id);
      }
    }
    forall call | call in u.pending ensures Conflict(u.table, u.pending[call]) {
      var t := u.pending[call];
      if call in s.pending && s.pending[call] == t {
        ConflictKept(s, step, t);
      } else {
        assert step.Insert? && Conflict(s.table, t);
        ConflictKept(s, step, t);
      }
    }
    forall i | 0 <= i < |u.answers|
      ensures u.answers[i].id in u.table && Matches(u.table[u.answers[i].id].row, u.answers[i].triple)
    {
      var answer := u.answers[i];
      if answer.id in s.table {
        KeyFrozen(s, step, answer.id, answer.triple);
      }
    }
  }

  lemma StepInv(s: Sys, step: Step)
    requires Inv(s) && Enabled(s, step)
    ensures Inv(Apply(s, step))
  {
    TableKept(s, step);
    WorkersKept(s, step);
    HistoryKept(s, step);
    KeysKept(s, step);
  }
}
