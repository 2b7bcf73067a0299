/**
 Calls left over from deliveries that already ended: a renewal or a Progress call of an old lease.  `attempt` is both
 delivery budget and fencing token, and a lease that is handed back lowers it, so such a call can match a newer lease.
 This module says exactly when.
 */
module LeaseStale {
  import opened Prelude
  import opened Operations
  import opened LeaseRow
  import opened LeaseProtocol
  import opened LeaseInvariants
  import opened LeaseTheorems

  // ----- when an old call matches -----

  /** The WHERE clause of a call made for the grant at position `i`. */
  predicate CallMatches(s: Sys, id: Id, i: nat)
    requires id in s.table && i < |s.table[id].grants|
  {
    var g := s.table[id].grants[i];
    Owned(s.table[id].row, g.owner, g.attempt)
  }

  /**
   A call matches a running row exactly when it belongs to the newest lease, or to a lease handed back wholesale whose
   worker got the newest lease under the same attempt number.
   */
  lemma StaleMatchesIff(init: Sys, steps: seq<Step>, s: Sys, id: Id, i: nat)
    requires Reached(init, steps, s) && id in s.table && i < |s.table[id].grants|
    ensures var grants := s.table[id].grants;
            CallMatches(s, id, i) <==>
            && s.table[id].row.status.Running?
            && (|| Newest(s, id, i)
                || (&& grants[i].returned && grants[i].owner.instance in s.released
                    && Last(grants).owner == grants[i].owner && Last(grants).attempt == grants[i].attempt))
  {
    ReachedInv(init, steps, s);
    assert EntryOk(s.table[id]);
    assert Ascending(s.table[id].grants) && ReturnedOk(s, id);
  }

  /** Calls of a lease that was never handed back, or whose instance never handed back wholesale, are always fenced. */
  lemma StaleFencing(init: Sys, steps: seq<Step>, s: Sys, id: Id, i: nat)
    requires Reached(init, steps, s) && id in s.table && i < |s.table[id].grants|
    requires !s.table[id].grants[i].returned || s.table[id].grants[i].owner.instance !in s.released
    ensures CallMatches(s, id, i) <==> s.table[id].row.status.Running? && Newest(s, id, i)
  {
    StaleMatchesIff(init, steps, s, id, i);
  }

  // ----- what else every step keeps -----

  /** Every lease carries the number after those that were kept before it. */
  predicate Numbered(grants: seq<Grant>) {
    forall i :: 0 <= i < |grants| ==> grants[i].attempt == |Kept(grants[..i])| + 1
  }

  /** Every lease went to an instance that handles the row. */
  predicate GrantsOk(s: Sys, id: Id)
    requires id in s.table
  {
    var e := s.table[id];
    Numbered(e.grants) && forall i :: 0 <= i < |e.grants| ==> Handles(s, e.grants[i].owner.instance, e.row.name)
  }

  ghost predicate StaleInv(s: Sys) {
    && Inv(s) && s.released <= s.stopped
    && (forall id :: id in s.table ==> GrantsOk(s, id))
    && (forall w :: w in s.workers && s.workers[w].Exited? ==> w.instance in s.stopped)
  }

  lemma HandlersKept(s: Sys, step: Step, id: Id, i: nat)
    requires Enabled(s, step) && id in s.table && GrantsOk(s, id)
    requires i < |Affect(s.table[id], EffectOn(s, step, id), s.now).grants|
    ensures Handles(s, Affect(s.table[id], EffectOn(s, step, id), s.now).grants[i].owner.instance, s.table[id].row.name)
  {
    if i < |s.table[id].grants| {
      assert Handles(s, s.table[id].grants[i].owner.instance, s.table[id].row.name);
    }
  }

  lemma NumberedKept(e: Entry, effect: Effect, now: Time)
    requires EntryOk(e) && Numbered(e.grants)
    ensures Numbered(Affect(e, effect, now).grants)
  {
    var grants := Affect(e, effect, now).grants;
    forall i | 0 <= i < |grants| ensures grants[i].attempt == |Kept(grants[..i])| + 1 {
      if i < |e.grants| {
        assert grants[..i] == e.grants[..i];
      } else {
        assert grants[..i] == e.grants;
      }
    }
  }

  lemma GrantsKept(s: Sys, step: Step, id: Id)
    requires StaleInv(s) && Enabled(s, step) && id in Apply(s, step).table
    ensures GrantsOk(Apply(s, step), id)
  {
    if id in s.table {
      EntryAfter(s, step, id);
      GrantsAfter(s, step, id);
      assert EntryOk(s.table[id]) && GrantsOk(s, id);
      NumberedKept(s.table[id], EffectOn(s, step, id), s.now);
      forall i | 0 <= i < |Apply(s, step).table[id].grants|
        ensures Handles(Apply(s, step), Apply(s, step).table[id].grants[i].owner.instance,
                        Apply(s, step).table[id].row.name)
      {
        HandlersKept(s, step, id, i);
      }
    } else {
      NewEntry(s, step, id);
    }
  }

  lemma ExitedKept(s: Sys, step: Step, w: Owner)
    requires Enabled(s, step) && w in Apply(s, step).workers && Apply(s, step).workers[w].Exited?
    requires w in s.workers && s.workers[w].Exited? ==> w.instance in s.stopped
    ensures w.instance in Apply(s, step).stopped
  {
    if Actor(step) != Some(w) {
      OtherPhase(s, step, w);
    }
  }

  lemma StepStaleInv(s: Sys, step: Step)
    requires StaleInv(s) && Enabled(s, step)
    ensures StaleInv(Apply(s, step))
  {
    StepInv(s, step);
    forall id | id in Apply(s, step).table ensures GrantsOk(Apply(s, step), id) {
      GrantsKept(s, step, id);
    }
    forall w | w in Apply(s, step).workers && Apply(s, step).workers[w].Exited?
      ensures w.instance in Apply(s, step).stopped
    {
      ExitedKept(s, step, w);
    }
  }

  lemma {:induction false} RunStaleInv(s: Sys, steps: seq<Step>)
    requires StaleInv(s) && Legal(s, steps)
    ensures StaleInv(After(s, steps))
    decreases |steps|
  {
    if steps != [] {
      StepStaleInv(s, steps[0]);
      RunStaleInv(Apply(s, steps[0]), steps[1..]);
    }
  }

  lemma ReachedStaleInv(init: Sys, steps: seq<Step>, s: Sys)
    requires Reached(init, steps, s)
    ensures StaleInv(s)
  {
    InitInv(init);
    RunStaleInv(init, steps);
  }

  lemma StoppedWhenReturned(s: Sys, id: Id, i: nat)
    requires StaleInv(s) && id in s.table && i < |s.table[id].grants| && s.table[id].grants[i].returned
    ensures s.table[id].grants[i].owner.instance in s.stopped
  {
    assert ReturnedOk(s, id);
  }

  // ----- whether an old call will ever match -----

  /** A call of the grant at position `i` matches a newer lease. */
  predicate StaleMatch(s: Sys, id: Id, i: nat) {
    id in s.table && i < |s.table[id].grants| - 1 && CallMatches(s, id, i)
  }

  /** Some continuation reaches such a match. */
  ghost predicate MatchAhead(s: Sys, id: Id, i: nat) {
    exists steps :: Legal(s, steps) && StaleMatch(After(s, steps), id, i)
  }

  /** The worker asked accepting() before its instance stopped and has not issued its lease statement yet. */
  predicate AboutToLease(s: Sys, w: Owner) {
    PhaseOf(s, w).Cleared? || PhaseOf(s, w).Swept?
  }

  /** The row is running under grant `i`. */
  predicate HeldUnder(e: Entry, i: nat) {
    e.row.status.Running? && i == |e.grants| - 1
  }

  /** Grant `i` was handed back, and its number is the next one of the row, or the one under which it runs now. */
  predicate NumberFree(e: Entry, i: nat) {
    && i < |e.grants| && e.grants[i].returned
    && (|| (e.row.status.Waiting() && e.row.attempt == e.grants[i].attempt - 1)
        || (e.row.status.Running? && e.row.attempt == e.grants[i].attempt))
  }

  /**
   A call of grant `i` matches a newer lease already; or its worker is about to lease and the row is or can be waiting
   for the number of that grant; or its worker holds the row and its instance still accepts.
   */
  predicate CanMatch(s: Sys, id: Id, i: nat) {
    && id in s.table && i < |s.table[id].grants|
    && var e := s.table[id];
       var w := e.grants[i].owner;
       || StaleMatch(s, id, i)
       || (AboutToLease(s, w) && (NumberFree(e, i) || HeldUnder(e, i)))
       || (w.instance !in s.stopped && HeldUnder(e, i))
  }

  // ----- only then -----

  /** While a row runs, every earlier lease carries at most its number. */
  lemma RunningBeyond(e: Entry, i: nat)
    requires EntryOk(e) && Numbered(e.grants) && e.row.status.Running? && i < |e.grants|
    ensures e.grants[i].attempt <= e.row.attempt
  {
    var last := |e.grants| - 1;
    KeptPrefix(e.grants, i, last);
    assert e.grants[last].attempt == |Kept(e.grants[..last])| + 1;
  }

  lemma {:induction false} KeptPrefix(grants: seq<Grant>, i: nat, j: nat)
    requires i <= j <= |grants|
    ensures |Kept(grants[..i])| <= |Kept(grants[..j])|
  {
    if i < j {
      assert Front(grants[..j]) == grants[..j - 1];
      KeptPrefix(grants, i, j - 1);
    }
  }

  lemma HeldBefore(e: Entry, effect: Effect, now: Time, i: nat)
    requires EntryOk(e) && Permitted(e.row, effect, now) && i < |e.grants| && HeldUnder(Affect(e, effect, now), i)
    ensures HeldUnder(e, i)
  {
  }

  lemma FreeBefore(e: Entry, effect: Effect, now: Time, i: nat)
    requires EntryOk(e) && Numbered(e.grants) && Permitted(e.row, effect, now) && i < |e.grants|
    requires NumberFree(Affect(e, effect, now), i)
    ensures NumberFree(e, i) || HeldUnder(e, i)
  {
    if e.row.status.Running? {
      RunningBeyond(e, i);
    }
  }

  /** The fence of grant `i` matches a newer lease only if it did before, or its owner leased with its number free. */
  lemma MatchedBefore(e: Entry, effect: Effect, now: Time, i: nat)
    requires EntryOk(e) && Numbered(e.grants) && Ascending(e.grants) && Permitted(e.row, effect, now) && i < |e.grants|
    requires var f := Affect(e, effect, now);
             i < |f.grants| - 1 && Owned(f.row, f.grants[i].owner, f.grants[i].attempt)
    ensures || (i < |e.grants| - 1 && Owned(e.row, e.grants[i].owner, e.grants[i].attempt))
            || (effect.Lease? && effect.owner == e.grants[i].owner && NumberFree(e, i))
  {
    if effect.Lease? {
      if e.row.status.Running? {
        RunningBeyond(e, i);
      }
      if !e.grants[i].returned {
        UnreturnedWithinAttempt(e, i);
      }
    }
  }

  lemma PhaseBefore(s: Sys, step: Step, w: Owner)
    requires Enabled(s, step) && AboutToLease(Apply(s, step), w)
    ensures AboutToLease(s, w) || w.instance !in s.stopped
  {
    if Actor(step) != Some(w) {
      OtherPhase(s, step, w);
    }
  }

  lemma StoppedKept(s: Sys, step: Step)
    requires Enabled(s, step)
    ensures s.stopped <= Apply(s, step).stopped
  {
  }

  lemma LeasedBy(s: Sys, step: Step, id: Id)
    requires Enabled(s, step) && id in s.table && EffectOn(s, step, id).Lease?
    ensures AboutToLease(s, EffectOn(s, step, id).owner)
  {
  }

  /** The entry under a step, and what is known of it. */
  lemma EntryStep(s: Sys, step: Step, id: Id, i: nat)
    requires StaleInv(s) && Enabled(s, step) && id in s.table && i < |s.table[id].grants|
    ensures var e, effect := s.table[id], EffectOn(s, step, id);
            && EntryOk(e) && Numbered(e.grants) && Ascending(e.grants) && Permitted(e.row, effect, s.now)
            && id in Apply(s, step).table && Apply(s, step).table[id] == Affect(e, effect, s.now)
            && i < |Affect(e, effect, s.now).grants| && Affect(e, effect, s.now).grants[i].owner == e.grants[i].owner
  {
    EntryAfter(s, step, id);
    StepPermitted(s, step, id);
    assert EntryOk(s.table[id]) && GrantsOk(s, id) && Ascending(s.table[id].grants);
  }

  lemma MatchWasAhead(s: Sys, step: Step, id: Id, i: nat)
    requires StaleInv(s) && Enabled(s, step) && id in s.table && i < |s.table[id].grants|
    requires StaleMatch(Apply(s, step), id, i)
    ensures CanMatch(s, id, i)
  {
    EntryStep(s, step, id, i);
    MatchedBefore(s.table[id], EffectOn(s, step, id), s.now, i);
    if EffectOn(s, step, id).Lease? {
      LeasedBy(s, step, id);
    }
  }

  /** A row that is held under a grant, or waits for its number, was so before. */
  lemma NumberBefore(s: Sys, step: Step, id: Id, i: nat)
    requires StaleInv(s) && Enabled(s, step) && id in s.table && i < |s.table[id].grants|
    requires id in Apply(s, step).table
    requires NumberFree(Apply(s, step).table[id], i) || HeldUnder(Apply(s, step).table[id], i)
    ensures NumberFree(s.table[id], i) || HeldUnder(s.table[id], i)
    ensures HeldUnder(Apply(s, step).table[id], i) ==> HeldUnder(s.table[id], i)
  {
    EntryStep(s, step, id, i);
    if HeldUnder(Apply(s, step).table[id], i) {
      HeldBefore(s.table[id], EffectOn(s, step, id), s.now, i);
    } else {
      FreeBefore(s.table[id], EffectOn(s, step, id), s.now, i);
    }
  }

  /** What cannot match now cannot after any step either. */
  lemma CannotKept(s: Sys, step: Step, id: Id, i: nat)
    requires StaleInv(s) && Enabled(s, step) && id in s.table && i < |s.table[id].grants|
    requires CanMatch(Apply(s, step), id, i)
    ensures CanMatch(s, id, i)
  {
    if StaleMatch(Apply(s, step), id, i) {
      MatchWasAhead(s, step, id, i);
    } else {
      var w := s.table[id].grants[i].owner;
      EntryStep(s, step, id, i);
      NumberBefore(s, step, id, i);
      StoppedKept(s, step);
      if AboutToLease(Apply(s, step), w) {
        PhaseBefore(s, step, w);
      }
      if s.table[id].grants[i].returned {
        StoppedWhenReturned(s, id, i);
      }
    }
  }

  lemma {:induction false} CannotForever(s: Sys, steps: seq<Step>, id: Id, i: nat)
    requires StaleInv(s) && Legal(s, steps) && id in s.table && i < |s.table[id].grants| && !CanMatch(s, id, i)
    ensures !StaleMatch(After(s, steps), id, i)
    decreases |steps|
  {
    if steps != [] {
      var t := Apply(s, steps[0]);
      if CanMatch(t, id, i) {
        CannotKept(s, steps[0], id, i);
      }
      StepStaleInv(s, steps[0]);
      GrantsAfter(s, steps[0], id);
      CannotForever(t, steps[1..], id, i);
    }
  }

  // ----- then indeed -----

  ghost predicate Path(s: Sys, steps: seq<Step>, t: Sys) {
    Legal(s, steps) && After(s, steps) == t
  }

  lemma PathOn(s: Sys, steps: seq<Step>, t: Sys, step: Step)
    requires Path(s, steps, t) && Enabled(t, step)
    ensures Path(s, steps + [step], Apply(t, step))
  {
    LegalSnoc(s, steps, step);
  }

  /** The steps that take a worker from its phase towards its next lease statement, its last statement being lost. */
  function Onward(phase: Phase, w: Owner): Step
    requires !phase.Exited? && !phase.Cleared? && !phase.Swept?
  {
    match phase
    case Idle => Check(w)
    case Handling(_) => HandlerFails(w, Cause(Option.None, false, false))
    case Storing(_, _) => StoreSuccess(w, Lost)
    case Recovering(_, _) => Decide(w)
    case Finishing(_, _) => Finish(w, Lost)
  }

  function Distance(phase: Phase): nat {
    match phase
    case Idle => 1
    case Finishing(_, _) => 2
    case Recovering(_, _) => 3
    case Handling(_) => 4
    case Storing(_, _) => 4
    case _ => 0
  }

  lemma OnwardStep(t: Sys, w: Owner)
    requires w.instance !in t.stopped && !PhaseOf(t, w).Exited? && !AboutToLease(t, w)
    ensures var step := Onward(PhaseOf(t, w), w);
            && Enabled(t, step)
            && Apply(t, step).table == t.table
            && Apply(t, step).stopped == t.stopped && Apply(t, step).handlers == t.handlers
            && !PhaseOf(Apply(t, step), w).Exited?
            && Distance(PhaseOf(Apply(t, step), w)) < Distance(PhaseOf(t, w))
  {
    var step := Onward(PhaseOf(t, w), w);
    forall id | id in t.table ensures Affect(t.table[id], EffectOn(t, step, id), t.now) == t.table[id] {
    }
    KeptTable(t, step);
  }

  /** A worker of an accepting instance can come to be about to lease while no row changes. */
  lemma {:induction false} MadeReady(s: Sys, before: seq<Step>, t: Sys, w: Owner) returns (steps: seq<Step>, u: Sys)
    requires Path(s, before, t) && w.instance !in t.stopped && !PhaseOf(t, w).Exited?
    ensures Path(s, steps, u) && AboutToLease(u, w)
    ensures u.table == t.table && u.handlers == t.handlers
    decreases Distance(PhaseOf(t, w))
  {
    if AboutToLease(t, w) {
      return before, t;
    }
    OnwardStep(t, w);
    PathOn(s, before, t, Onward(PhaseOf(t, w), w));
    steps, u := MadeReady(s, before + [Onward(PhaseOf(t, w), w)], Apply(t, Onward(PhaseOf(t, w), w)), w);
  }

  /** Any running row can be handed back wholesale, without moving any worker. */
  lemma MadeReleased(s: Sys, before: seq<Step>, t: Sys, id: Id) returns (steps: seq<Step>, u: Sys)
    requires Path(s, before, t) && id in t.table && EntryOk(t.table[id]) && t.table[id].row.status.Running?
    ensures Path(s, steps, u) && u.workers == t.workers && u.handlers == t.handlers
    ensures id in u.table && u.table[id] == Affect(t.table[id], HandBack, t.now)
  {
    var instance := t.table[id].row.leaseOwner.value.instance;
    var stop, release := StopAccepting(instance), ReleaseInstance(instance);
    var v := Apply(t, stop);
    PathOn(s, before, t, stop);
    assert v.table == t.table;
    PathOn(s, before + [stop], v, release);
    EntryAfter(v, release, id);
    steps, u := before + [stop] + [release], Apply(v, release);
  }

  /** The clock passes the due time of a row. */
  lemma MadeDue(s: Sys, before: seq<Step>, t: Sys, id: Id) returns (steps: seq<Step>, u: Sys)
    requires Path(s, before, t) && id in t.table
    ensures Path(s, steps, u) && u == t.(now := u.now)
    ensures t.table[id].row.nextAttemptAt.Some? ==> t.table[id].row.nextAttemptAt.value <= u.now
  {
    var due := t.table[id].row.nextAttemptAt;
    var tick := Tick(if due.Some? && due.value > t.now then due.value - t.now else 0);
    PathOn(s, before, t, tick);
    steps, u := before + [tick], Apply(t, tick);
    assert u.table == t.table;
  }

  /** A worker about to lease gets past its expiry statement; a waiting row is left alone by it. */
  lemma MadeSwept(s: Sys, before: seq<Step>, t: Sys, id: Id, w: Owner) returns (steps: seq<Step>, u: Sys)
    requires Path(s, before, t) && id in t.table && t.table[id].row.status.Waiting() && AboutToLease(t, w)
    ensures Path(s, steps, u) && PhaseOf(u, w).Swept?
    ensures id in u.table && u.table[id] == t.table[id] && u.now == t.now && u.handlers == t.handlers
  {
    if PhaseOf(t, w).Swept? {
      return before, t;
    }
    var sweep := Sweep(w, Applied);
    PathOn(s, before, t, sweep);
    EntryAfter(t, sweep, id);
    steps, u := before + [sweep], Apply(t, sweep);
  }

  /** That worker can lease the row under the number of its old grant. */
  lemma MadeLeased(s: Sys, before: seq<Step>, t: Sys, id: Id, i: nat, w: Owner) returns (steps: seq<Step>)
    requires Path(s, before, t) && id in t.table && i < |t.table[id].grants| && PhaseOf(t, w).Swept?
    requires Handles(t, w.instance, t.table[id].row.name)
    requires var e := t.table[id];
             && e.row.status.Waiting() && e.row.nextAttemptAt.Some? && e.row.nextAttemptAt.value <= t.now
             && e.grants[i].owner == w && e.row.attempt == e.grants[i].attempt - 1
    ensures Legal(s, steps) && StaleMatch(After(s, steps), id, i)
  {
    var grab := Grab(w, id, 0, t.table.Keys - {id}, Applied);
    assert Candidate(t, w, id);
    PathOn(s, before, t, grab);
    EntryAfter(t, grab, id);
    steps := before + [grab];
  }

  /** A worker about to lease, and a row that waits for the number of its old grant. */
  lemma MadeMatch(s: Sys, before: seq<Step>, t: Sys, id: Id, i: nat) returns (steps: seq<Step>)
    requires Path(s, before, t) && id in t.table && i < |t.table[id].grants| && Shape(t.table[id].row)
    requires AboutToLease(t, t.table[id].grants[i].owner)
    requires Handles(t, t.table[id].grants[i].owner.instance, t.table[id].row.name)
    requires t.table[id].row.status.Waiting() && t.table[id].row.attempt == t.table[id].grants[i].attempt - 1
    ensures Legal(s, steps) && StaleMatch(After(s, steps), id, i)
  {
    var w := t.table[id].grants[i].owner;
    var due, u := MadeDue(s, before, t, id);
    var swept, v := MadeSwept(s, due, u, id, w);
    steps := MadeLeased(s, swept, v, id, i, w);
  }

  /** A row running under the number of an old grant is handed back first. */
  lemma MadeMatchRunning(s: Sys, before: seq<Step>, t: Sys, id: Id, i: nat) returns (steps: seq<Step>)
    requires Path(s, before, t) && id in t.table && i < |t.table[id].grants| && EntryOk(t.table[id])
    requires AboutToLease(t, t.table[id].grants[i].owner)
    requires Handles(t, t.table[id].grants[i].owner.instance, t.table[id].row.name)
    requires t.table[id].row.status.Running? && t.table[id].row.attempt == t.table[id].grants[i].attempt
    ensures Legal(s, steps) && StaleMatch(After(s, steps), id, i)
  {
    var released, u := MadeReleased(s, before, t, id);
    AffectKeepsRow(t.table[id].row, HandBack, t.now);
    steps := MadeMatch(s, released, u, id, i);
  }

  lemma HeldNumber(e: Entry, i: nat)
    requires EntryOk(e) && HeldUnder(e, i)
    ensures i < |e.grants| && e.row.attempt == e.grants[i].attempt
  {
  }

  lemma CanIndeed(s: Sys, id: Id, i: nat) returns (steps: seq<Step>)
    requires StaleInv(s) && CanMatch(s, id, i)
    ensures Legal(s, steps) && StaleMatch(After(s, steps), id, i)
  {
    var e := s.table[id];
    var w := e.grants[i].owner;
    if StaleMatch(s, id, i) {
      return [];
    }
    assert EntryOk(e) && GrantsOk(s, id) && Handles(s, w.instance, e.row.name);
    assert Path(s, [], s);
    if HeldUnder(e, i) {
      HeldNumber(e, i);
    }
    if e.row.status.Waiting() {
      steps := MadeMatch(s, [], s, id, i);
    } else if AboutToLease(s, w) {
      steps := MadeMatchRunning(s, [], s, id, i);
    } else {
      var ready, t := MadeReady(s, [], s, w);
      steps := MadeMatchRunning(s, ready, t, id, i);
    }
  }

  /**
   For every lease of every reachable state: some continuation lets one of its calls match a newer lease if and only if
   CanMatch holds.  In particular calls of a worker that leases no more, and of a superseded lease that was never handed
   back, never match again, whatever happens.
   */
  lemma OldCallMatchesAheadIff(init: Sys, steps: seq<Step>, s: Sys, id: Id, i: nat)
    requires Reached(init, steps, s) && id in s.table && i < |s.table[id].grants|
    ensures MatchAhead(s, id, i) <==> CanMatch(s, id, i)
  {
    ReachedStaleInv(init, steps, s);
    if CanMatch(s, id, i) {
      var found := CanIndeed(s, id, i);
    } else {
      forall later | Legal(s, later) ensures !StaleMatch(After(s, later), id, i) {
        CannotForever(s, later, id, i);
      }
    }
  }

  /** Right after a lease was handed back, what counts is whether its worker is about to lease. */
  lemma HandedBackMatchesAheadIff(init: Sys, steps: seq<Step>, s: Sys, id: Id)
    requires Reached(init, steps, s) && id in s.table
    requires s.table[id].grants != [] && Last(s.table[id].grants).returned
    ensures MatchAhead(s, id, |s.table[id].grants| - 1) <==>
            s.table[id].row.status.Waiting() && AboutToLease(s, Last(s.table[id].grants).owner)
  {
    var e, i := s.table[id], |s.table[id].grants| - 1;
    OldCallMatchesAheadIff(init, steps, s, id, i);
    ReachedStaleInv(init, steps, s);
    assert EntryOk(e) && GrantsOk(s, id);
    assert e.grants[i].attempt == |Kept(e.grants[..i])| + 1;
    assert e.grants[..i] == Front(e.grants);
  }

  /** Calls of a superseded lease that was never handed back never match again, even after a wholesale release. */
  lemma KeptNeverMatchesAgain(init: Sys, steps: seq<Step>, s: Sys, id: Id, i: nat)
    requires Reached(init, steps, s) && id in s.table && i < |s.table[id].grants| - 1 && !s.table[id].grants[i].returned
    ensures !MatchAhead(s, id, i)
  {
    OldCallMatchesAheadIff(init, steps, s, id, i);
    StaleMatchesIff(init, steps, s, id, i);
  }

  // ----- a run that gets there -----

  lemma {:induction false} LegalSnoc(s: Sys, steps: seq<Step>, step: Step)
    requires Legal(s, steps) && Enabled(After(s, steps), step)
    ensures Legal(s, steps + [step]) && After(s, steps + [step]) == Apply(After(s, steps), step)
    decreases |steps|
  {
    if steps == [] {
      assert steps + [step] == [step] && [step][1..] == [];
    } else {
      LegalSnoc(Apply(s, steps[0]), steps[1..], step);
      assert (steps + [step])[1..] == steps[1..] + [step];
    }
  }

  lemma Extend(init: Sys, steps: seq<Step>, s: Sys, step: Step) returns (more: seq<Step>, t: Sys)
    requires Reached(init, steps, s) && Enabled(s, step)
    ensures t == Apply(s, step) && Reached(init, more, t)
  {
    LegalSnoc(init, steps, step);
    more, t := steps + [step], Apply(s, step);
  }

  const W0 := Owner("a", 0)
  const REQUEST0 := Request(Triple("", "n", ""), 2, 0, 0)
  const FRESH := Entry(NewRow(REQUEST0, 0), [])
  const HELD := Affect(FRESH, Effect.Lease(W0, 1), 0)
  const BACK := Affect(HELD, HandBack, 0)
  const FIRST := Delivery("op", 1, 2, 0, 0, 0)

  /** One row, one worker: the state with this entry, phase, and shutdown flags. */
  function Scene(e: Entry, phase: Phase, down: bool): Sys {
    var gone: set<string> := if down then {"a"} else {};
    Sys(0, map["op" := e], map["a" := {"n"}], map[W0 := phase], gone, gone, map[], [])
  }

  /** A worker step without effect on the scene's row only moves the worker. */
  lemma SceneMoves(e: Entry, phase: Phase, step: Step)
    requires Enabled(Scene(e, phase, false), step) && Actor(step) == Some(W0)
    requires EffectOn(Scene(e, phase, false), step, "op") == Keep
    ensures Apply(Scene(e, phase, false), step) == Scene(e, NextPhase(Scene(e, phase, false), step), false)
  {
    var s := Scene(e, phase, false);
    assert Apply(s, step).table == s.table;
    assert s.workers[W0 := NextPhase(s, step)] == map[W0 := NextPhase(s, step)];
  }

  lemma SceneSubmitted() returns (init: Sys, steps: seq<Step>, s: Sys)
    ensures Reached(init, steps, s) && s == Scene(FRESH, Cleared, false)
  {
    init := Sys(0, map[], map["a" := {"n"}], map[], {}, {}, map[], []);
    steps, s := [], init;
    steps, s := Extend(init, steps, s, Insert(0, "op", REQUEST0, 0, true));
    assert s == Scene(FRESH, Idle, false).(workers := map[]);
    steps, s := Extend(init, steps, s, Check(W0));
  }

  lemma SceneSwept(init: Sys, before: seq<Step>, e: Entry) returns (steps: seq<Step>, s: Sys)
    requires Reached(init, before, Scene(e, Cleared, false)) && !Exhausted(e.row, 0)
    ensures Reached(init, steps, s) && s == Scene(e, Swept, false)
  {
    SceneMoves(e, Cleared, Sweep(W0, Applied));
    steps, s := Extend(init, before, Scene(e, Cleared, false), Sweep(W0, Applied));
  }

  lemma SceneLeased(init: Sys, before: seq<Step>) returns (steps: seq<Step>, s: Sys)
    requires Reached(init, before, Scene(FRESH, Swept, false))
    ensures Reached(init, steps, s) && s == Scene(HELD, Handling(FIRST), false)
  {
    steps, s := Extend(init, before, Scene(FRESH, Swept, false), Grab(W0, "op", 1, {}, Applied));
    assert s.table["op"] == HELD;
    assert s.workers[W0] == Handling(FIRST);
  }

  lemma SceneLostStore(init: Sys, before: seq<Step>) returns (steps: seq<Step>, s: Sys)
    requires Reached(init, before, Scene(HELD, Handling(FIRST), false))
    ensures Reached(init, steps, s) && s == Scene(HELD, Cleared, false)
  {
    var cause := Cause(Option.None, false, false);
    steps, s := before, Scene(HELD, Handling(FIRST), false);
    SceneMoves(HELD, Handling(FIRST), HandlerFails(W0, cause));
    steps, s := Extend(init, steps, s, HandlerFails(W0, cause));
    SceneMoves(HELD, Recovering(FIRST, cause), Decide(W0));
    steps, s := Extend(init, steps, s, Decide(W0));
    SceneMoves(HELD, Finishing(FIRST, ToRetry), Finish(W0, Lost));
    steps, s := Extend(init, steps, s, Finish(W0, Lost));
    SceneMoves(HELD, Idle, Check(W0));
    steps, s := Extend(init, steps, s, Check(W0));
  }

  lemma SceneStops()
    ensures Enabled(Scene(HELD, Swept, false), StopAccepting("a"))
    ensures Apply(Scene(HELD, Swept, false), StopAccepting("a")) == Scene(HELD, Swept, false).(stopped := {"a"})
  {
    assert Apply(Scene(HELD, Swept, false), StopAccepting("a")).table == Scene(HELD, Swept, false).table;
  }

  lemma SceneReleases()
    ensures var s := Scene(HELD, Swept, false).(stopped := {"a"});
            Enabled(s, ReleaseInstance("a")) && Apply(s, ReleaseInstance("a")) == Scene(BACK, Swept, true)
  {
    var s := Scene(HELD, Swept, false).(stopped := {"a"});
    EntryAfter(s, ReleaseInstance("a"), "op");
    assert Apply(s, ReleaseInstance("a")).table == Scene(BACK, Swept, true).table;
  }

  lemma SceneReleased(init: Sys, before: seq<Step>) returns (steps: seq<Step>, s: Sys)
    requires Reached(init, before, Scene(HELD, Swept, false))
    ensures Reached(init, steps, s) && s == Scene(BACK, Swept, true)
  {
    SceneStops();
    SceneReleases();
    steps, s := Extend(init, before, Scene(HELD, Swept, false), StopAccepting("a"));
    steps, s := Extend(init, steps, s, ReleaseInstance("a"));
  }

  /**
   Such a match is reached from an empty table.  A worker that lost its final statement leases the same
   row again right after its instance handed all leases back at the shutdown deadline: the attempt
   number is reused, and a statement of the first delivery matches the second one.
   */
  lemma StaleAfterWholesaleRelease() returns (init: Sys, steps: seq<Step>, s: Sys)
    ensures Reached(init, steps, s)
    ensures "op" in s.table && |s.table["op"].grants| == 2
    ensures var g := s.table["op"].grants[0]; Owned(s.table["op"].row, g.owner, g.attempt) && !Newest(s, "op", 0)
  {
    init, steps, s := SceneSubmitted();
    steps, s := SceneSwept(init, steps, FRESH);
    steps, s := SceneLeased(init, steps);
    steps, s := SceneLostStore(init, steps);
    steps, s := SceneSwept(init, steps, HELD);
    steps, s := SceneReleased(init, steps);
    var grab := Grab(W0, "op", 1, {}, Applied);
    steps, s := Extend(init, steps, s, grab);
    EntryAfter(Scene(BACK, Swept, true), grab, "op");
  }
}
