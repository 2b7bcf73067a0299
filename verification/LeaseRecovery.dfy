/** Crash recovery: if workers only lease and then crash, leasing stops and nothing stays stuck. */
module LeaseRecovery {
  import opened Prelude
  import opened LeaseRow
  import opened LeaseProtocol
  import opened LeaseInvariants

  predicate Unfinished(s: Sys, names: set<string>, id: Id) {
    id in s.table && s.table[id].row.name in names && !s.table[id].row.status.Terminal()
  }

  /** The clock is past the due time of every unfinished handled row. */
  ghost predicate PastDue(s: Sys, names: set<string>) {
    forall id :: Unfinished(s, names, id) ==> DueAt(s.table[id].row) <= s.now
  }

  function Weight(row: Row, names: set<string>): int {
    if row.name in names && !row.status.Terminal() then row.maxAttempts - row.attempt else 0
  }

  function Weights(s: Sys, names: set<string>): map<Id, int> {
    map id | id in s.table :: Weight(s.table[id].row, names)
  }

  /** Deliveries still possible: the sum of max_attempts - attempt over the unfinished handled rows. */
  ghost function Remaining(s: Sys, names: set<string>): int {
    Sum(Weights(s, names))
  }

  lemma RemainingNonNegative(s: Sys, names: set<string>)
    requires TableOk(s)
    ensures Remaining(s, names) >= 0
  {
    forall id | id in s.table ensures Weight(s.table[id].row, names) >= 0 {
      assert EntryOk(s.table[id]);
    }
    SumNonNegative(Weights(s, names));
  }

  // ----- what leases cost -----

  /** The step leases a row, even if its worker never learns. */
  predicate Leases(step: Step) {
    step.Grab? && !step.fate.Lost?
  }

  /** Nothing is submitted and no lease is handed back. */
  predicate Spends(s: Sys, step: Step) {
    && !step.Insert? && !step.ReleaseInstance?
    && (step.Finish? && PhaseOf(s, step.w).Finishing? ==> !PhaseOf(s, step.w).statement.ToRelease?)
  }

  /** A worker that only leases and then crashes, and time. */
  predicate LeasesOnly(step: Step) {
    step.Tick? || step.Check? || step.Sweep? || step.Grab? || step.FindNothing? || step.GrabError?
  }

  /** The leasing worker's instance handles only some of `names`. */
  predicate HandlesWithin(s: Sys, names: set<string>, step: Step) {
    step.Grab? && step.w.instance in s.handlers ==> s.handlers[step.w.instance] <= names
  }

  /** Any statement but a lease and a hand-back leaves a row at most the deliveries it had; a lease takes one. */
  lemma RowCost(e: Entry, effect: Effect, now: Time, names: set<string>)
    requires EntryOk(e) && Permitted(e.row, effect, now) && !effect.HandBack?
    requires effect.Lease? ==> e.row.name in names
    ensures Weight(AffectRow(e.row, effect, now), names) <= Weight(e.row, names) - if effect.Lease? then 1 else 0
    ensures effect.Keep? || effect.Lease? || effect.Expire? ==>
              Weight(AffectRow(e.row, effect, now), names) == Weight(e.row, names) - if effect.Lease? then 1 else 0
  {
  }

  function Leased(step: Step): Option<Id> {
    if Leases(step) then Some(step.id) else None
  }

  lemma LeaseEffect(s: Sys, step: Step, names: set<string>, id: Id)
    requires Enabled(s, step) && Spends(s, step) && HandlesWithin(s, names, step) && id in s.table
    ensures EffectOn(s, step, id).Lease? <==> Leased(step) == Some(id)
    ensures EffectOn(s, step, id).Lease? ==> s.table[id].row.name in names
  {
  }

  lemma SpentEffect(s: Sys, step: Step, id: Id)
    requires Enabled(s, step) && Spends(s, step) && id in s.table
    ensures !EffectOn(s, step, id).HandBack?
  {
  }

  lemma LeasesOnlyEffect(s: Sys, step: Step, id: Id)
    requires Enabled(s, step) && LeasesOnly(step) && id in s.table
    ensures EffectOn(s, step, id).Keep? || EffectOn(s, step, id).Lease? || EffectOn(s, step, id).Expire?
  {
  }

  lemma EntryCost(s: Sys, step: Step, names: set<string>, id: Id)
    requires Inv(s) && Enabled(s, step) && Spends(s, step) && HandlesWithin(s, names, step) && id in s.table
    ensures id in Apply(s, step).table
    ensures var before, after := Weight(s.table[id].row, names), Weight(Apply(s, step).table[id].row, names);
            var cost := if Leased(step) == Some(id) then 1 else 0;
            after <= before - cost && (LeasesOnly(step) ==> after == before - cost)
  {
    EntryAfter(s, step, id);
    StepPermitted(s, step, id);
    assert EntryOk(s.table[id]);
    LeaseEffect(s, step, names, id);
    SpentEffect(s, step, id);
    if LeasesOnly(step) {
      LeasesOnlyEffect(s, step, id);
    }
    RowCost(s.table[id], EffectOn(s, step, id), s.now, names);
  }

  lemma SameRows(s: Sys, step: Step)
    requires Enabled(s, step) && !step.Insert?
    ensures Apply(s, step).table.Keys == s.table.Keys && Apply(s, step).handlers == s.handlers
  {
  }

  /** Adding up over the rows. */
  lemma TotalCost(before: map<Id, int>, after: map<Id, int>, leased: Option<Id>, exact: bool)
    requires after.Keys == before.Keys && (leased.Some? ==> leased.value in before)
    requires forall id :: id in before ==> after[id] <= before[id] - (if leased == Some(id) then 1 else 0)
    requires exact ==> forall id :: id in before ==> after[id] == before[id] - (if leased == Some(id) then 1 else 0)
    ensures Sum(after) <= Sum(before) - if leased.Some? then 1 else 0
    ensures exact ==> Sum(after) == Sum(before) - if leased.Some? then 1 else 0
  {
    var bound := if leased.Some? then before[leased.value := before[leased.value] - 1] else before;
    if leased.Some? {
      SumUpdate(before, leased.value, before[leased.value] - 1);
    }
    SumMonotone(after, bound);
    if exact {
      assert after == bound;
    }
  }

  /** A step that leases uses up at least one remaining delivery, and no other step of such a run adds one. */
  lemma StepCost(s: Sys, step: Step, names: set<string>)
    requires Inv(s) && Enabled(s, step) && Spends(s, step) && HandlesWithin(s, names, step)
    ensures Remaining(Apply(s, step), names) <= Remaining(s, names) - if Leases(step) then 1 else 0
    ensures LeasesOnly(step) ==> Remaining(Apply(s, step), names) == Remaining(s, names) - if Leases(step) then 1 else 0
  {
    SameRows(s, step);
    forall id | id in s.table
      ensures id in Apply(s, step).table
      ensures var before, after := Weights(s, names)[id], Weights(Apply(s, step), names)[id];
              var cost := if Leased(step) == Some(id) then 1 else 0;
              after <= before - cost && (LeasesOnly(step) ==> after == before - cost)
    {
      EntryCost(s, step, names, id);
    }
    TotalCost(Weights(s, names), Weights(Apply(s, step), names), Leased(step), LeasesOnly(step));
  }

  // ----- runs -----

  ghost predicate SpendingRun(s: Sys, names: set<string>, steps: seq<Step>)
    decreases |steps|
  {
    steps == [] ||
    (&& Enabled(s, steps[0]) && Spends(s, steps[0]) && HandlesWithin(s, names, steps[0])
     && SpendingRun(Apply(s, steps[0]), names, steps[1..]))
  }

  /** The leases of a run, including those whose worker never learned. */
  function LeaseCount(steps: seq<Step>): nat {
    if steps == [] then 0 else (if Leases(steps[0]) then 1 else 0) + LeaseCount(steps[1..])
  }

  /** The lease statements of a run that took effect, whether they found a row or not. */
  function CallCount(steps: seq<Step>): nat {
    if steps == [] then 0
    else (if Leases(steps[0]) || steps[0].FindNothing? then 1 else 0) + CallCount(steps[1..])
  }

  /**
   At most `Remaining` leases happen in any run in which nothing is submitted or handed back: any number of replicas,
   calls overlapping in any way, workers stalling or crashing between any two statements, outcomes lost or in doubt,
   deliveries ending in any way.
   */
  lemma {:induction false} LeasesBounded(s: Sys, names: set<string>, steps: seq<Step>)
    requires Inv(s) && SpendingRun(s, names, steps)
    ensures Legal(s, steps) && Inv(After(s, steps))
    ensures 0 <= Remaining(After(s, steps), names) <= Remaining(s, names) - LeaseCount(steps)
    decreases |steps|
  {
    if steps == [] {
      RemainingNonNegative(s, names);
    } else {
      StepInv(s, steps[0]);
      StepCost(s, steps[0], names);
      LeasesBounded(Apply(s, steps[0]), names, steps[1..]);
    }
  }

  /** When workers only lease and crash, each lease uses up exactly one remaining delivery. */
  lemma {:induction false} LeasesExact(s: Sys, names: set<string>, steps: seq<Step>)
    requires Inv(s) && SpendingRun(s, names, steps) && forall i :: 0 <= i < |steps| ==> LeasesOnly(steps[i])
    ensures Legal(s, steps) && Remaining(After(s, steps), names) == Remaining(s, names) - LeaseCount(steps)
    decreases |steps|
  {
    if steps != [] {
      StepInv(s, steps[0]);
      StepCost(s, steps[0], names);
      LeasesExact(Apply(s, steps[0]), names, steps[1..]);
    }
  }

  lemma {:induction false} SomeCallFindsNothing(steps: seq<Step>)
    requires LeaseCount(steps) < CallCount(steps)
    ensures exists k :: 0 <= k < |steps| && steps[k].FindNothing?
  {
    if !steps[0].FindNothing? {
      SomeCallFindsNothing(steps[1..]);
      var k :| 0 <= k < |steps| - 1 && steps[1..][k].FindNothing?;
      assert steps[k + 1].FindNothing?;
    }
  }

  /** Recovery terminates: among any Remaining + 1 lease statements of such a run, one finds nothing. */
  lemma RecoveryTerminates(s: Sys, names: set<string>, steps: seq<Step>)
    requires Inv(s) && SpendingRun(s, names, steps) && CallCount(steps) > Remaining(s, names)
    ensures exists k :: 0 <= k < |steps| && steps[k].FindNothing?
  {
    LeasesBounded(s, names, steps);
    SomeCallFindsNothing(steps);
  }

  // ----- nothing stays stuck -----

  /** One lease call, made when some time has passed, that runs without interruption and finds nothing. */
  datatype EmptyCall = EmptyCall(w: Owner, elapsed: nat)

  function CallSteps(r: EmptyCall): seq<Step> {
    [Tick(r.elapsed), Check(r.w), Sweep(r.w, Applied), FindNothing(r.w, {})]
  }

  lemma Peel(s: Sys, step: Step, rest: seq<Step>)
    requires Legal(s, [step] + rest)
    ensures Enabled(s, step) && Legal(Apply(s, step), rest)
    ensures After(s, [step] + rest) == After(Apply(s, step), rest)
  {
    assert ([step] + rest)[0] == step && ([step] + rest)[1..] == rest;
  }

  /** The four states of such a call. */
  lemma CallStates(s: Sys, r: EmptyCall) returns (a: Sys, b: Sys, c: Sys)
    requires Legal(s, CallSteps(r))
    ensures a == Apply(s, Tick(r.elapsed))
    ensures Enabled(a, Check(r.w)) && b == Apply(a, Check(r.w))
    ensures Enabled(b, Sweep(r.w, Applied)) && c == Apply(b, Sweep(r.w, Applied))
    ensures Enabled(c, FindNothing(r.w, {})) && After(s, CallSteps(r)) == Apply(c, FindNothing(r.w, {}))
  {
    var r1 := [Check(r.w), Sweep(r.w, Applied), FindNothing(r.w, {})];
    var r2 := [Sweep(r.w, Applied), FindNothing(r.w, {})];
    assert CallSteps(r) == [Tick(r.elapsed)] + r1 && r1 == [Check(r.w)] + r2;
    var r3 := [FindNothing(r.w, {})];
    assert r2 == [Sweep(r.w, Applied)] + r3 && r3 == r3 + [];
    Peel(s, Tick(r.elapsed), r1);
    a := Apply(s, Tick(r.elapsed));
    Peel(a, Check(r.w), r2);
    b := Apply(a, Check(r.w));
    Peel(b, Sweep(r.w, Applied), r3);
    c := Apply(b, Sweep(r.w, Applied));
    Peel(c, FindNothing(r.w, {}), []);
  }

  /** After the expiry statement a row past its due time is finished or can be leased. */
  lemma SweptRow(row: Row, now: Time)
    requires SchemaChecks(row) && Shape(row) && Budget(row) && (row.status.Terminal() || DueAt(row) <= now)
    ensures var swept := AffectRow(row, if Exhausted(row, now) then Effect.Expire else Keep, now);
            swept.status.Terminal() || (Leasable(swept, now) && swept == row)
  {
  }

  /** Right after the expiry statement, a row past its due time that is not finished is a candidate. */
  lemma SweptCandidate(b: Sys, w: Owner, names: set<string>, id: Id)
    requires TableOk(b) && Enabled(b, Sweep(w, Applied)) && id in b.table
    requires w.instance in b.handlers && b.handlers[w.instance] == names && b.table[id].row.name in names
    requires b.table[id].row.status.Terminal() || DueAt(b.table[id].row) <= b.now
    ensures var c := Apply(b, Sweep(w, Applied));
            id in c.table && (c.table[id].row.status.Terminal() || Candidate(c, w, id))
  {
    EntryAfter(b, Sweep(w, Applied), id);
    assert EntryOk(b.table[id]);
    SweptRow(b.table[id].row, b.now);
  }

  lemma UnsweptRow(s: Sys, r: EmptyCall, id: Id)
    requires Enabled(s, Tick(r.elapsed)) && Enabled(Apply(s, Tick(r.elapsed)), Check(r.w))
    ensures var a := Apply(s, Tick(r.elapsed)); var b := Apply(a, Check(r.w));
            && a.now == b.now && a.handlers == b.handlers == s.handlers
            && (id in b.table ==> id in a.table && b.table[id].row == a.table[id].row)
  {
  }

  lemma FindNothingKeeps(c: Sys, w: Owner, id: Id)
    requires Enabled(c, FindNothing(w, {})) && id in c.table
    ensures id in Apply(c, FindNothing(w, {})).table && Apply(c, FindNothing(w, {})).table[id] == c.table[id]
    ensures !Candidate(c, w, id)
  {
    EntryAfter(c, FindNothing(w, {}), id);
  }

  lemma NoNewRows(s: Sys, r: EmptyCall, id: Id)
    requires Enabled(s, Sweep(r.w, Applied)) && id in Apply(s, Sweep(r.w, Applied)).table
    ensures id in s.table && Apply(s, Sweep(r.w, Applied)).table[id].row.name == s.table[id].row.name
  {
  }

  lemma StuckNowhere(s: Sys, a: Sys, b: Sys, c: Sys, names: set<string>, r: EmptyCall, id: Id)
    requires Inv(b) && PastDue(a, names) && r.w.instance in s.handlers && s.handlers[r.w.instance] == names
    requires Enabled(s, Tick(r.elapsed)) && a == Apply(s, Tick(r.elapsed))
    requires Enabled(a, Check(r.w)) && b == Apply(a, Check(r.w))
    requires Enabled(b, Sweep(r.w, Applied)) && c == Apply(b, Sweep(r.w, Applied))
    requires Enabled(c, FindNothing(r.w, {}))
    requires id in Apply(c, FindNothing(r.w, {})).table && Apply(c, FindNothing(r.w, {})).table[id].row.name in names
    ensures Apply(c, FindNothing(r.w, {})).table[id].row.status.Terminal()
  {
    assert id in c.table;
    FindNothingKeeps(c, r.w, id);
    NoNewRows(b, r, id);
    UnsweptRow(s, r, id);
    assert Unfinished(a, names, id) || a.table[id].row.status.Terminal();
    SweptCandidate(b, r.w, names, id);
  }

  /**
   Nothing gets stuck: a lease call after all due times that finds nothing leaves every row its worker handles
   terminal.
   */
  lemma NothingStuck(s: Sys, r: EmptyCall, id: Id)
    requires Inv(s) && Legal(s, CallSteps(r)) && r.w.instance in s.handlers
    requires PastDue(Apply(s, Tick(r.elapsed)), s.handlers[r.w.instance])
    requires id in After(s, CallSteps(r)).table
    requires After(s, CallSteps(r)).table[id].row.name in s.handlers[r.w.instance]
    ensures After(s, CallSteps(r)).table[id].row.status.Terminal()
  {
    var a, b, c := CallStates(s, r);
    StepInv(s, Tick(r.elapsed));
    StepInv(a, Check(r.w));
    StuckNowhere(s, a, b, c, s.handlers[r.w.instance], r, id);
  }
}
