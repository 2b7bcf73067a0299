/**
 The executor that issues the lease statements (contrib/asyncpostgres/executor.go).  Its methods are
 sequential code; what other goroutines and replicas do between two statements arrives as a script.
 The log of each method is shown to be a walk through the protocol's worker phases.
 */
module LeaseExecutor {
  import opened Prelude
  import opened Operations
  import opened Text
  import opened LeaseRow
  import opened LeaseProtocol
  import opened LeaseInvariants
  import opened LeaseOutcome
  import opened LeaseStore

  // ----- retry policy -----

  datatype SubmitError = Unavailable | InvalidOperation

  const DEFAULT_BACKOFF := 1_000 * MILLISECOND
  const DEFAULT_MAX_BACKOFF := 60_000 * MILLISECOND

  /** normalizeRetry: what is stored always satisfies the CHECK constraints of the table. */
  function NormalizeRetry(policy: RetryPolicy): (r: Result<RetryPolicy, SubmitError>)
    ensures r.Ok? ==>
              && 1 <= r.value.maxAttempts <= 1000
              && 0 < r.value.initialBackoff <= r.value.maxBackoff
              && 0 <= r.value.initialBackoff / MILLISECOND <= r.value.maxBackoff / MILLISECOND
              && (policy.maxAttempts != 0 ==> r.value.maxAttempts == policy.maxAttempts)
              && (policy.maxAttempts == 0 ==> r.value.maxAttempts == 1)
              && (policy.initialBackoff != 0 ==> r.value.initialBackoff == policy.initialBackoff)
              && (policy.initialBackoff == 0 ==> r.value.initialBackoff == DEFAULT_BACKOFF)
              && (policy.maxBackoff != 0 ==> r.value.maxBackoff == policy.maxBackoff)
              && (policy.maxBackoff == 0 ==> r.value.maxBackoff == DEFAULT_MAX_BACKOFF)
    ensures r.Err? <==>
              || policy.maxAttempts < 0 || policy.initialBackoff < 0 || policy.maxBackoff < 0
              || policy.maxAttempts > 1000
              || (if policy.maxBackoff == 0 then DEFAULT_MAX_BACKOFF else policy.maxBackoff) <
                 (if policy.initialBackoff == 0 then DEFAULT_BACKOFF else policy.initialBackoff)
  {
    if policy.maxAttempts < 0 || policy.initialBackoff < 0 || policy.maxBackoff < 0 then Err(InvalidOperation)
    else if policy.maxAttempts > 1000 then Err(InvalidOperation)
    else
      var maxAttempts := if policy.maxAttempts == 0 then 1 else policy.maxAttempts;
      var initialBackoff := if policy.initialBackoff == 0 then DEFAULT_BACKOFF else policy.initialBackoff;
      var maxBackoff := if policy.maxBackoff == 0 then DEFAULT_MAX_BACKOFF else policy.maxBackoff;
      if maxBackoff < initialBackoff then Err(InvalidOperation)
      else Ok(RetryPolicy(maxAttempts, initialBackoff, maxBackoff))
  }

  lemma {:induction false} DoubledGrows(initial: int, a: nat, b: nat)
    requires 0 <= initial && a <= b
    ensures initial <= Doubled(initial, a) <= Doubled(initial, b)
  {
    if a < b {
      DoubledGrows(initial, a, b - 1);
    } else if a > 0 {
      DoubledGrows(initial, a - 1, a - 1);
    }
  }

  /** retryBackoff: doubling with an overflow guard is exponential backoff capped at the maximum. */
  method RetryBackoff(attempt: int, initial: int, maximum: int) returns (backoff: int)
    requires 0 <= initial && 0 <= maximum
    ensures backoff == Backoff(attempt, initial, maximum)
    ensures backoff == Min(initial * PowerOfTwo(attempt - 1), maximum)
  {
    DoubledIsPower(initial, if attempt > 1 then attempt - 1 else 0);
    backoff := initial;
    var current := 1;
    while current < attempt && backoff < maximum
      invariant 1 <= current && (current <= attempt || current == 1)
      invariant backoff == Doubled(initial, current - 1)
      invariant 0 <= backoff
    {
      DoubledGrows(initial, current, attempt - 1);
      if backoff > maximum / 2 {
        return maximum;
      }
      assert 2 * backoff <= maximum; // the doubling cannot overflow
      backoff := backoff * 2;
      current := current + 1;
    }
    if current < attempt {
      DoubledGrows(initial, current - 1, attempt - 1);
    }
    return Min(backoff, maximum);
  }

  // ----- the walk of a worker -----

  /** A protocol step of one worker with what it saw: accepting(), and the delivery a lease returned. */
  datatype Act = Act(step: Step, accepting: bool, granted: Delivery)

  function Move(phase: Phase, act: Act): Option<Phase> {
    match act.step
    case Check(_) => if phase.Idle? then Some(if act.accepting then Cleared else Exited) else None
    case Sweep(_, fate) => if phase.Cleared? then Some(if fate.Applied? then Swept else Idle) else None
    case Grab(_, _, _, _, fate) =>
      if phase.Swept? then Some(if fate.Applied? then Handling(act.granted) else Idle) else None
    case FindNothing(_, _) => if phase.Swept? then Some(Idle) else None
    case GrabError(_) => if phase.Swept? then Some(Idle) else None
    case HandlerSucceeds(_, result) => if phase.Handling? then Some(Storing(phase.d, result)) else None
    case HandlerFails(_, cause) => if phase.Handling? then Some(Recovering(phase.d, cause)) else None
    case StoreSuccess(_, fate) =>
      if phase.Storing? then Some(if fate.Applied? then Idle else Recovering(phase.d, Cause(Option.None, false, false)))
      else None
    case Decide(_) =>
      if phase.Recovering? then Some(Finishing(phase.d, Verdict(phase.d, phase.cause, act.accepting))) else None
    case Finish(_, _) => if phase.Finishing? then Some(Idle) else None
    case _ => None
  }

  function Walk(phase: Phase, acts: seq<Act>): Option<Phase>
    decreases |acts|
  {
    if acts == [] then Some(phase)
    else
      var before := Walk(phase, Front(acts));
      if before.None? then None else Move(before.value, Last(acts))
  }

  /** The walk is the protocol's: every enabled step of a worker moves it as Move says. */
  lemma MoveIsNextPhase(s: Sys, step: Step, act: Act)
    requires Enabled(s, step) && Actor(step).Some? && act.step == step
    requires act.accepting <==> step.w.instance !in s.stopped
    requires step.Grab? ==> act.granted == NewDelivery(s, step.id)
    ensures Move(PhaseOf(s, step.w), act) == Some(NextPhase(s, step))
  {
  }

  // ----- the order of a worker's acts -----

  /** The act that lets the worker at the top of its loop: the delivery or the lease call before is over. */
  predicate Over(act: Act) {
    || (act.step.Sweep? && !act.step.fate.Applied?)
    || act.step.FindNothing? || act.step.GrabError?
    || (act.step.Grab? && !act.step.fate.Applied?)
    || (act.step.StoreSuccess? && act.step.fate.Applied?)
    || act.step.Finish?
  }

  /** What must have come directly before an act. */
  predicate InOrder(acts: seq<Act>, k: nat)
    requires k < |acts|
  {
    var act := acts[k];
    if k == 0 then act.step.Check?
    else
      var before := acts[k - 1];
      && (act.step.Check? ==> Over(before))
      && (act.step.Sweep? ==> before.step.Check? && before.accepting)
      && (act.step.Grab? || act.step.FindNothing? || act.step.GrabError? ==>
          before.step.Sweep? && before.step.fate.Applied?)
      && (act.step.HandlerSucceeds? || act.step.HandlerFails? ==> before.step.Grab? && before.step.fate.Applied?)
      && (act.step.StoreSuccess? ==> before.step.HandlerSucceeds?)
      && (act.step.Decide? ==> before.step.HandlerFails? || (before.step.StoreSuccess? && !before.step.fate.Applied?))
      && (act.step.Finish? ==> before.step.Decide?)
  }

  /**
   The acts of a worker come in order: it sweeps only when told that work is accepted, leases only after an expiry
   statement known to have taken effect, runs a handler only for a lease it knows it got, and asks whether work is
   accepted before its last statement.
   */
  lemma {:induction false} WalkInOrder(acts: seq<Act>)
    requires Walk(Idle, acts).Some?
    ensures forall k :: 0 <= k < |acts| ==> InOrder(acts, k)
    decreases |acts|
  {
    if acts != [] {
      var front := Front(acts);
      WalkInOrder(front);
      forall k | 0 <= k < |acts| ensures InOrder(acts, k) {
        if k < |front| {
          assert InOrder(front, k);
        } else if front != [] {
          assert acts[k - 1] == Last(front);
          assert Walk(Idle, front) == Move(Walk(Idle, Front(front)).value, Last(front));
        }
      }
    }
  }

  // ----- the statements on that walk -----

  /** The statement that reaches the database when a worker in this phase takes this act. */
  function Issues(phase: Phase, act: Act): seq<Command> {
    match act.step
    case Sweep(_, fate) => if fate.Lost? then [] else [SweepAll]
    case Grab(w, id, leaseMs, _, fate) => if fate.Lost? then [] else [LeaseFound(w, leaseMs, id)]
    case FindNothing(w, _) => [LeaseNothing(w)]
    case StoreSuccess(w, fate) =>
      if fate.Lost? || !phase.Storing? then []
      else [UpdateOne(phase.d.id, w, phase.d.attempt, Effect.Succeed(phase.result))]
    case Finish(w, fate) =>
      if fate.Lost? || !phase.Finishing? then []
      else [UpdateOne(phase.d.id, w, phase.d.attempt, StatementEffect(phase.d, phase.statement))]
    case _ => []
  }

  /** All statements of a walk, in order. */
  function Trace(phase: Phase, acts: seq<Act>): seq<Command>
    decreases |acts|
  {
    if acts == [] then []
    else
      var before := Walk(phase, Front(acts));
      Trace(phase, Front(acts)) + if before.None? then [] else Issues(before.value, Last(acts))
  }

  function ExecuteAll(rows: Rows, commands: seq<Command>, now: Time): Rows
    decreases |commands|
  {
    if commands == [] then rows else ExecuteAll(Execute(rows, commands[0], now), commands[1..], now)
  }

  lemma ExecuteOne(rows: Rows, command: Command, now: Time)
    ensures ExecuteAll(rows, [command], now) == Execute(rows, command, now)
  {
    var one := [command];
    assert one[0] == command && one[1..] == [];
  }

  /** What a worker issues at a step has exactly the effect the protocol gives that step. */
  lemma IssuesAgree(s: Sys, step: Step, act: Act)
    requires Enabled(s, step) && WorkersOk(s) && Actor(step).Some? && act.step == step
    ensures RowsOf(Apply(s, step)) == ExecuteAll(RowsOf(s), Issues(PhaseOf(s, step.w), act), s.now)
  {
    StatementsAgree(s, step);
    var issued := Issues(PhaseOf(s, step.w), act);
    if issued != [] {
      assert issued == [issued[0]];
      ExecuteOne(RowsOf(s), issued[0], s.now);
    }
  }

  /** Acts that lead from one phase to another, while exactly their statements reached the database. */
  ghost predicate Went(from: Phase, acts: seq<Act>, to: Phase, before: seq<Command>, after: seq<Command>) {
    Walk(from, acts) == Some(to) && after == before + Trace(from, acts)
  }

  lemma WentNowhere(from: Phase, before: seq<Command>)
    ensures Went(from, [], from, before, before)
  {
    assert before + [] == before;
  }

  lemma WentOn(from: Phase, acts: seq<Act>, mid: Phase, before: seq<Command>, now: seq<Command>, act: Act, to: Phase)
    requires Went(from, acts, mid, before, now) && Move(mid, act) == Some(to)
    ensures Went(from, acts + [act], to, before, now + Issues(mid, act))
  {
    assert Front(acts + [act]) == acts;
    assert before + (Trace(from, acts) + Issues(mid, act)) == before + Trace(from, acts) + Issues(mid, act);
  }

  lemma WentOne(from: Phase, act: Act, to: Phase, before: seq<Command>)
    requires Move(from, act) == Some(to)
    ensures Went(from, [act], to, before, before + Issues(from, act))
  {
    WentNowhere(from, before);
    WentOn(from, [], from, before, before, act, to);
    assert [] + [act] == [act];
  }

  lemma WentTwo(from: Phase, a: Act, mid: Phase, b: Act, to: Phase, before: seq<Command>)
    requires Move(from, a) == Some(mid) && Move(mid, b) == Some(to)
    ensures Went(from, [a, b], to, before, before + Issues(from, a) + Issues(mid, b))
  {
    WentOne(from, a, mid, before);
    WentOn(from, [a], mid, before, before + Issues(from, a), b, to);
    assert [a] + [b] == [a, b];
  }

  lemma {:induction false} WalkJoin(from: Phase, first: seq<Act>, mid: Phase, second: seq<Act>)
    requires Walk(from, first) == Some(mid)
    ensures Walk(from, first + second) == Walk(mid, second)
    decreases |second|
  {
    if second == [] {
      assert first + second == first;
    } else {
      WalkJoin(from, first, mid, Front(second));
      assert Front(first + second) == first + Front(second);
    }
  }

  lemma TraceLast(from: Phase, acts: seq<Act>, last: seq<Command>)
    requires acts != []
    requires last == if Walk(from, Front(acts)).None? then [] else Issues(Walk(from, Front(acts)).value, Last(acts))
    ensures Trace(from, acts) == Trace(from, Front(acts)) + last
  {
  }

  lemma {:induction false} TraceJoin(from: Phase, first: seq<Act>, mid: Phase, second: seq<Act>)
    requires Walk(from, first) == Some(mid)
    ensures Trace(from, first + second) == Trace(from, first) + Trace(mid, second)
    decreases |second|
  {
    if second == [] {
      assert first + second == first && Trace(from, first) + [] == Trace(from, first);
    } else {
      TraceJoin(from, first, mid, Front(second));
      WalkJoin(from, first, mid, Front(second));
      var before := Walk(mid, Front(second));
      var last := if before.None? then [] else Issues(before.value, Last(second));
      TraceLast(mid, second, last);
      assert Front(first + second) == first + Front(second) && Last(first + second) == Last(second);
      TraceLast(from, first + second, last);
      Regroup(Trace(from, first), Trace(mid, Front(second)), last);
    }
  }

  lemma WentJoin(from: Phase, first: seq<Act>, mid: Phase, second: seq<Act>, to: Phase,
                 before: seq<Command>, between: seq<Command>, after: seq<Command>)
    requires Went(from, first, mid, before, between) && Went(mid, second, to, between, after)
    ensures Went(from, first + second, to, before, after)
  {
    WalkJoin(from, first, mid, second);
    TraceJoin(from, first, mid, second);
    Regroup(before, Trace(from, first), Trace(mid, second));
  }

  // ----- what a script supplies -----

  datatype Others = Others(rows: Rows, later: Time)

  /** How the handler call ended: a value, or an error that may be a public OperationError. */
  datatype Outcome = Returned(result: string) | Errored(permanent: Option<OperationError>)

  datatype Script = Script(
    outcome: Outcome,
    ended: ContextEnd,
    encodes: bool,             // the result can be encoded as JSON
    beforeSuccess: Others,
    success: Fate,
    accepting: bool,           // accepting() after the delivery did not succeed
    beforeFinish: Others,
    finish: Fate)

  /** The success statement is issued for a value returned in time that can be encoded. */
  predicate Succeeds(script: Script) {
    script.outcome.Returned? && script.ended.Live? && script.encodes
  }

  function CauseOf(script: Script): Cause {
    if Succeeds(script) then Cause(Option.None, false, false)
    else Cause(if script.outcome.Errored? then script.outcome.permanent else Option.None,
               script.ended.Canceled?, script.ended.DeadlineExceeded?)
  }

  function Written(rows: Rows, d: Delivery, owner: Owner, effect: Effect, fate: Fate, now: Time): Rows {
    if fate.Lost? then rows else UpdateOwned(rows, d.id, owner, d.attempt, effect, now)
  }

  function Sent(d: Delivery, owner: Owner, effect: Effect, fate: Fate): seq<Command> {
    if fate.Lost? then [] else [UpdateOne(d.id, owner, d.attempt, effect)]
  }

  /** Only the row of the delivery changes, and only while it runs under it; `how` relates its old and new columns. */
  ghost predicate EndsRow(before: Rows, after: Rows, d: Delivery, owner: Owner, how: (Row, Row) -> bool) {
    if d.id in before && before[d.id].status.Running? && before[d.id].leaseOwner == Some(owner)
      && before[d.id].attempt == d.attempt
    then d.id in after && how(before[d.id], after[d.id]) && after == before[d.id := after[d.id]]
    else after == before
  }

  lemma Concludes(rows: Rows, d: Delivery, owner: Owner, cause: Cause, accepting: bool, now: Time)
    ensures var effect := StatementEffect(d, Verdict(d, cause, accepting));
            EndsRow(rows, UpdateOwned(rows, d.id, owner, d.attempt, effect, now), d, owner,
                    (was: Row, end: Row) => ConcludedAs(was, now, d, cause, accepting, end))
  {
    if d.id in rows {
      VerdictConcludes(rows[d.id], now, d, cause, accepting);
    }
  }

  datatype Iteration = Iteration(
    stopped: bool,             // somebody called stopAccepting before this iteration
    beforeSweep: Others,
    sweep: Fate,
    beforeLease: Others,
    lease: Fate,
    leaseMs: int,
    locked: set<Id>,
    ticket: nat,
    script: Script)

  /** scanDelivery; the CHECK constraints keep the stored backoffs non-negative. */
  function Read(row: Row, id: Id, ticket: nat): (d: Delivery)
    ensures 0 <= d.initialBackoffMs && 0 <= d.maxBackoffMs
    ensures d.id == id && d.attempt == row.attempt && d.maxAttempts == row.maxAttempts
    ensures 0 <= row.initialBackoffMs <= row.maxBackoffMs ==>
        d.initialBackoffMs == row.initialBackoffMs && d.maxBackoffMs == row.maxBackoffMs
  {
    Delivery(id, row.attempt, row.maxAttempts, Max(0, row.initialBackoffMs), Max(0, row.maxBackoffMs), ticket)
  }

  const NO_DELIVERY := Delivery("", 0, 0, 0, 0, 0)

  datatype State = Created | Started | Stopping | Stopped

  datatype ShutdownError = NotStarted | DeadlinePassed

  class Executor {
    const instance: string
    const names: set<string>
    var state: State

    constructor (instance: string, names: set<string>)
      ensures this.instance == instance && this.names == names && state == Created
    {
      this.instance, this.names, state := instance, names, Created;
    }

    method Start() returns (ok: bool)
      modifies this
      ensures ok <==> old(state) == Created
      ensures state == if ok then Started else old(state)
    {
      ok := state == Created;
      if ok {
        state := Started;
      }
    }

    predicate Accepting()
      reads this
    {
      state == Started
    }

    method StopAccepting()
      modifies this
      ensures state == if old(state) == Started then Stopping else old(state)
      ensures !Accepting()
    {
      if state == Started {
        state := Stopping;
      }
    }

    /**
     Submit: validation, INSERT, and on a conflicting key the follow-up SELECT.  Either statement may fail, and
     an INSERT that fails for the caller may have taken effect.
     */
    method Submit(store: Store, name: string, key: string, scope: string, policy: RetryPolicy, id: Id,
                  createdAt: Time, insert: Fate, between: Others, selects: bool) returns (r: Result<Id, SubmitError>)
      requires id !in store.rows
      modifies store
      ensures !Accepting() ==> r == Err(Unavailable)
      ensures r == Err(InvalidOperation) <==>
                Accepting() && (Blank(name) || (!Blank(key) && Blank(scope)) || NormalizeRetry(policy).Err?)
      ensures r == Err(InvalidOperation) || !Accepting() ==> store.rows == old(store.rows)
      ensures Accepting() && r != Err(InvalidOperation) ==>
                var t := Triple(TrimSpace(scope), TrimSpace(name), TrimSpace(key));
                var p := NormalizeRetry(policy).value;
                var request := Request(t, p.maxAttempts, p.initialBackoff / MILLISECOND, p.maxBackoff / MILLISECOND);
                && ValidRequest(request)
                && (insert.Lost? ==> store.rows == old(store.rows) && r == Err(Unavailable))
                && (!insert.Lost? && !RowConflict(old(store.rows), t) ==>
                      && store.rows == old(store.rows)[id := NewRow(request, createdAt)]
                      && r == if insert.Applied? then Ok(id) else Err(Unavailable))
                && (insert.InDoubt? && RowConflict(old(store.rows), t) ==>
                    store.rows == old(store.rows) && r == Err(Unavailable))
                && (insert.Applied? && RowConflict(old(store.rows), t) ==>
                      && store.rows == between.rows
                      && (r.Ok? ==> r.value in store.rows && Matches(store.rows[r.value], t))
                      && (r.Ok? <==> selects && exists other :: other in store.rows && Matches(store.rows[other], t)))
    {
      if !Accepting() {
        return Err(Unavailable);
      }
      var trimmed := TrimSpace(name);
      if trimmed == "" {
        return Err(InvalidOperation);
      }
      var trimmedKey, trimmedScope := TrimSpace(key), TrimSpace(scope);
      if trimmedKey != "" && trimmedScope == "" {
        return Err(InvalidOperation);
      }
      var normalized := NormalizeRetry(policy);
      if normalized.Err? {
        return Err(normalized.error);
      }
      var t := Triple(trimmedScope, trimmed, trimmedKey);
      var p := normalized.value;
      var request := Request(t, p.maxAttempts, p.initialBackoff / MILLISECOND, p.maxBackoff / MILLISECOND);
      if insert.Lost? {
        return Err(Unavailable);
      }
      var inserted := store.Insert(id, request, createdAt);
      if insert.InDoubt? {
        return Err(Unavailable);
      }
      if inserted {
        return Ok(id);
      }
      store.Interfere(between.rows, between.later);
      if !selects {
        return Err(Unavailable);
      }
      var found := store.SelectByKey(t);
      if found.None? {
        return Err(Unavailable);
      }
      return Ok(found.value);
    }

    /** run: one delivery, from the handler call to its last statement. */
    method Run(store: Store, owner: Owner, d: Delivery, name: string, script: Script) returns (log: seq<Act>)
      requires 0 <= d.initialBackoffMs && 0 <= d.maxBackoffMs
      modifies store
      ensures name in names ==> Went(Handling(d), log, Idle, old(store.issued), store.issued)
      ensures name in names ==>
                var now := store.now;
                if script.outcome.Returned? && script.ended.Live? && script.encodes && script.success.Applied? then
                  var result := script.outcome.result;
                  EndsRow(script.beforeSuccess.rows, store.rows, d, owner,
                          (was: Row, end: Row) => IsSucceeded(was, now, result, end))
                else if script.finish.Lost? then
                  store.rows == script.beforeFinish.rows
                else
                  var accepting := script.accepting;
                  var cause := Cause(if script.outcome.Errored? then script.outcome.permanent else Option.None,
                                     script.ended.Canceled?, script.ended.DeadlineExceeded?);
                  EndsRow(script.beforeFinish.rows, store.rows, d, owner,
                          (was: Row, end: Row) => ConcludedAs(was, now, d, cause, accepting, end))
      ensures name !in names ==>
                && log == []
                && (script.finish.Lost? ==> store.rows == old(store.rows))
                && (!script.finish.Lost? ==>
                      var now := store.now;
                      EndsRow(old(store.rows), store.rows, d, owner,
                              (was: Row, end: Row) => IsHandedBack(was, now, end)))
                && store.issued == old(store.issued) + Sent(d, owner, HandBack, script.finish)
    {
      log := [];
      if name !in names { // no handler
        Issue(store, owner, d, HandBack, script.finish);
        return;
      }
      ghost var before := store.issued;
      var handled := Handle(store, owner, d, script);
      if script.outcome.Returned? && script.ended.Live? && script.encodes && script.success.Applied? {
        return handled; // stored, or ErrOperationFinished
      }
      ghost var between := store.issued;
      var rest := Conclude(store, owner, d, CauseOf(script), script.accepting, script.beforeFinish, script.finish);
      WentJoin(Handling(d), handled, Recovering(d, CauseOf(script)), rest, Idle, before, between, store.issued);
      log := handled + rest;
    }

    /** The first half of run: the handler call, and the success statement when it returned a value in time. */
    method Handle(store: Store, owner: Owner, d: Delivery, script: Script) returns (log: seq<Act>)
      modifies store
      ensures Went(Handling(d), log,
                   if Succeeds(script) && script.success.Applied? then Idle else Recovering(d, CauseOf(script)),
                   old(store.issued), store.issued)
      ensures script.outcome.Returned? && script.ended.Live? && script.encodes && !script.success.Lost? ==>
                var now, result := store.now, script.outcome.result;
                EndsRow(script.beforeSuccess.rows, store.rows, d, owner,
                        (was: Row, end: Row) => IsSucceeded(was, now, result, end))
      ensures script.outcome.Returned? && script.ended.Live? && script.encodes && script.success.Lost? ==>
          store.rows == script.beforeSuccess.rows
      ensures !(script.outcome.Returned? && script.ended.Live? && script.encodes) ==> store.rows == old(store.rows)
    {
      ghost var before := store.issued;
      if script.outcome.Returned? && script.ended.Live? && script.encodes {
        var result := script.outcome.result;
        var handled, stored :=
            Act(HandlerSucceeds(owner, result), true, d), Act(StoreSuccess(owner, script.success), true, d);
        store.Interfere(script.beforeSuccess.rows, script.beforeSuccess.later);
        Issue(store, owner, d, Effect.Succeed(result), script.success);
        WentTwo(Handling(d), handled, Storing(d, result), stored,
                if script.success.Applied? then Idle else Recovering(d, CauseOf(script)), before);
        assert before + [] == before;
        return [handled, stored];
      }
      var permanent := if script.outcome.Errored? then script.outcome.permanent else None;
      var failed := Act(HandlerFails(owner, Cause(permanent, script.ended.Canceled?, script.ended.DeadlineExceeded?)),
          true, d);
      WentOne(Handling(d), failed, Recovering(d, CauseOf(script)), before);
      assert before + [] == before;
      return [failed];
    }

    /** The rest of run once a delivery was not stored as a success: hand back, retry or fail. */
    method Conclude(store: Store, owner: Owner, d: Delivery, cause: Cause, accepting: bool, before: Others, fate: Fate)
      returns (log: seq<Act>)
      requires 0 <= d.initialBackoffMs && 0 <= d.maxBackoffMs
      modifies store
      ensures Went(Recovering(d, cause), log, Idle, old(store.issued), store.issued)
      ensures fate.Lost? ==> store.rows == before.rows
      ensures !fate.Lost? ==>
                var now := store.now;
                EndsRow(before.rows, store.rows, d, owner,
                        (was: Row, end: Row) => ConcludedAs(was, now, d, cause, accepting, end))
    {
      var decide, finish := Act(Decide(owner), accepting, d), Act(Finish(owner, fate), accepting, d);
      WentTwo(Recovering(d, cause), decide, Finishing(d, Verdict(d, cause, accepting)), finish, Idle, store.issued);
      assert store.issued + [] == store.issued;
      log := [decide, finish];
      store.Interfere(before.rows, before.later);
      Concludes(before.rows, d, owner, cause, accepting, store.now);
      if cause.canceled && !accepting {
        Issue(store, owner, d, HandBack, fate);
        return;
      }
      if cause.permanent.None? && d.attempt < d.maxAttempts {
        var backoff := RetryBackoff(d.attempt, d.initialBackoffMs, d.maxBackoffMs);
        Issue(store, owner, d, Effect.Retry(backoff), fate);
        return;
      }
      var publicErr := OperationError("operation_failed", "The operation could not be completed");
      if cause.permanent.Some? {
        publicErr := Published(cause.permanent.value);
      } else if cause.deadline {
        publicErr := OperationError("operation_timeout", "The operation timed out");
      }
      Issue(store, owner, d, Effect.Fail(publicErr), fate);
    }

    /** One owned UPDATE with the fate the script chooses. */
    method Issue(store: Store, owner: Owner, d: Delivery, effect: Effect, fate: Fate)
      modifies store`rows, store`issued
      ensures store.rows == Written(old(store.rows), d, owner, effect, fate, store.now)
      ensures store.issued == old(store.issued) + Sent(d, owner, effect, fate)
    {
      if !fate.Lost? {
        var matched := store.Update(d.id, owner, d.attempt, effect);
      }
    }

    /**
     worker: lease and run, one delivery at a time, until accepting() is false.  The script ends when
     nobody looks any further.
     */
    method Worker(store: Store, index: nat, script: seq<Iteration>) returns (log: seq<Act>)
      modifies this, store
      ensures
        || Went(Idle, log, Idle, old(store.issued), store.issued)
        || (Went(Idle, log, Exited, old(store.issued), store.issued) && !Accepting())
    {
      var owner := Owner(instance, index);
      ghost var start := store.issued;
      log := [];
      WentNowhere(Idle, start);
      var k := 0;
      while k < |script|
        invariant 0 <= k <= |script|
        invariant Went(Idle, log, Idle, start, store.issued)
      {
        var it := script[k];
        if it.stopped {
          StopAccepting();
        }
        ghost var between := store.issued;
        var part := Iterate(store, owner, it);
        WentJoin(Idle, log, Idle, part, if Accepting() then Idle else Exited, start, between, store.issued);
        log := log + part;
        if !Accepting() {
          return;
        }
        k := k + 1;
      }
    }

    /** One pass of the worker loop. */
    method Iterate(store: Store, owner: Owner, it: Iteration) returns (log: seq<Act>)
      modifies store
      ensures Went(Idle, log, if Accepting() then Idle else Exited, old(store.issued), store.issued)
    {
      ghost var before := store.issued;
      var check := Act(Check(owner), Accepting(), NO_DELIVERY);
      WentOne(Idle, check, if Accepting() then Cleared else Exited, before);
      assert before + [] == before;
      log := [check];
      if !Accepting() {
        return;
      }
      store.Interfere(it.beforeSweep.rows, it.beforeSweep.later);
      var rest := LeaseAndRun(store, owner, it);
      WentJoin(Idle, [check], Cleared, rest, Idle, before, before, store.issued);
      log := log + rest;
    }

    /** lease, and run when it returned a delivery. */
    method LeaseAndRun(store: Store, owner: Owner, it: Iteration) returns (log: seq<Act>)
      modifies store
      ensures Went(Cleared, log, Idle, old(store.issued), store.issued)
    {
      ghost var before := store.issued;
      var sweep := Act(Sweep(owner, it.sweep), true, NO_DELIVERY);
      if !it.sweep.Lost? {
        store.Sweep();
      }
      WentOne(Cleared, sweep, if it.sweep.Applied? then Swept else Idle, before);
      assert before + [] == before;
      log := [sweep];
      if !it.sweep.Applied? {
        return;
      }
      ghost var between := store.issued;
      store.Interfere(it.beforeLease.rows, it.beforeLease.later);
      var rest := Grasp(store, owner, it);
      WentJoin(Cleared, [sweep], Swept, rest, Idle, before, between, store.issued);
      log := log + rest;
    }

    /** The lease query, and the delivery it returned. */
    method Grasp(store: Store, owner: Owner, it: Iteration) returns (log: seq<Act>)
      modifies store
      ensures Went(Swept, log, Idle, old(store.issued), store.issued) && log != []
      ensures log[0].step.FindNothing? ==>
          forall id :: !Available(old(store.rows), names, it.locked, old(store.now), id)
      ensures log[0].step.Grab? ==>
                && Available(old(store.rows), names, it.locked, old(store.now), log[0].step.id)
                && forall id :: Available(old(store.rows), names, it.locked, old(store.now), id) ==>
                     NotAfter(old(store.rows)[log[0].step.id], old(store.rows)[id])
      ensures log[0].step.Grab? ==>
                var row, now := old(store.rows)[log[0].step.id], old(store.now);
                || (row.status.Waiting() && row.nextAttemptAt.Some? && row.nextAttemptAt.value <= now)
                || (row.status.Running? && row.leaseExpiresAt.Some? && row.leaseExpiresAt.value <= now
                    && row.attempt < row.maxAttempts)
      ensures log[0].step.Grab? ==>
                var d, row := log[0].granted, old(store.rows)[log[0].step.id];
                && d.id == log[0].step.id && d.attempt == row.attempt + 1 && d.maxAttempts == row.maxAttempts
                && (0 <= row.initialBackoffMs <= row.maxBackoffMs ==>
                    d.initialBackoffMs == row.initialBackoffMs && d.maxBackoffMs == row.maxBackoffMs)
    {
      ghost var before := store.issued;
      if it.lease.Lost? {
        WentOne(Swept, Act(GrabError(owner), true, NO_DELIVERY), Idle, before);
        assert before + [] == before;
        return [Act(GrabError(owner), true, NO_DELIVERY)];
      }
      ghost var rows, now := store.rows, store.now;
      var found := store.Lease(owner, names, it.leaseMs, it.locked);
      ghost var between := store.issued;
      if found.None? {
        assert store.now == now;
        assert forall id :: !Available(rows, names, it.locked, now, id);
        WentOne(Swept, Act(FindNothing(owner, it.locked), true, NO_DELIVERY), Idle, before);
        return [Act(FindNothing(owner, it.locked), true, NO_DELIVERY)];
      }
      var d := Read(store.rows[found.value], found.value, it.ticket);
      var grab := Act(Grab(owner, found.value, it.leaseMs, it.locked, it.lease), true, d);
      WentOne(Swept, grab, if it.lease.Applied? then Handling(d) else Idle, before);
      log := [grab];
      if it.lease.Applied? {
        var rest := Run(store, owner, d, store.rows[found.value].name, it.script);
        WentJoin(Swept, [grab], Handling(d), rest, Idle, before, between, store.issued);
        log := log + rest;
      }
    }

    /**
     Shutdown: wait for the workers, or at the deadline hand back every lease of this instance.
     */
    method Shutdown(store: Store, drained: bool, before: Others) returns (r: Result<(), ShutdownError>)
      modifies this, store
      ensures old(state) == Created ==> r == Err(NotStarted) && state == Created && store.rows == old(store.rows)
      ensures old(state) == Stopped ==> r == Ok(()) && state == Stopped && store.rows == old(store.rows)
      ensures old(state) == Started || old(state) == Stopping ==>
                && state == Stopped
                && (r == Ok(()) <==> drained)
                && store.rows == if drained then before.rows else ReleaseRows(before.rows, instance, store.now)
    {
      if state == Created {
        return Err(NotStarted);
      }
      if state == Stopped {
        return Ok(());
      }
      StopAccepting();
      store.Interfere(before.rows, before.later);
      if !drained {
        store.ReleaseInstanceLeases(instance);
      }
      state := Stopped;
      r := if drained then Ok(()) else Err(DeadlinePassed);
    }
  }
}
