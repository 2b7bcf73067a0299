/**
 What the guard before retry is for (contrib/asyncpostgres/executor.go).  The SQL statements alone do not keep the
 delivery budget; this module runs them on one row with nothing but their WHERE clauses.
 */
module LeaseBudget {
  import opened LeaseRow

  /**
   When the WHERE clause of a statement matches; unlike Permitted, nothing here asks whether a retry is within the
   budget.
   */
  predicate Matched(row: Row, effect: Effect, now: Time) {
    if effect.Retry? then row.status.Running? else Permitted(row, effect, now)
  }

  datatype Timed = Timed(effect: Effect, now: Time)

  /** Statements on one row, each of which matches when it is issued. */
  predicate RowRun(row: Row, run: seq<Timed>)
    decreases |run|
  {
    run == [] || (Matched(row, run[0].effect, run[0].now) &&
        RowRun(AffectRow(row, run[0].effect, run[0].now), run[1..]))
  }

  function RowAfter(row: Row, run: seq<Timed>): Row
    decreases |run|
  {
    if run == [] then row else RowAfter(AffectRow(row, run[0].effect, run[0].now), run[1..])
  }

  /** The guard: every retry was issued with an attempt left. */
  predicate Guarded(row: Row, run: seq<Timed>)
    decreases |run|
  {
    run == [] ||
    ((run[0].effect.Retry? ==> row.attempt < row.maxAttempts) &&
        Guarded(AffectRow(row, run[0].effect, run[0].now), run[1..]))
  }

  /** The budget holds after every statement of the run. */
  predicate BudgetThroughout(row: Row, run: seq<Timed>)
    decreases |run|
  {
    Budget(row) && (run == [] || BudgetThroughout(AffectRow(row, run[0].effect, run[0].now), run[1..]))
  }

  lemma RetryKeepsBudgetIff(row: Row, backoffMs: int, now: Time)
    requires SchemaChecks(row) && Shape(row) && Budget(row) && row.status.Running?
    ensures Budget(AffectRow(row, Retry(backoffMs), now)) <==> row.attempt < row.maxAttempts
  {
  }

  /**
   The guard before retry is what keeps the budget: along every run of statements on a row the one holds exactly as the
   other.
   */
  lemma {:induction false} GuardKeepsBudget(row: Row, run: seq<Timed>)
    requires SchemaChecks(row) && Shape(row) && Budget(row) && RowRun(row, run)
    ensures BudgetThroughout(row, run) <==> Guarded(row, run)
    decreases |run|
  {
    if run != [] {
      var effect, now := run[0].effect, run[0].now;
      if effect.Retry? {
        RetryKeepsBudgetIff(row, effect.backoffMs, now);
      }
      if Permitted(row, effect, now) {
        AffectKeepsRow(row, effect, now);
        GuardKeepsBudget(AffectRow(row, effect, now), run[1..]);
      }
    }
  }

  /**
   Without the guard every operation can be delivered beyond its budget: a retry of its last delivery and one more lease
   are all matched by their WHERE clauses and end at max_attempts + 1.
   */
  lemma UnguardedOverruns(row: Row, owner: Owner, leaseMs: int, backoffMs: nat, now: Time) returns (run: seq<Timed>)
    requires SchemaChecks(row) && Shape(row) && row.status.Running? && row.attempt == row.maxAttempts
    ensures RowRun(row, run) && !Guarded(row, run) && |run| == 2
    ensures RowAfter(row, run).status.Running? && RowAfter(row, run).attempt == row.maxAttempts + 1
  {
    var retry, lease := Timed(Retry(backoffMs), now),
        Timed(Effect.Lease(owner, leaseMs), now + Milliseconds(backoffMs));
    run := [retry, lease];
    var waiting := AffectRow(row, retry.effect, retry.now);
    var rest: seq<Timed> := [lease];
    assert run[1..] == rest && rest[1..] == [];
    assert Leasable(waiting, lease.now);
    assert RowRun(waiting, rest) && RowAfter(waiting, rest) == AffectRow(waiting, lease.effect, lease.now);
  }

  /** The shortest case: lease, retry, lease on a new operation with one attempt ends at attempt 2. */
  lemma OneAttemptTwice(row: Row, owner: Owner, leaseMs: int) returns (run: seq<Timed>)
    requires SchemaChecks(row) && Shape(row) && row.status.Pending? && row.maxAttempts == 1
    ensures RowRun(row, run) && |run| == 3 && RowAfter(row, run).attempt == 2
  {
    var first := Timed(Effect.Lease(owner, leaseMs), row.nextAttemptAt.value);
    var held := AffectRow(row, first.effect, first.now);
    var rest := UnguardedOverruns(held, owner, leaseMs, 0, first.now);
    run := [first] + rest;
    assert run[1..] == rest;
  }
}
