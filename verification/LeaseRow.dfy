/**
 One row of the durable operation table, and what each SQL statement of the lease
 protocol does to it (contrib/asyncpostgres/store.go).  Next to the row we keep the
 history of the leases granted on it; the history is read by no statement, it only
 lets the properties speak about past deliveries.
 */
module LeaseRow {
  import opened Prelude
  import opened Operations

  type Id = string
  type Time = int // microseconds, read from the database clock

  /** The owner text `<instance>:<worker>`; instance identifiers are hexadecimal, so the pair is unique. */
  datatype Owner = Owner(instance: string, worker: nat)

  datatype Status = Pending | Running | Retrying | Succeeded | Failed | Cancelled {
    predicate Terminal() {
      Succeeded? || Failed? || Cancelled?
    }

    predicate Waiting() {
      Pending? || Retrying?
    }
  }

  datatype Row = Row(
    name: string,
    status: Status,
    progress: int,
    result: Option<string>,
    error: Option<OperationError>,
    createdAt: Time,
    startedAt: Option<Time>,
    finishedAt: Option<Time>,
    nextAttemptAt: Option<Time>,
    attempt: int,
    maxAttempts: int,
    initialBackoffMs: int,
    maxBackoffMs: int,
    key: Option<string>,
    scope: Option<string>,
    leaseOwner: Option<Owner>,
    leaseExpiresAt: Option<Time>)

  /** One lease of a row: who got it, under which attempt number, and whether it was handed back. */
  datatype Grant = Grant(owner: Owner, attempt: int, returned: bool)

  datatype Entry = Entry(row: Row, grants: seq<Grant>)

  const EXHAUSTED := OperationError("operation_delivery_exhausted", "The operation could not be completed")

  function Milliseconds(n: int): Time {
    n * 1000
  }

  /** What one statement does to one row. */
  datatype Effect =
    | Keep
    | Cancel
    | Expire
    | Lease(owner: Owner, leaseMs: int)
    | Progress(progress: int)
    | Extend(leaseMs: int)
    | Succeed(result: string)
    | Retry(backoffMs: int)
    | Fail(error: OperationError)
    | HandBack

  function Unleased(row: Row): Row {
    row.(leaseOwner := None, leaseExpiresAt := None)
  }

  function AffectRow(row: Row, effect: Effect, now: Time): Row {
    match effect
    case Keep => row
    case Cancel =>
      Unleased(row).(status := Cancelled, finishedAt := Some(now), nextAttemptAt := None)
    case Expire =>
      Unleased(row).(status := Failed, finishedAt := Some(now), error := Some(EXHAUSTED))
    case Lease(owner, leaseMs) =>
      row.(status := Running, startedAt := if row.startedAt.None? then Some(now) else row.startedAt,
           attempt := row.attempt + 1, progress := 0, nextAttemptAt := None,
           leaseOwner := Some(owner), leaseExpiresAt := Some(now + Milliseconds(leaseMs)))
    case Progress(progress) =>
      row.(progress := progress)
    case Extend(leaseMs) =>
      row.(leaseExpiresAt := Some(now + Milliseconds(leaseMs)))
    case Succeed(result) =>
      Unleased(row).(status := Succeeded, progress := 100, result := Some(result), error := None,
                     finishedAt := Some(now))
    case Retry(backoffMs) =>
      Unleased(row).(status := Retrying, nextAttemptAt := Some(now + Milliseconds(backoffMs)),
                     progress := 0, error := None)
    case Fail(error) =>
      Unleased(row).(status := Failed, error := Some(error), finishedAt := Some(now))
    case HandBack =>
      Unleased(row).(status := Retrying, nextAttemptAt := Some(now), attempt := Max(row.attempt - 1, 0))
  }

  /** History: a lease adds a grant, a hand-back marks the most recent one as returned. */
  function Record(grants: seq<Grant>, row: Row, effect: Effect): (r: seq<Grant>)
    ensures |r| == |grants| + if effect.Lease? then 1 else 0
    ensures forall i :: 0 <= i < |grants| ==> r[i].owner == grants[i].owner && r[i].attempt == grants[i].attempt
  {
    match effect
    case Lease(owner, _) => grants + [Grant(owner, row.attempt + 1, false)]
    case HandBack =>
      if grants == [] then grants else grants[|grants| - 1 := Last(grants).(returned := true)]
    case _ => grants
  }

  function Affect(e: Entry, effect: Effect, now: Time): Entry {
    Entry(AffectRow(e.row, effect, now), Record(e.grants, e.row, effect))
  }

  /** What a submission asked for stays in its row for good. */
  predicate SameRequest(a: Row, b: Row) {
    && a.name == b.name && a.key == b.key && a.scope == b.scope && a.createdAt == b.createdAt
    && a.maxAttempts == b.maxAttempts && a.initialBackoffMs == b.initialBackoffMs && a.maxBackoffMs == b.maxBackoffMs
  }

  // ----- the WHERE clauses -----

  predicate Open(row: Row) {
    row.status.Pending? || row.status.Running? || row.status.Retrying?
  }

  predicate Exhausted(row: Row, now: Time) {
    row.status.Running? && row.leaseExpiresAt.Some? && row.leaseExpiresAt.value <= now &&
    row.attempt >= row.maxAttempts
  }

  /** The candidate condition of the lease query.  Waiting rows are not checked against the budget. */
  predicate Leasable(row: Row, now: Time) {
    || (row.status.Waiting() && row.nextAttemptAt.Some? && row.nextAttemptAt.value <= now)
    || (row.status.Running? && row.leaseExpiresAt.Some? && row.leaseExpiresAt.value <= now &&
        row.attempt < row.maxAttempts)
  }

  /** The fence shared by progress, extend, succeed, retry, fail and release. */
  predicate Owned(row: Row, owner: Owner, attempt: int) {
    row.leaseOwner == Some(owner) && row.attempt == attempt && row.status.Running?
  }

  predicate HeldBy(row: Row, instance: string) {
    row.status.Running? && row.leaseOwner.Some? && row.leaseOwner.value.instance == instance
  }

  // ----- what is invariant for one row -----

  /** The CHECK constraints of the table. */
  predicate SchemaChecks(row: Row) {
    && 0 <= row.progress <= 100
    && 0 <= row.attempt
    && 1 <= row.maxAttempts
    && 0 <= row.initialBackoffMs <= row.maxBackoffMs
  }

  /** Which nullable columns are set, as a function of the status. */
  predicate Shape(row: Row) {
    && (row.leaseOwner.Some? <==> row.status.Running?)
    && (row.leaseExpiresAt.Some? <==> row.status.Running?)
    && (row.nextAttemptAt.Some? <==> row.status.Waiting())
    && (row.finishedAt.Some? <==> row.status.Terminal())
    && (row.error.Some? <==> row.status.Failed?)
    && (row.result.Some? <==> row.status.Succeeded?)
    && (row.status.Succeeded? ==> row.progress == 100)
    && (row.status.Pending? ==> row.attempt == 0 && row.startedAt.None?)
    && (row.attempt > 0 ==> row.startedAt.Some?)
  }

  predicate Budget(row: Row) {
    && 0 <= row.attempt <= row.maxAttempts
    && (row.status.Running? ==> row.attempt >= 1)
    && (row.status.Waiting() ==> row.attempt < row.maxAttempts)
  }

  /** Attempt numbers of the grants never handed back, oldest first. */
  function Kept(grants: seq<Grant>): seq<int> {
    if grants == [] then []
    else Kept(Front(grants)) + if Last(grants).returned then [] else [Last(grants).attempt]
  }

  function UpTo(n: int): (r: seq<int>)
    requires n >= 0
    ensures |r| == n
    ensures forall i :: 0 <= i < n ==> r[i] == i + 1
  {
    seq(n, i => i + 1)
  }

  predicate EntryOk(e: Entry) {
    && SchemaChecks(e.row)
    && Shape(e.row)
    && Budget(e.row)
    && Kept(e.grants) == UpTo(e.row.attempt)
    && (e.row.status.Running? ==> Leads(e))
  }

  /** A running row is held under its most recent grant. */
  predicate Leads(e: Entry) {
    && |e.grants| > 0
    && e.row.leaseOwner.Some?
    && Last(e.grants) == Grant(e.row.leaseOwner.value, e.row.attempt, false)
  }

  /** When a statement that the executor issues can touch a row. */
  predicate Permitted(row: Row, effect: Effect, now: Time) {
    match effect
    case Keep => true
    case Cancel => Open(row)
    case Expire => Exhausted(row, now)
    case Lease(_, leaseMs) => Leasable(row, now)
    case Progress(progress) => row.status.Running? && 0 <= progress <= 100
    case Extend(leaseMs) => row.status.Running?
    case Succeed(_) => row.status.Running?
    case Retry(_) => row.status.Running? && row.attempt < row.maxAttempts
    case Fail(_) => row.status.Running?
    case HandBack => row.status.Running?
  }

  lemma {:induction false} KeptAppend(grants: seq<Grant>, g: Grant)
    ensures Kept(grants + [g]) == Kept(grants) + if g.returned then [] else [g.attempt]
  {
    assert Front(grants + [g]) == grants;
  }

  lemma {:induction false} KeptReturnLast(grants: seq<Grant>)
    requires |grants| > 0 && !Last(grants).returned
    ensures Kept(grants[|grants| - 1 := Last(grants).(returned := true)]) + [Last(grants).attempt] == Kept(grants)
  {
    var after := grants[|grants| - 1 := Last(grants).(returned := true)];
    assert Front(after) == Front(grants);
  }

  lemma AffectKeepsRow(row: Row, effect: Effect, now: Time)
    requires SchemaChecks(row) && Shape(row) && Budget(row) && Permitted(row, effect, now)
    ensures SchemaChecks(AffectRow(row, effect, now))
    ensures Shape(AffectRow(row, effect, now))
    ensures Budget(AffectRow(row, effect, now))
  {
  }

  lemma AffectKeepsLedger(e: Entry, effect: Effect, now: Time)
    requires EntryOk(e) && Permitted(e.row, effect, now)
    ensures Kept(Record(e.grants, e.row, effect)) == UpTo(AffectRow(e.row, effect, now).attempt)
  {
    if effect.Lease? {
      KeptAppend(e.grants, Grant(effect.owner, e.row.attempt + 1, false));
      assert UpTo(e.row.attempt) + [e.row.attempt + 1] == UpTo(e.row.attempt + 1);
    } else if effect.HandBack? {
      KeptReturnLast(e.grants);
      var kept := Kept(Record(e.grants, e.row, effect));
      assert kept + [e.row.attempt] == UpTo(e.row.attempt);
      assert kept == UpTo(e.row.attempt)[..e.row.attempt - 1];
    }
  }

  /** Every permitted statement keeps schema checks, shape, budget and the grant ledger. */
  lemma AffectKeepsEntryOk(e: Entry, effect: Effect, now: Time)
    requires EntryOk(e) && Permitted(e.row, effect, now)
    ensures EntryOk(Affect(e, effect, now))
  {
    AffectKeepsRow(e.row, effect, now);
    AffectKeepsLedger(e, effect, now);
  }

  /** No statement the executor issues changes a terminal row. */
  lemma TerminalFrozen(e: Entry, effect: Effect, now: Time)
    requires e.row.status.Terminal() && Permitted(e.row, effect, now)
    ensures Affect(e, effect, now) == e
  {
  }

  // ----- what the ledger says about deliveries -----

  function Returned(grants: seq<Grant>): nat {
    if grants == [] then 0
    else Returned(Front(grants)) + if Last(grants).returned then 1 else 0
  }

  lemma {:induction false} KeptCount(grants: seq<Grant>)
    ensures |Kept(grants)| == |grants| - Returned(grants)
  {
    if grants != [] {
      KeptCount(Front(grants));
    }
  }

  /** Every grant not handed back is listed by Kept, and two of them at different places. */
  lemma {:induction false} KeptAt(grants: seq<Grant>, i: nat) returns (k: nat)
    requires i < |grants| && !grants[i].returned
    ensures k == |Kept(grants[..i])|
    ensures k < |Kept(grants)| && Kept(grants)[k] == grants[i].attempt
  {
    if i == |grants| - 1 {
      assert grants[..i] == Front(grants);
      k := |Kept(Front(grants))|;
    } else {
      k := KeptAt(Front(grants), i);
      assert Front(grants)[..i] == grants[..i];
    }
  }

  lemma {:induction false} KeptMonotone(grants: seq<Grant>, i: nat, j: nat)
    requires i < j <= |grants| && !grants[i].returned
    ensures |Kept(grants[..i])| < |Kept(grants[..j])|
  {
    assert Front(grants[..j]) == grants[..j - 1];
    if i < j - 1 {
      KeptMonotone(grants, i, j - 1);
    }
  }

  /**
   Delivery budget: leases granted minus leases handed back is the attempt counter, deliveries
   never handed back carry distinct attempt numbers, and there are at most max_attempts of them.
   */
  lemma DeliveryBudget(e: Entry)
    requires EntryOk(e)
    ensures |e.grants| - Returned(e.grants) == e.row.attempt <= e.row.maxAttempts
    ensures forall i, j :: 0 <= i < j < |e.grants| && !e.grants[i].returned && !e.grants[j].returned
                           ==> e.grants[i].attempt < e.grants[j].attempt
  {
    KeptCount(e.grants);
    forall i, j | 0 <= i < j < |e.grants| && !e.grants[i].returned && !e.grants[j].returned
      ensures e.grants[i].attempt < e.grants[j].attempt
    {
      var ki := KeptAt(e.grants, i);
      var kj := KeptAt(e.grants, j);
      KeptMonotone(e.grants, i, j);
    }
  }
}
