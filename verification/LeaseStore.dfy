/**
 The operation table and its SQL statements (contrib/asyncpostgres/store.go).  Each method is one
 statement, specified by a function on the rows; StatementsAgree ties these functions to the steps
 of the lease protocol.
 */
module LeaseStore {
  import opened Prelude
  import opened Operations
  import opened LeaseRow
  import opened LeaseProtocol
  import opened LeaseInvariants
  import opened LeaseOutcome

  type Rows = map<Id, Row>

  // ----- statements as functions on the rows -----

  function UpdateWhere(rows: Rows, id: Id, guard: bool, effect: Effect, now: Time): Rows
    requires guard ==> id in rows
  {
    if guard then rows[id := AffectRow(rows[id], effect, now)] else rows
  }

  /** UPDATE ... WHERE id AND lease_owner AND attempt AND status = 'running'. */
  function UpdateOwned(rows: Rows, id: Id, owner: Owner, attempt: int, effect: Effect, now: Time): Rows {
    UpdateWhere(rows, id, id in rows && Owned(rows[id], owner, attempt), effect, now)
  }

  function SweepRows(rows: Rows, now: Time): Rows {
    map id | id in rows :: if Exhausted(rows[id], now) then AffectRow(rows[id], Effect.Expire, now) else rows[id]
  }

  function ReleaseRows(rows: Rows, instance: string, now: Time): Rows {
    map id | id in rows :: if HeldBy(rows[id], instance) then AffectRow(rows[id], HandBack, now) else rows[id]
  }

  predicate Available(rows: Rows, names: set<string>, locked: set<Id>, now: Time, id: Id) {
    id in rows && id !in locked && rows[id].name in names && Leasable(rows[id], now)
  }

  predicate RowConflict(rows: Rows, t: Triple) {
    t.key != "" && exists id :: id in rows && Matches(rows[id], t)
  }

  /** A statement of the lease cycle as the database executed it. */
  datatype Command =
    | SweepAll
    | LeaseFound(owner: Owner, leaseMs: int, id: Id)
    | LeaseNothing(owner: Owner)
    | UpdateOne(id: Id, owner: Owner, attempt: int, effect: Effect)
    | ReleaseAll(instance: string)

  function Execute(rows: Rows, command: Command, now: Time): Rows {
    match command
    case SweepAll => SweepRows(rows, now)
    case LeaseFound(owner, leaseMs, id) => UpdateWhere(rows, id, id in rows, Effect.Lease(owner, leaseMs), now)
    case LeaseNothing(_) => rows
    case UpdateOne(id, owner, attempt, effect) => UpdateOwned(rows, id, owner, attempt, effect, now)
    case ReleaseAll(instance) => ReleaseRows(rows, instance, now)
  }

  // ----- the table -----

  class Store {
    var rows: Rows
    var now: Time
    ghost var issued: seq<Command> // the statements of the lease cycle executed here so far

    constructor ()
      ensures rows == map[] && now == 0 && issued == []
    {
      rows := map[];
      now := 0;
      issued := [];
    }

    /** Whatever other connections did in the meantime; the clock does not run backwards. */
    method Interfere(others: Rows, later: Time)
      modifies this`rows, this`now
      ensures rows == others && now == Max(old(now), later)
    {
      rows := others;
      now := Max(now, later);
    }

    method Insert(id: Id, request: Request, createdAt: Time) returns (inserted: bool)
      requires id !in rows
      modifies this`rows
      ensures inserted <==> !RowConflict(old(rows), request.triple)
      ensures rows == if inserted then old(rows)[id := NewRow(request, createdAt)] else old(rows)
    {
      inserted := request.triple.key == "" || forall other :: other in rows ==> !Matches(rows[other], request.triple);
      if inserted {
        rows := rows[id := NewRow(request, createdAt)];
      }
    }

    method SelectByKey(t: Triple) returns (found: Option<Id>)
      ensures found.Some? ==> found.value in rows && Matches(rows[found.value], t)
      ensures found.None? ==> forall id :: id in rows ==> !Matches(rows[id], t)
    {
      found := None;
      var left := rows.Keys;
      while left != {}
        invariant left <= rows.Keys
        invariant found.Some? ==> found.value in rows && Matches(rows[found.value], t)
        invariant found.None? ==> forall id :: id in rows && id !in left ==> !Matches(rows[id], t)
        decreases left
      {
        var id :| id in left;
        left := left - {id};
        if Matches(rows[id], t) {
          found := Some(id);
        }
      }
    }

    /** Cancel: true when a row was cancelled; otherwise `exists` tells a finished row from an unknown id. */
    method Cancel(id: Id) returns (cancelled: bool, known: bool)
      modifies this`rows
      ensures cancelled <==> id in old(rows) && Open(old(rows)[id])
      ensures known <==> id in old(rows)
      ensures rows == UpdateWhere(old(rows), id, cancelled, Effect.Cancel, now)
    {
      known := id in rows;
      cancelled := known && Open(rows[id]);
      if cancelled {
        rows := rows[id := AffectRow(rows[id], Effect.Cancel, now)];
      }
    }

    /** First statement of lease: fail the running rows whose last delivery ran out. */
    method Sweep()
      modifies this`rows, this`issued
      ensures rows == SweepRows(old(rows), now)
      ensures issued == old(issued) + [SweepAll]
    {
      issued := issued + [SweepAll];
      var left, done := rows.Keys, rows;
      while left != {}
        invariant left <= rows.Keys == done.Keys
        invariant rows == old(rows)
        invariant forall id :: id in rows ==>
                    done[id] == if id in left then rows[id] else SweepRows(rows, now)[id]
        decreases left
      {
        var id :| id in left;
        left := left - {id};
        if Exhausted(rows[id], now) {
          done := done[id := AffectRow(rows[id], Effect.Expire, now)];
        }
      }
      rows := done;
    }

    /**
     Second statement of lease: the first unlocked candidate in due order gets a new lease.  Rows
     locked by concurrent lease calls are skipped.
     */
    method Lease(owner: Owner, names: set<string>, leaseMs: int, locked: set<Id>) returns (found: Option<Id>)
      modifies this`rows, this`issued
      ensures issued == old(issued) +
          [if found.Some? then LeaseFound(owner, leaseMs, found.value) else LeaseNothing(owner)]
      ensures found.None? ==> forall id :: !Available(old(rows), names, locked, now, id)
      ensures found.None? ==> rows == old(rows)
      ensures found.Some? ==>
                && Available(old(rows), names, locked, now, found.value)
                && (forall id :: Available(old(rows), names, locked, now, id) ==>
                      NotAfter(old(rows)[found.value], old(rows)[id]))
                && rows == old(rows)[found.value :=
                    AffectRow(old(rows)[found.value], Effect.Lease(owner, leaseMs), now)]
      ensures found.Some? ==>
                var was := old(rows)[found.value];
                && was.name in names && found.value !in locked
                && (|| (was.status.Waiting() && was.nextAttemptAt.Some? && was.nextAttemptAt.value <= now)
                    || (was.status.Running? && was.leaseExpiresAt.Some? && was.leaseExpiresAt.value <= now
                        && was.attempt < was.maxAttempts))
                && IsLeased(was, now, owner, leaseMs, rows[found.value])
    {
      found := None;
      var left := rows.Keys;
      while left != {}
        invariant left <= rows.Keys
        invariant rows == old(rows)
        invariant found.None? ==> forall id :: id !in left ==> !Available(rows, names, locked, now, id)
        invariant found.Some? ==>
                    && Available(rows, names, locked, now, found.value)
                    && (forall id :: id !in left && Available(rows, names, locked, now, id) ==>
                          NotAfter(rows[found.value], rows[id]))
        decreases left
      {
        var id :| id in left;
        left := left - {id};
        if Available(rows, names, locked, now, id) && (found.None? || NotAfter(rows[id], rows[found.value])) {
          found := Some(id);
        }
      }
      if found.Some? {
        rows := rows[found.value := AffectRow(rows[found.value], Effect.Lease(owner, leaseMs), now)];
      }
      issued := issued + [if found.Some? then LeaseFound(owner, leaseMs, found.value) else LeaseNothing(owner)];
    }

    /** progress, extendLease, succeed, retry, fail and releaseLease; false is ErrOperationFinished. */
    method Update(id: Id, owner: Owner, attempt: int, effect: Effect) returns (matched: bool)
      modifies this`rows, this`issued
      ensures issued == old(issued) + [UpdateOne(id, owner, attempt, effect)]
      ensures matched <==> id in old(rows) && Owned(old(rows)[id], owner, attempt)
      ensures rows == UpdateOwned(old(rows), id, owner, attempt, effect, now)
    {
      matched := id in rows && rows[id].leaseOwner == Some(owner) && rows[id].attempt == attempt &&
          rows[id].status == Running;
      if matched {
        rows := rows[id := AffectRow(rows[id], effect, now)];
      }
      issued := issued + [UpdateOne(id, owner, attempt, effect)];
    }

    /** Progress checks its range before it touches the table. */
    method Progress(id: Id, owner: Owner, attempt: int, progress: int) returns (valid: bool, matched: bool)
      modifies this`rows, this`issued
      ensures valid <==> 0 <= progress <= 100
      ensures matched <==> valid && id in old(rows) && Owned(old(rows)[id], owner, attempt)
      ensures rows == if valid then UpdateOwned(old(rows), id, owner, attempt, Effect.Progress(progress), now)
          else old(rows)
    {
      valid, matched := 0 <= progress <= 100, false;
      if valid {
        matched := Update(id, owner, attempt, Effect.Progress(progress));
      }
    }

    method ReleaseInstanceLeases(instance: string)
      modifies this`rows, this`issued
      ensures rows == ReleaseRows(old(rows), instance, now)
      ensures issued == old(issued) + [ReleaseAll(instance)]
    {
      issued := issued + [ReleaseAll(instance)];
      var left, done := rows.Keys, rows;
      while left != {}
        invariant left <= rows.Keys == done.Keys
        invariant rows == old(rows)
        invariant forall id :: id in rows ==>
                    done[id] == if id in left then rows[id] else ReleaseRows(rows, instance, now)[id]
        decreases left
      {
        var id :| id in left;
        left := left - {id};
        if HeldBy(rows[id], instance) {
          done := done[id := AffectRow(rows[id], HandBack, now)];
        }
      }
      rows := done;
    }
  }

  // ----- agreement with the protocol -----

  function RowsOf(s: Sys): Rows {
    map id | id in s.table :: s.table[id].row
  }

  /** What the statements of a protocol step do to the rows, in the store's terms. */
  ghost function StatementRows(s: Sys, step: Step): Rows
    requires Enabled(s, step) && WorkersOk(s)
  {
    var rows := RowsOf(s);
    match step
    case Insert(_, id, request, createdAt, _) =>
      if RowConflict(rows, request.triple) then rows else rows[id := NewRow(request, createdAt)]
    case CancelOperation(id) => UpdateWhere(rows, id, id in rows && Open(rows[id]), Effect.Cancel, s.now)
    case Sweep(_, fate) => if fate.Lost? then rows else SweepRows(rows, s.now)
    case Grab(w, id, leaseMs, _, fate) =>
      if fate.Lost? then rows else UpdateWhere(rows, id, true, Effect.Lease(w, leaseMs), s.now)
    case ReportProgress(id, ticket, progress) =>
      var g := s.table[id].grants[ticket];
      UpdateOwned(rows, id, g.owner, g.attempt, Effect.Progress(progress), s.now)
    case Renew(id, ticket, leaseMs) =>
      var g := s.table[id].grants[ticket];
      UpdateOwned(rows, id, g.owner, g.attempt, Effect.Extend(leaseMs), s.now)
    case StoreSuccess(w, fate) =>
      var phase := PhaseOf(s, w);
      if fate.Lost? then rows
      else UpdateOwned(rows, phase.d.id, w, phase.d.attempt, Effect.Succeed(phase.result), s.now)
    case Finish(w, fate) =>
      var phase := PhaseOf(s, w);
      if fate.Lost? then rows
      else UpdateOwned(rows, phase.d.id, w, phase.d.attempt, StatementEffect(phase.d, phase.statement), s.now)
    case ReleaseInstance(instance) => ReleaseRows(rows, instance, s.now)
    case _ => rows
  }

  lemma ConflictAgrees(s: Sys, t: Triple)
    ensures RowConflict(RowsOf(s), t) <==> Conflict(s.table, t)
  {
    if RowConflict(RowsOf(s), t) {
      var id :| id in RowsOf(s) && Matches(RowsOf(s)[id], t);
      assert id in s.table && Matches(s.table[id].row, t);
    }
    if Conflict(s.table, t) {
      var id :| id in s.table && Matches(s.table[id].row, t);
      assert id in RowsOf(s) && Matches(RowsOf(s)[id], t);
    }
  }

  lemma RowAgrees(s: Sys, step: Step, id: Id)
    requires Enabled(s, step) && WorkersOk(s) && id in s.table
    ensures id in StatementRows(s, step) && id in Apply(s, step).table
    ensures Apply(s, step).table[id].row == StatementRows(s, step)[id]
  {
    EntryAfter(s, step, id);
    assert RowsOf(s)[id] == s.table[id].row;
    AffectedRow(s.table[id], EffectOn(s, step, id), s.now);
    if Actor(step).Some? {
      assert WorkerOk(s, step.w);
      WorkerRow(s, step, id);
    } else {
      OtherRow(s, step, id);
    }
  }

  lemma WorkerRow(s: Sys, step: Step, id: Id)
    requires Enabled(s, step) && WorkersOk(s) && id in s.table && Actor(step).Some? && WorkerOk(s, step.w)
    ensures id in StatementRows(s, step) &&
        StatementRows(s, step)[id] == AffectRow(s.table[id].row, EffectOn(s, step, id), s.now)
  {
    assert RowsOf(s)[id] == s.table[id].row;
  }

  lemma OtherRow(s: Sys, step: Step, id: Id)
    requires Enabled(s, step) && WorkersOk(s) && id in s.table && Actor(step).None?
    ensures id in StatementRows(s, step) &&
        StatementRows(s, step)[id] == AffectRow(s.table[id].row, EffectOn(s, step, id), s.now)
  {
    assert RowsOf(s)[id] == s.table[id].row;
  }

  lemma AffectedRow(e: Entry, effect: Effect, now: int)
    ensures Affect(e, effect, now).row == AffectRow(e.row, effect, now)
  {
  }

  lemma RowsFromPoints(a: Rows, b: Rows)
    requires forall id :: id in a <==> id in b
    requires forall id :: id in a ==> a[id] == b[id]
    ensures a == b
  {
  }

  /** Every protocol step changes the rows exactly as the store's statements do. */
  lemma StatementsAgree(s: Sys, step: Step)
    requires Enabled(s, step) && WorkersOk(s)
    ensures RowsOf(Apply(s, step)) == StatementRows(s, step)
  {
    var after := RowsOf(Apply(s, step));
    if step.Insert? {
      ConflictAgrees(s, step.request.triple);
    }
    forall id | id in s.table ensures id in after && id in StatementRows(s, step) &&
        after[id] == StatementRows(s, step)[id] {
      RowAgrees(s, step, id);
    }
    forall id | id !in s.table
      ensures id in after <==> id in StatementRows(s, step)
      ensures id in after ==> after[id] == StatementRows(s, step)[id]
    {
      NewRowAgrees(s, step, id);
    }
    RowsFromPoints(after, StatementRows(s, step));
  }

  lemma NewRowAgrees(s: Sys, step: Step, id: Id)
    requires Enabled(s, step) && WorkersOk(s) && id !in s.table
    ensures id in Apply(s, step).table <==> id in StatementRows(s, step)
    ensures id in Apply(s, step).table ==> Apply(s, step).table[id].row == StatementRows(s, step)[id]
  {
    if step.Insert? {
      ConflictAgrees(s, step.request.triple);
    }
  }
}
