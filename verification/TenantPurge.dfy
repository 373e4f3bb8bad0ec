/**
 * The tenant purge (tenantpurge.go): one transaction that deletes a tenant's rows table by table,
 * discovering the foreign-key order by retrying blocked tables on the next pass.
 */
module TenantPurge {
  import opened Common

  type Key = nat

  /** A row: its table, its id, its tenant_id when the table has one, and the rows it references. */
  datatype DbRow = DbRow(table: string, id: string, tenant: Option<string>, refs: set<Key>)

  type Db = map<Key, DbRow>

  const MAX_PASSES := 30
  const NIL_UUID := "00000000-0000-0000-0000-000000000000"

  function Elements<T>(s: seq<T>): set<T> {
    set x | x in s
  }

  /** The rows DELETE FROM table WHERE tenant_id = tenant removes. */
  function RowsIn(db: Db, table: string, tenant: string): set<Key> {
    set k | k in db && db[k].table == table && db[k].tenant == Some(tenant)
  }

  function Owned(db: Db, tables: set<string>, tenant: string): set<Key> {
    set k | k in db && db[k].table in tables && db[k].tenant == Some(tenant)
  }

  /** What the transaction sees once these tables have been cleared. */
  function Cleared(db: Db, tables: set<string>, tenant: string): Db {
    db - Owned(db, tables, tenant)
  }

  /** A NO ACTION key, checked when the statement ends: a row that stays references one that goes. */
  predicate Violates(db: Db, gone: set<Key>) {
    exists k | k in db && k !in gone :: !(db[k].refs !! gone)
  }

  predicate Free(db: Db, tenant: string, cleared: set<string>, table: string) {
    !Violates(Cleared(db, cleared, tenant), RowsIn(Cleared(db, cleared, tenant), table, tenant))
  }

  /** SQL errors other than a foreign-key violation, by the statement of the savepoint they hit. */
  datatype Fault = SavepointFails | DeleteFails | RollbackFails | ReleaseFails

  /** The faults by pass and table; pass 0 deletes the tenant's own rows, pass -1 asks whether their
      table exists. */
  type Faults = map<(int, string), Fault>

  const NO_FAULTS: Faults := map[]

  datatype Statement = Deleted(n: nat) | ForeignKey | SqlError

  /** How a delete of n rows inside a savepoint ends. Only a violation that could be rolled back is
      reported as one, and only a delete that could be released as a success. */
  function SavepointAnswer(fault: Option<Fault>, violates: bool, n: nat): Statement {
    match fault
    case None => if violates then ForeignKey else Deleted(n)
    case Some(RollbackFails) => if violates then SqlError else Deleted(n)
    case Some(ReleaseFails) => if violates then ForeignKey else SqlError
    case Some(_) => SqlError
  }

  function FaultAt(faults: Faults, pass: int, table: string): Option<Fault> {
    if (pass, table) in faults then Some(faults[(pass, table)]) else None
  }

  datatype PassResult = Passed(cleared: set<string>, blocked: seq<string>) | PassFailed(table: string)

  function PassOver(db: Db, tenant: string, faults: Faults, pass: int, cleared: set<string>, pending: seq<string>)
    : (res: PassResult)
    ensures res.Passed? ==> |res.blocked| <= |pending|
  {
    if pending == [] then Passed(cleared, [])
    else
      match PassOver(db, tenant, faults, pass, cleared, pending[..|pending| - 1])
      case PassFailed(t) => PassFailed(t)
      case Passed(soFar, blocked) => Attempt(db, tenant, faults, pass, soFar, blocked, pending[|pending| - 1])
  }

  function Attempt(db: Db, tenant: string, faults: Faults, pass: int, cleared: set<string>, blocked: seq<string>,
    table: string): PassResult
  {
    match SavepointAnswer(FaultAt(faults, pass, table), !Free(db, tenant, cleared, table), 0)
    case SqlError => PassFailed(table)
    case Deleted(_) => Passed(cleared + {table}, blocked)
    case ForeignKey => Passed(cleared, blocked + [table])
  }

  datatype LoopResult =
    | Done(cleared: set<string>)
    | Stuck(cleared: set<string>, blocked: seq<string>)
    | Capped(cleared: set<string>, blocked: seq<string>)
    | Failed(table: string)

  function Passes(db: Db, tenant: string, faults: Faults, cleared: set<string>, pending: seq<string>, pass: int)
    : LoopResult
    decreases |pending|
  {
    if pending == [] then Done(cleared)
    else if pass > MAX_PASSES then Capped(cleared, pending)
    else
      match PassOver(db, tenant, faults, pass, cleared, pending)
      case PassFailed(t) => Failed(t)
      case Passed(soFar, blocked) =>
        if |blocked| == |pending| then Stuck(soFar, blocked)
        else Passes(db, tenant, faults, soFar, blocked, pass + 1)
  }

  /** One turn of the loop. */
  lemma PassesTurn(db: Db, tenant: string, faults: Faults, cleared: set<string>, pending: seq<string>, pass: int,
    r: PassResult)
    requires pending != [] && r == PassOver(db, tenant, faults, pass, cleared, pending)
    ensures pass > MAX_PASSES ==> Passes(db, tenant, faults, cleared, pending, pass).Capped?
    ensures pass <= MAX_PASSES && r.PassFailed? ==> Passes(db, tenant, faults, cleared, pending, pass).Failed?
    ensures pass <= MAX_PASSES && r.Passed? && |r.blocked| == |pending| ==>
      Passes(db, tenant, faults, cleared, pending, pass).Stuck?
    ensures pass <= MAX_PASSES && r.Passed? && |r.blocked| != |pending| ==>
      Passes(db, tenant, faults, cleared, pending, pass)
      == Passes(db, tenant, faults, r.cleared, r.blocked, pass + 1)
  {
  }

  function TenantRow(db: Db, table: string, tenant: string): set<Key> {
    set k | k in db && db[k].table == table && db[k].id == tenant
  }

  /** One of the tenant's own rows, deleted by id when its table exists; here a blocked delete is final. */
  function DropTable(db: Db, tenant: string, faults: Faults, existing: set<string>, table: string): Option<Db> {
    var gone := TenantRow(db, table, tenant);
    if (-1, table) in faults then None
    else if table !in existing then Some(db)
    else if !SavepointAnswer(FaultAt(faults, 0, table), Violates(db, gone), |gone|).Deleted? then None
    else Some(db - gone)
  }

  function DropTenant(db: Db, tenant: string, faults: Faults, existing: set<string>, tables: seq<string>): Option<Db> {
    if tables == [] then Some(db)
    else
      match DropTenant(db, tenant, faults, existing, tables[..|tables| - 1])
      case None => None
      case Some(rest) => DropTable(rest, tenant, faults, existing, tables[|tables| - 1])
  }

  /** The rows of the tenant tables that carry the tenant's own id. */
  ghost function TenantRows(db: Db, existing: set<string>, tables: seq<string>, tenant: string): set<Key> {
    set k | k in db && db[k].table in tables && db[k].table in existing && db[k].id == tenant
  }

  lemma OneTableMore(db: Db, tenant: string, existing: set<string>, front: seq<string>, t: string)
    ensures var rest := db - TenantRows(db, existing, front, tenant);
      (if t in existing then rest - TenantRow(rest, t, tenant) else rest)
      == db - TenantRows(db, existing, front + [t], tenant)
  {
  }

  lemma {:induction false} DropRemovesExactly(db: Db, tenant: string, faults: Faults, existing: set<string>,
    tables: seq<string>)
    requires DropTenant(db, tenant, faults, existing, tables).Some?
    ensures DropTenant(db, tenant, faults, existing, tables).value
      == db - TenantRows(db, existing, tables, tenant)
  {
    if tables != [] {
      var front, t := tables[..|tables| - 1], tables[|tables| - 1];
      assert tables == front + [t];
      DropRemovesExactly(db, tenant, faults, existing, front);
      OneTableMore(db, tenant, existing, front, t);
    } else {
      assert TenantRows(db, existing, tables, tenant) == {};
    }
  }

  lemma {:induction false} PassKeepsTables(
    db: Db, tenant: string, faults: Faults, pass: int, cleared: set<string>, pending: seq<string>)
    requires PassOver(db, tenant, faults, pass, cleared, pending).Passed?
    ensures var r := PassOver(db, tenant, faults, pass, cleared, pending);
      r.cleared + Elements(r.blocked) == cleared + Elements(pending)
  {
    if pending != [] {
      var front, t := pending[..|pending| - 1], pending[|pending| - 1];
      assert pending == front + [t];
      PassKeepsTables(db, tenant, faults, pass, cleared, front);
      var soFar := PassOver(db, tenant, faults, pass, cleared, front);
      assert Elements(soFar.blocked + [t]) == Elements(soFar.blocked) + {t};
      assert Elements(pending) == Elements(front) + {t};
    }
  }

  /** The loop is done only when it has cleared every listed table. */
  lemma {:induction false} DoneClearsAll(
    db: Db, tenant: string, faults: Faults, cleared: set<string>, pending: seq<string>, pass: int)
    requires Passes(db, tenant, faults, cleared, pending, pass).Done?
    ensures Passes(db, tenant, faults, cleared, pending, pass).cleared == cleared + Elements(pending)
    decreases |pending|
  {
    if pending != [] {
      var r := PassOver(db, tenant, faults, pass, cleared, pending);
      PassKeepsTables(db, tenant, faults, pass, cleared, pending);
      DoneClearsAll(db, tenant, faults, r.cleared, r.blocked, pass + 1);
    }
  }

  /** COMMIT may take effect although its answer is lost. */
  datatype CommitAnswer = Committed | CommitUnanswered | CommitRefused

  /** What else can go wrong: the catalogue query stops after some rows, or BEGIN or COMMIT fails. */
  datatype Env = Env(faults: Faults, listingStopsAt: Option<nat>, beginFails: bool, commit: CommitAnswer)

  const CALM := Env(NO_FAULTS, None, false, Committed)

  /** The database a purge commits, or None when nothing is committed. */
  function PurgeOutcome(db: Db, tenant: string, env: Env, existing: set<string>, listing: seq<string>,
    own: seq<string>): Option<Db>
  {
    if tenant == NIL_UUID || env.listingStopsAt.Some? || env.beginFails || env.commit == CommitRefused then None
    else
      match Passes(db, tenant, env.faults, {}, listing, 1)
      case Done(cleared) => DropTenant(Cleared(db, cleared, tenant), tenant, env.faults, existing, own)
      case _ => None
  }

  /** What a committed purge has removed, row by row. */
  lemma OutcomeRemoves(db: Db, tenant: string, env: Env, existing: set<string>, listing: seq<string>,
    own: seq<string>, after: Db)
    requires PurgeOutcome(db, tenant, env, existing, listing, own) == Some(after)
    ensures forall k | k in after :: k in db && after[k] == db[k]
    ensures forall k | k in db :: k !in after <==>
      (db[k].table in listing && db[k].tenant == Some(tenant))
      || (db[k].table in own && db[k].table in existing && db[k].id == tenant)
  {
    DoneClearsAll(db, tenant, env.faults, {}, listing, 1);
    assert {} + Elements(listing) == Elements(listing);
    DropRemovesExactly(Cleared(db, Elements(listing), tenant), tenant, env.faults, existing, own);
  }

  // ---------------------------------------------------------------- the code

  /** One row of the catalogue query: a column and the kind of its table. */
  datatype Column = Column(table: string, name: string, dataType: string, baseTable: bool)

  predicate HoldsTenants(c: Column) {
    c.name == "tenant_id" && c.baseTable && c.dataType in {"uuid", "text", "character varying"}
  }

  predicate Selected(c: Column, skip: seq<string>) {
    HoldsTenants(c) && c.table !in skip && !Contains(c.table, "outbox") && !Contains(c.table, "processed_event")
  }

  /** A database transaction: its own view of the rows, with savepoints. */
  class Transaction {
    var rows: Db

    constructor (rows: Db)
      ensures this.rows == rows
    {
      this.rows := rows;
    }

    /** Runs the delete inside a savepoint; a failed delete is rolled back to it. */
    method ExecInSavepoint(gone: set<Key>, fault: Option<Fault>) returns (res: Statement)
      requires gone <= rows.Keys
      modifies this
      ensures res == SavepointAnswer(fault, Violates(old(rows), gone), |gone|)
      ensures res.ForeignKey? <==>
        && (fault.None? || fault.value.ReleaseFails?)
        && exists k | k in old(rows) && k !in gone :: !(old(rows)[k].refs !! gone)
      ensures res.Deleted? <==>
        && (fault.None? || fault.value.RollbackFails?)
        && forall k | k in old(rows) && k !in gone :: old(rows)[k].refs !! gone
      ensures res.Deleted? ==> res.n == |gone|
      ensures res.Deleted? ==> rows == old(rows) - gone
      ensures res.ForeignKey? ==> rows == old(rows)
      ensures res.SqlError? ==> rows == old(rows) || rows == old(rows) - gone
    {
      if fault == Some(SavepointFails) {
        return SqlError;
      }
      var savepoint := rows;
      rows := rows - gone;
      assert Violates(savepoint, gone) <==> exists k | k in rows :: !(rows[k].refs !! gone) by {
        assert forall k :: k in savepoint && k !in gone <==> k in rows;
      }
      var answer := Deleted(|gone|);
      if fault == Some(DeleteFails) {
        answer := SqlError;
      } else if exists k | k in rows :: !(rows[k].refs !! gone) {
        answer := ForeignKey;
      }
      if !answer.Deleted? {
        rows := savepoint; // the statement had no effect
        return if fault == Some(RollbackFails) then SqlError else answer;
      }
      res := if fault == Some(ReleaseFails) then SqlError else answer;
    }
  }

  class TenantPurger {
    var db: Db // the committed rows
    const skip: seq<string>
    const tenantTables: Option<seq<string>>

    constructor (db: Db, skip: seq<string>, tenantTables: Option<seq<string>>)
      ensures this.db == db && this.skip == skip && this.tenantTables == tenantTables
    {
      this.db, this.skip, this.tenantTables := db, skip, tenantTables;
    }

    function TenantTables(): seq<string> {
      if tenantTables.Some? then tenantTables.value else ["tenants", "auth_tenants"]
    }

    /** The loop over the catalogue rows; the query, a scan or the end of the rows may report an error. */
    method TenantColumns(catalogue: seq<Column>, stopsAt: Option<nat>) returns (res: Result<seq<string>>)
      ensures res.Success? <==> stopsAt.None?
      ensures res.Success? ==>
        forall t :: t in res.value <==> exists c | c in catalogue ::
          && c.table == t && c.name == "tenant_id" && c.baseTable
          && c.dataType in {"uuid", "text", "character varying"}
          && t !in skip && !Contains(t, "outbox") && !Contains(t, "processed_event")
    {
      var tables := [];
      for i := 0 to |catalogue|
        invariant forall t :: t in tables <==> exists c | c in catalogue[..i] :: c.table == t && Selected(c, skip)
      {
        if stopsAt == Some(i) {
          return Failure("tenant purge: list tables");
        }
        var c := catalogue[i];
        ghost var before := tables;
        if HoldsTenants(c) {
          if c.table !in skip && !Contains(c.table, "outbox") && !Contains(c.table, "processed_event") {
            tables := tables + [c.table];
          }
        }
        assert catalogue[..i + 1] == catalogue[..i] + [c];
        forall t ensures t in tables <==> exists d | d in catalogue[..i + 1] :: d.table == t && Selected(d, skip) {
          assert t in tables <==> t in before || (c.table == t && Selected(c, skip));
          assert c in catalogue[..i + 1];
        }
      }
      assert catalogue[..|catalogue|] == catalogue;
      res := if stopsAt.Some? then Failure("tenant purge: list tables") else Success(tables);
    }

    /** One table of a pass. */
    method AttemptTable(tx: Transaction, start: Db, tenant: string, faults: Faults, pass: int,
      ghost cleared: set<string>, blocked: seq<string>, table: string, sum: nat)
      returns (ok: bool, left: seq<string>, total: nat)
      requires tx.rows == Cleared(start, cleared, tenant) && sum == |start| - |tx.rows|
      modifies tx
      ensures var r := Attempt(start, tenant, faults, pass, cleared, blocked, table);
        && ok == r.Passed?
        && (ok ==> left == r.blocked && tx.rows == Cleared(start, r.cleared, tenant) && total == |start| - |tx.rows|)
    {
      var gone := RowsIn(tx.rows, table, tenant);
      RemoveSize(tx.rows, gone);
      ClearOneMore(start, cleared, tenant, table);
      ok, left, total := true, blocked, sum;
      ghost var isFree := Free(start, tenant, cleared, table);
      var res := tx.ExecInSavepoint(gone, FaultAt(faults, pass, table));
      assert res == SavepointAnswer(FaultAt(faults, pass, table), !isFree, |gone|);
      match res {
        case ForeignKey => left := blocked + [table];
        case SqlError => ok := false;
        case Deleted(n) => total := sum + n;
      }
    }

    method PurgePass(tx: Transaction, start: Db, tenant: string, faults: Faults, pass: int,
      ghost cleared: set<string>, pending: seq<string>, sum: nat)
      returns (ok: bool, blocked: seq<string>, total: nat)
      requires tx.rows == Cleared(start, cleared, tenant) && sum == |start| - |tx.rows|
      modifies tx
      ensures var r := PassOver(start, tenant, faults, pass, cleared, pending);
        && ok == r.Passed?
        && (ok ==>
          blocked == r.blocked && tx.rows == Cleared(start, r.cleared, tenant) && total == |start| - |tx.rows|)
    {
      ok, blocked, total := true, [], sum;
      ghost var soFar := cleared;
      for i := 0 to |pending|
        invariant ok && PassOver(start, tenant, faults, pass, cleared, pending[..i]) == Passed(soFar, blocked)
        invariant tx.rows == Cleared(start, soFar, tenant) && total == |start| - |tx.rows|
      {
        assert pending[..i + 1][..i] == pending[..i];
        ghost var r := Attempt(start, tenant, faults, pass, soFar, blocked, pending[i]);
        ok, blocked, total := AttemptTable(tx, start, tenant, faults, pass, soFar, blocked, pending[i], total);
        if !ok {
          PassFailsFrom(start, tenant, faults, pass, cleared, pending, i + 1);
          return;
        }
        soFar := r.cleared;
      }
      assert pending[..|pending|] == pending;
    }

    /** One of the tables keyed by the tenant's own id. */
    method DropOne(tx: Transaction, tenant: string, faults: Faults, existing: set<string>, table: string)
      returns (ok: bool, n: nat)
      modifies tx
      ensures var dropped := DropTable(old(tx.rows), tenant, faults, existing, table);
        ok == dropped.Some? && (ok ==> tx.rows == dropped.value && n + |tx.rows| == |old(tx.rows)|)
    {
      if (-1, table) in faults {
        return false, 0;
      }
      if table !in existing {
        return true, 0;
      }
      var gone := TenantRow(tx.rows, table, tenant);
      RemoveSize(tx.rows, gone);
      var res := tx.ExecInSavepoint(gone, FaultAt(faults, 0, table));
      ok, n := res.Deleted?, |gone|;
    }

    /** The final loop over those tables. */
    method DropTenantRows(tx: Transaction, ghost start: Db, tenant: string, faults: Faults, existing: set<string>,
      sum: nat) returns (ok: bool, total: nat)
      requires sum == |start| - |tx.rows|
      modifies tx
      ensures var dropped := DropTenant(old(tx.rows), tenant, faults, existing, TenantTables());
        ok == dropped.Some? && (ok ==> tx.rows == dropped.value && total == |start| - |tx.rows|)
    {
      ok, total := true, sum;
      var own := TenantTables();
      for i := 0 to |own|
        invariant ok && total == |start| - |tx.rows|
        invariant DropTenant(old(tx.rows), tenant, faults, existing, own[..i]) == Some(tx.rows)
      {
        assert own[..i + 1][..i] == own[..i];
        var n;
        ok, n := DropOne(tx, tenant, faults, existing, own[i]);
        if !ok {
          DropFailsFrom(old(tx.rows), tenant, faults, existing, own, i + 1);
          return;
        }
        total := total + n;
      }
      assert own[..|own|] == own;
    }

    /** The fixpoint loop: retry the blocked tables until none is left, none moves, or the cap is met. */
    method ClearTables(tx: Transaction, start: Db, tenant: string, faults: Faults, tables: seq<string>)
      returns (ok: bool, total: nat)
      requires tx.rows == start && Cleared(start, {}, tenant) == start
      modifies tx
      ensures var loop := Passes(start, tenant, faults, {}, tables, 1);
        && ok == loop.Done?
        && (ok ==> tx.rows == Cleared(start, loop.cleared, tenant) && total == |start| - |tx.rows|)
    {
      var pending, pass := tables, 1;
      total := 0;
      ghost var cleared, goal := {}, Passes(start, tenant, faults, {}, tables, 1);
      while pending != []
        invariant goal == Passes(start, tenant, faults, cleared, pending, pass)
        invariant tx.rows == Cleared(start, cleared, tenant) && total == |start| - |tx.rows|
        decreases |pending|
      {
        ghost var r := PassOver(start, tenant, faults, pass, cleared, pending);
        PassesTurn(start, tenant, faults, cleared, pending, pass, r);
        if pass > MAX_PASSES {
          return false, total;
        }
        var passed, blocked;
        passed, blocked, total := PurgePass(tx, start, tenant, faults, pass, cleared, pending, total);
        if !passed || |blocked| == |pending| {
          return false, total;
        }
        cleared, pending, pass := r.cleared, blocked, pass + 1;
      }
      ok := true;
    }

    /** Purge: all deletes in one transaction, committed only when every step succeeded. */
    method Purge(tenant: string, catalogue: seq<Column>, existing: set<string>, env: Env)
      returns (res: Result<nat>, ghost tables: seq<string>)
      modifies this
      ensures tenant != NIL_UUID && env.listingStopsAt.None? ==>
        forall t :: t in tables <==> exists c | c in catalogue ::
          && c.table == t && c.name == "tenant_id" && c.baseTable
          && c.dataType in {"uuid", "text", "character varying"}
          && t !in skip && !Contains(t, "outbox") && !Contains(t, "processed_event")
      ensures var outcome := PurgeOutcome(old(db), tenant, env, existing, tables, TenantTables());
        && db == (if outcome.Some? then outcome.value else old(db))
        && (res.Success? <==> outcome.Some? && env.commit == Committed)
      ensures res.Failure? ==> db == old(db) || env.commit == CommitUnanswered
      ensures tenant == "00000000-0000-0000-0000-000000000000" ==> res.Failure? && db == old(db)
      // what is committed leaves every other row as it was and removes exactly the tenant's
      ensures forall k | k in db :: k in old(db) && db[k] == old(db)[k]
      ensures res.Success? || db != old(db) ==>
        var own := if tenantTables.Some? then tenantTables.value else ["tenants", "auth_tenants"];
        forall k | k in old(db) :: k !in db <==>
          (old(db)[k].table in tables && old(db)[k].tenant == Some(tenant))
          || (old(db)[k].table in own && old(db)[k].table in existing && old(db)[k].id == tenant)
      ensures res.Success? ==> res.value == |old(db)| - |db|
    {
      tables := [];
      if tenant == NIL_UUID {
        return Failure("tenant purge: refusing a nil tenant id"), tables;
      }
      var cols := TenantColumns(catalogue, env.listingStopsAt);
      if cols.Failure? {
        return Failure(cols.error), tables;
      }
      tables := cols.value;
      if env.beginFails {
        return Failure("tenant purge: begin"), tables;
      }
      var tx := new Transaction(db);
      assert Cleared(db, {}, tenant) == db;
      var cleared, total := ClearTables(tx, db, tenant, env.faults, cols.value);
      if !cleared {
        return Failure("tenant purge: tables"), tables;
      }
      var dropped;
      dropped, total := DropTenantRows(tx, db, tenant, env.faults, existing, total);
      if !dropped {
        return Failure("tenant purge: tenant row"), tables;
      }
      if env.commit == CommitRefused {
        return Failure("tenant purge: commit"), tables;
      }
      OutcomeRemoves(db, tenant, env, existing, tables, TenantTables(), tx.rows);
      db := tx.rows;
      res := if env.commit == CommitUnanswered then Failure("tenant purge: commit") else Success(total);
    }
  }

  lemma RemoveSize(db: Db, gone: set<Key>)
    requires gone <= db.Keys
    ensures |db - gone| == |db| - |gone|
  {
    assert (db - gone).Keys == db.Keys - gone;
    assert |db.Keys - gone| == |db.Keys| - |gone|;
    assert |db| == |db.Keys| && |db - gone| == |(db - gone).Keys|;
  }

  lemma ClearOneMore(db: Db, cleared: set<string>, tenant: string, table: string)
    ensures var seen := Cleared(db, cleared, tenant);
      seen - RowsIn(seen, table, tenant) == Cleared(db, cleared + {table}, tenant)
  {
  }

  lemma {:induction false} PassFailsFrom(db: Db, tenant: string, faults: Faults, pass: int, cleared: set<string>,
    pending: seq<string>, i: nat)
    requires i <= |pending| && PassOver(db, tenant, faults, pass, cleared, pending[..i]).PassFailed?
    ensures PassOver(db, tenant, faults, pass, cleared, pending).PassFailed?
    decreases |pending| - i
  {
    if i == |pending| {
      assert pending[..i] == pending;
    } else {
      assert pending[..i + 1][..i] == pending[..i];
      PassFailsFrom(db, tenant, faults, pass, cleared, pending, i + 1);
    }
  }

  lemma {:induction false} DropFailsFrom(db: Db, tenant: string, faults: Faults, existing: set<string>,
    tables: seq<string>, i: nat)
    requires i <= |tables| && DropTenant(db, tenant, faults, existing, tables[..i]).None?
    ensures DropTenant(db, tenant, faults, existing, tables).None?
    decreases |tables| - i
  {
    if i == |tables| {
      assert tables[..i] == tables;
    } else {
      assert tables[..i + 1][..i] == tables[..i];
      DropFailsFrom(db, tenant, faults, existing, tables, i + 1);
    }
  }
}
