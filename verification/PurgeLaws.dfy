/** What the purge's retry loop guarantees: exactness, independence of the listing order, completeness. */
module PurgeLaws {
  import opened Common
  import opened TenantPurge

  // ---------------------------------------------------------------- the state of the transaction

  /** Clearing more tables never blocks a delete that was possible before. */
  lemma FreeIsMonotone(db: Db, tenant: string, less: set<string>, more: set<string>, table: string)
    requires less <= more && Free(db, tenant, less, table)
    ensures Free(db, tenant, more, table)
  {
    var a, b := Cleared(db, less, tenant), Cleared(db, more, tenant);
    var inA, inB := RowsIn(a, table, tenant), RowsIn(b, table, tenant);
    forall k | k in b && k !in inB ensures b[k].refs !! inB {
      assert k in a && k !in inA && a[k].refs !! inA;
      assert inB <= inA;
    }
  }

  lemma ClearedIsFree(db: Db, tenant: string, cleared: set<string>, table: string)
    requires table in cleared
    ensures Free(db, tenant, cleared, table)
  {
    assert RowsIn(Cleared(db, cleared, tenant), table, tenant) == {};
  }

  lemma BlockedIsNotCleared(db: Db, tenant: string, cleared: set<string>, table: string)
    requires !Free(db, tenant, cleared, table)
    ensures table !in cleared
  {
    if table in cleared {
      ClearedIsFree(db, tenant, cleared, table);
    }
  }

  /** The deletes of `order` succeed one after the other from the untouched database. */
  ghost predicate Executable(db: Db, tenant: string, order: seq<string>) {
    order == [] ||
    (Executable(db, tenant, order[..|order| - 1])
    && Free(db, tenant, Elements(order[..|order| - 1]), order[|order| - 1]))
  }

  lemma Execute(db: Db, tenant: string, order: seq<string>, table: string)
    requires Executable(db, tenant, order) && Free(db, tenant, Elements(order), table)
    ensures Executable(db, tenant, order + [table])
    ensures Elements(order + [table]) == Elements(order) + {table}
  {
    assert (order + [table])[..|order|] == order;
  }

  /** What a pass has done: what it cleared can be cleared in some order; what it left was blocked at
      the start; and if it left everything, nothing has changed. */
  ghost predicate PassOk(db: Db, tenant: string, cleared: set<string>, pending: seq<string>, r: PassResult,
    order: seq<string>)
  {
    && r.Passed? && cleared <= r.cleared
    && r.cleared + Elements(r.blocked) == cleared + Elements(pending)
    && (forall t | t in r.blocked :: !Free(db, tenant, cleared, t) && t in pending)
    && |r.blocked| <= |pending|
    && (|r.blocked| == |pending| ==> r.cleared == cleared && r.blocked == pending)
    && Executable(db, tenant, order) && Elements(order) == r.cleared
  }

  lemma {:induction false} PassFacts(db: Db, tenant: string, faults: Faults, pass: int, cleared: set<string>,
    pending: seq<string>, order: seq<string>) returns (longer: seq<string>)
    requires Executable(db, tenant, order) && Elements(order) == cleared
    requires PassOver(db, tenant, faults, pass, cleared, pending).Passed?
    ensures PassOk(db, tenant, cleared, pending, PassOver(db, tenant, faults, pass, cleared, pending), longer)
  {
    longer := order;
    if pending != [] {
      var front, t := pending[..|pending| - 1], pending[|pending| - 1];
      longer := PassFacts(db, tenant, faults, pass, cleared, front, order);
      var soFar := PassOver(db, tenant, faults, pass, cleared, front);
      assert pending == front + [t];
      if Free(db, tenant, soFar.cleared, t) {
        longer := AttemptClears(db, tenant, cleared, front, soFar, t, longer);
      } else {
        AttemptBlocks(db, tenant, cleared, front, soFar, t, longer);
      }
    }
  }

  lemma AttemptClears(db: Db, tenant: string, cleared: set<string>, front: seq<string>, soFar: PassResult, t: string,
    order: seq<string>) returns (longer: seq<string>)
    requires PassOk(db, tenant, cleared, front, soFar, order) && Free(db, tenant, soFar.cleared, t)
    ensures PassOk(db, tenant, cleared, front + [t], Passed(soFar.cleared + {t}, soFar.blocked), longer)
  {
    Execute(db, tenant, order, t);
    longer := order + [t];
    assert Elements(front + [t]) == Elements(front) + {t};
  }

  lemma AttemptBlocks(db: Db, tenant: string, cleared: set<string>, front: seq<string>, soFar: PassResult, t: string,
    order: seq<string>)
    requires PassOk(db, tenant, cleared, front, soFar, order) && !Free(db, tenant, soFar.cleared, t)
    ensures PassOk(db, tenant, cleared, front + [t], Passed(soFar.cleared, soFar.blocked + [t]), order)
  {
    if Free(db, tenant, cleared, t) {
      FreeIsMonotone(db, tenant, cleared, soFar.cleared, t);
    }
    assert Elements(front + [t]) == Elements(front) + {t};
    assert Elements(soFar.blocked + [t]) == Elements(soFar.blocked) + {t};
  }

  /** The whole loop: the tables it clears, in some order that works, and why it stops. */
  lemma {:induction false} LoopFacts(db: Db, tenant: string, faults: Faults, cleared: set<string>,
    pending: seq<string>, pass: int, order: seq<string>) returns (longer: seq<string>)
    requires Executable(db, tenant, order) && Elements(order) == cleared
    ensures var r := Passes(db, tenant, faults, cleared, pending, pass);
      && (r.Done? ==> r.cleared == cleared + Elements(pending))
      && (r.Stuck? ==>
        && r.cleared + Elements(r.blocked) == cleared + Elements(pending)
        && r.blocked != [] && (forall t | t in r.blocked :: !Free(db, tenant, r.cleared, t)))
      && (r.Done? || r.Stuck? ==> Executable(db, tenant, longer) && Elements(longer) == r.cleared)
    decreases |pending|
  {
    longer := order;
    if pending != [] && pass <= MAX_PASSES {
      var p := PassOver(db, tenant, faults, pass, cleared, pending);
      if p.Passed? {
        longer := PassFacts(db, tenant, faults, pass, cleared, pending, order);
        if |p.blocked| != |pending| {
          longer := LoopFacts(db, tenant, faults, p.cleared, p.blocked, pass + 1, longer);
        }
      }
    }
  }

  // ---------------------------------------------------------------- stopping early is never premature

  /** Nothing outside a closed set of tables can be cleared by any order of the same deletes. */
  lemma {:induction false} OrdersStayInside(db: Db, tenant: string, tables: set<string>, closed: set<string>,
    order: seq<string>)
    requires forall t | t in tables && t !in closed :: !Free(db, tenant, closed, t)
    requires Elements(order) <= tables && Executable(db, tenant, order)
    ensures Elements(order) <= closed
  {
    if order != [] {
      var front, t := order[..|order| - 1], order[|order| - 1];
      assert order == front + [t];
      OrdersStayInside(db, tenant, tables, closed, front);
      FreeIsMonotone(db, tenant, Elements(front), closed, t);
    }
  }

  /** When a pass clears nothing, no order of the deletes could ever clear a remaining table. */
  lemma StuckMeansNoOrderWorks(db: Db, tenant: string, faults: Faults, listing: seq<string>, order: seq<string>)
    requires Passes(db, tenant, faults, {}, listing, 1).Stuck?
    requires Elements(order) <= Elements(listing) && Executable(db, tenant, order)
    ensures Elements(order) !! Elements(Passes(db, tenant, faults, {}, listing, 1).blocked)
  {
    var r := Passes(db, tenant, faults, {}, listing, 1);
    var worked := LoopFacts(db, tenant, faults, {}, listing, 1, []);
    OrdersStayInside(db, tenant, Elements(listing), r.cleared, order);
    forall t | t in r.blocked ensures t !in r.cleared {
      BlockedIsNotCleared(db, tenant, r.cleared, t);
    }
  }

  /** Short of the pass cap and of other SQL errors, the tables are cleared exactly when some order works. */
  lemma ClearsExactlyWhenSomeOrderDoes(db: Db, tenant: string, faults: Faults, listing: seq<string>)
    requires var r := Passes(db, tenant, faults, {}, listing, 1); r.Done? || r.Stuck?
    ensures Passes(db, tenant, faults, {}, listing, 1).Done? <==>
      exists order :: Elements(order) == Elements(listing) && Executable(db, tenant, order)
  {
    var r := Passes(db, tenant, faults, {}, listing, 1);
    var worked := LoopFacts(db, tenant, faults, {}, listing, 1, []);
    if r.Stuck? {
      forall order | Elements(order) == Elements(listing) && Executable(db, tenant, order) ensures false {
        assert r.blocked[0] in Elements(r.blocked) && r.blocked[0] in Elements(listing);
        StuckMeansNoOrderWorks(db, tenant, faults, listing, order);
      }
    }
  }

  /** Two listings of the same tables end the same way, with the same rows left. */
  lemma ListingOrderDoesNotMatter(db: Db, tenant: string, faults: Faults, a: seq<string>, b: seq<string>)
    requires Elements(a) == Elements(b)
    requires var r := Passes(db, tenant, faults, {}, a, 1); r.Done? || r.Stuck?
    requires var r := Passes(db, tenant, faults, {}, b, 1); r.Done? || r.Stuck?
    ensures var ra, rb := Passes(db, tenant, faults, {}, a, 1), Passes(db, tenant, faults, {}, b, 1);
      ra.Done? == rb.Done? && ra.cleared == rb.cleared
  {
    var ra, rb := Passes(db, tenant, faults, {}, a, 1), Passes(db, tenant, faults, {}, b, 1);
    var oa := LoopFacts(db, tenant, faults, {}, a, 1, []);
    var ob := LoopFacts(db, tenant, faults, {}, b, 1, []);
    OrdersStayInside(db, tenant, Elements(a), rb.cleared, oa);
    OrdersStayInside(db, tenant, Elements(a), ra.cleared, ob);
    if rb.Stuck? {
      assert rb.blocked[0] in Elements(rb.blocked) && rb.blocked[0] in Elements(a);
      BlockedIsNotCleared(db, tenant, rb.cleared, rb.blocked[0]);
    }
    if ra.Stuck? {
      assert ra.blocked[0] in Elements(ra.blocked) && ra.blocked[0] in Elements(a);
      BlockedIsNotCleared(db, tenant, ra.cleared, ra.blocked[0]);
    }
  }

  // ---------------------------------------------------------------- completeness

  /** A tenant row of table `child` references a tenant row of table `parent`. */
  ghost predicate References(db: Db, tenant: string, child: string, parent: string) {
    child != parent &&
    exists k | k in RowsIn(db, child, tenant) :: !(db[k].refs !! RowsIn(db, parent, tenant))
  }

  /** A chain of tables in which each references the next. */
  ghost predicate Chain(db: Db, tenant: string, tables: set<string>, chain: seq<string>) {
    && Elements(chain) <= tables
    && forall i | 0 < i < |chain| :: References(db, tenant, chain[i - 1], chain[i])
  }

  ghost predicate EndsChain(db: Db, tenant: string, tables: set<string>, table: string, n: nat) {
    exists chain :: |chain| == n && n > 0 && chain[n - 1] == table && Chain(db, tenant, tables, chain)
  }

  /** Only rows the purge itself deletes refer to the rows it deletes. */
  ghost predicate NothingOutsideRefers(db: Db, tenant: string, tables: set<string>) {
    forall k | k in db && !(db[k].refs !! Owned(db, tables, tenant)) :: k in Owned(db, tables, tenant)
  }

  lemma BlockedHasReferrer(db: Db, tenant: string, tables: set<string>, cleared: set<string>, table: string)
    returns (child: string)
    requires NothingOutsideRefers(db, tenant, tables) && table in tables
    requires !Free(db, tenant, cleared, table)
    ensures child in tables && child !in cleared && References(db, tenant, child, table)
  {
    var seen := Cleared(db, cleared, tenant);
    var gone := RowsIn(seen, table, tenant);
    var k :| k in seen && k !in gone && !(seen[k].refs !! gone);
    var d :| d in seen[k].refs && d in gone;
    assert d in RowsIn(db, table, tenant) && d in Owned(db, tables, tenant) && d in db[k].refs;
    assert k in Owned(db, tables, tenant);
    child := db[k].table;
    assert k in RowsIn(db, child, tenant);
  }

  lemma ChainGrows(db: Db, tenant: string, tables: set<string>, child: string, parent: string, n: nat)
    requires EndsChain(db, tenant, tables, child, n) && References(db, tenant, child, parent) && parent in tables
    ensures EndsChain(db, tenant, tables, parent, n + 1)
  {
    var chain :| |chain| == n && n > 0 && chain[n - 1] == child && Chain(db, tenant, tables, chain);
    var longer := chain + [parent];
    forall i | 0 < i < |longer| ensures References(db, tenant, longer[i - 1], longer[i]) {
      if i < n {
        assert longer[i - 1] == chain[i - 1] && longer[i] == chain[i];
      }
    }
    assert Chain(db, tenant, tables, longer) && longer[n] == parent;
  }

  /** If every pending table ends a chain of p tables, every table the pass leaves ends one of p + 1:
      pass k clears every table whose longest chain has k tables. */
  lemma PassClearsOneMoreLevel(db: Db, tenant: string, pass: int, cleared: set<string>, pending: seq<string>,
    tables: set<string>, order: seq<string>, p: nat)
    requires Executable(db, tenant, order) && Elements(order) == cleared
    requires cleared + Elements(pending) == tables && NothingOutsideRefers(db, tenant, tables)
    requires forall t | t in pending :: EndsChain(db, tenant, tables, t, p)
    ensures var r := PassOver(db, tenant, NO_FAULTS, pass, cleared, pending);
      r.Passed? && forall t | t in r.blocked :: EndsChain(db, tenant, tables, t, p + 1)
  {
    FaultlessPass(db, tenant, pass, cleared, pending);
    var longer := PassFacts(db, tenant, NO_FAULTS, pass, cleared, pending, order);
    var r := PassOver(db, tenant, NO_FAULTS, pass, cleared, pending);
    forall t | t in r.blocked ensures EndsChain(db, tenant, tables, t, p + 1) {
      var child := BlockedHasReferrer(db, tenant, tables, cleared, t);
      ChainGrows(db, tenant, tables, child, t, p);
    }
  }

  lemma {:induction false} FaultlessPass(
    db: Db, tenant: string, pass: int, cleared: set<string>, pending: seq<string>)
    ensures PassOver(db, tenant, NO_FAULTS, pass, cleared, pending).Passed?
  {
    if pending != [] {
      FaultlessPass(db, tenant, pass, cleared, pending[..|pending| - 1]);
    }
  }

  /** A stuck set of tables refers to itself, so it carries chains of every length. */
  lemma {:induction false} StuckHasLongChains(db: Db, tenant: string, tables: set<string>, cleared: set<string>,
    pending: seq<string>, table: string, n: nat)
    requires cleared + Elements(pending) == tables && NothingOutsideRefers(db, tenant, tables)
    requires forall t | t in pending :: !Free(db, tenant, cleared, t)
    requires table in pending && n > 0
    ensures EndsChain(db, tenant, tables, table, n)
    decreases n
  {
    if n == 1 {
      assert Chain(db, tenant, tables, [table]);
    } else {
      var child := BlockedHasReferrer(db, tenant, tables, cleared, table);
      StuckHasLongChains(db, tenant, tables, cleared, pending, child, n - 1);
      ChainGrows(db, tenant, tables, child, table, n - 1);
    }
  }

  /** One turn of a loop that cannot get stuck. */
  lemma TurnMakesProgress(db: Db, tenant: string, tables: set<string>, cleared: set<string>,
    pending: seq<string>, pass: nat, order: seq<string>) returns (r: PassResult, longer: seq<string>)
    requires Executable(db, tenant, order) && Elements(order) == cleared
    requires cleared + Elements(pending) == tables && NothingOutsideRefers(db, tenant, tables)
    requires pending != [] && pass > 0 && forall t | t in pending :: EndsChain(db, tenant, tables, t, pass)
    requires forall chain | Chain(db, tenant, tables, chain) :: |chain| <= MAX_PASSES
    ensures pass <= MAX_PASSES
    ensures r == PassOver(db, tenant, NO_FAULTS, pass, cleared, pending) && r.Passed? && |r.blocked| < |pending|
    ensures Executable(db, tenant, longer) && Elements(longer) == r.cleared
    ensures r.cleared + Elements(r.blocked) == tables
    ensures forall t | t in r.blocked :: EndsChain(db, tenant, tables, t, pass + 1)
  {
    assert EndsChain(db, tenant, tables, pending[0], pass);
    PassClearsOneMoreLevel(db, tenant, pass, cleared, pending, tables, order, pass);
    longer := PassFacts(db, tenant, NO_FAULTS, pass, cleared, pending, order);
    r := PassOver(db, tenant, NO_FAULTS, pass, cleared, pending);
    if |r.blocked| == |pending| {
      StuckHasLongChains(db, tenant, tables, cleared, pending, pending[0], MAX_PASSES + 1);
    }
  }

  lemma {:induction false} ShortChainsClear(db: Db, tenant: string, tables: set<string>, cleared: set<string>,
    pending: seq<string>, pass: nat, order: seq<string>)
    requires Executable(db, tenant, order) && Elements(order) == cleared
    requires cleared + Elements(pending) == tables && NothingOutsideRefers(db, tenant, tables)
    requires pass > 0 && forall t | t in pending :: EndsChain(db, tenant, tables, t, pass)
    requires forall chain | Chain(db, tenant, tables, chain) :: |chain| <= MAX_PASSES
    ensures Passes(db, tenant, NO_FAULTS, cleared, pending, pass) == Done(tables)
    decreases |pending|
  {
    if pending == [] {
      assert cleared == tables;
    } else {
      var r, longer := TurnMakesProgress(db, tenant, tables, cleared, pending, pass, order);
      ShortChainsClear(db, tenant, tables, r.cleared, r.blocked, pass + 1, longer);
      PassesTurn(db, tenant, NO_FAULTS, cleared, pending, pass, r);
    }
  }

  /** With reference chains of at most 30 tables and no outside references, every listing is cleared. */
  lemma BoundedChainsAreCleared(db: Db, tenant: string, listing: seq<string>)
    requires NothingOutsideRefers(db, tenant, Elements(listing))
    requires forall chain | Chain(db, tenant, Elements(listing), chain) :: |chain| <= 30
    ensures Passes(db, tenant, NO_FAULTS, {}, listing, 1) == Done(Elements(listing))
  {
    forall t | t in listing ensures EndsChain(db, tenant, Elements(listing), t, 1) {
      assert Chain(db, tenant, Elements(listing), [t]);
    }
    ShortChainsClear(db, tenant, Elements(listing), {}, listing, 1, []);
  }

  // ---------------------------------------------------------------- what is left

  /** A successful purge removes the tenant's rows of every selected table and its own rows, no others. */
  lemma PurgeRemovesExactly(db: Db, tenant: string, env: Env, existing: set<string>, listing: seq<string>,
    own: seq<string>, after: Db)
    requires PurgeOutcome(db, tenant, env, existing, listing, own) == Some(after)
    ensures after == db - (Owned(db, Elements(listing), tenant) + TenantRows(db, existing, own, tenant))
  {
    OutcomeRemoves(db, tenant, env, existing, listing, own, after);
  }

  lemma {:induction false} NothingToClear(db: Db, tenant: string, pass: int, cleared: set<string>, pending: seq<string>)
    requires Owned(db, Elements(pending), tenant) == {}
    ensures PassOver(db, tenant, NO_FAULTS, pass, cleared, pending) == Passed(cleared + Elements(pending), [])
  {
    if pending != [] {
      var front, t := pending[..|pending| - 1], pending[|pending| - 1];
      assert pending == front + [t];
      assert Owned(db, Elements(front), tenant) <= Owned(db, Elements(pending), tenant);
      NothingToClear(db, tenant, pass, cleared, front);
      assert RowsIn(db, t, tenant) <= Owned(db, Elements(pending), tenant);
      assert RowsIn(Cleared(db, cleared + Elements(front), tenant), t, tenant) == {};
    }
  }

  lemma {:induction false} NothingToDrop(db: Db, tenant: string, existing: set<string>, own: seq<string>)
    requires TenantRows(db, existing, own, tenant) == {}
    ensures DropTenant(db, tenant, NO_FAULTS, existing, own) == Some(db)
  {
    if own != [] {
      var front, t := own[..|own| - 1], own[|own| - 1];
      assert own == front + [t];
      assert TenantRows(db, existing, front, tenant) <= TenantRows(db, existing, own, tenant);
      NothingToDrop(db, tenant, existing, front);
      if t in existing {
        assert TenantRow(db, t, tenant) <= TenantRows(db, existing, own, tenant);
        assert TenantRow(db, t, tenant) == {};
        assert db - {} == db;
      }
    }
  }

  /** A second purge of the same tenant succeeds and finds nothing to remove. */
  lemma SecondPurgeRemovesNothing(db: Db, tenant: string, env: Env, existing: set<string>,
    listing: seq<string>, own: seq<string>, after: Db)
    requires PurgeOutcome(db, tenant, env, existing, listing, own) == Some(after)
    ensures PurgeOutcome(after, tenant, CALM, existing, listing, own) == Some(after)
  {
    PurgeRemovesExactly(db, tenant, env, existing, listing, own, after);
    assert Owned(after, Elements(listing), tenant) == {};
    NothingToClear(after, tenant, 1, {}, listing);
    assert {} + Elements(listing) == Elements(listing);
    if listing != [] {
      PassesTurn(after, tenant, NO_FAULTS, {}, listing, 1, PassOver(after, tenant, NO_FAULTS, 1, {}, listing));
    }
    assert Cleared(after, Elements(listing), tenant) == after;
    assert TenantRows(after, existing, own, tenant) == {};
    NothingToDrop(after, tenant, existing, own);
  }

  /** No dangling references. */
  ghost predicate Intact(db: Db) {
    forall k | k in db :: db[k].refs <= db.Keys
  }

  lemma DeleteKeepsIntact(db: Db, gone: set<Key>)
    requires Intact(db) && !Violates(db, gone)
    ensures Intact(db - gone)
  {
  }

  lemma {:induction false} OrderKeepsIntact(db: Db, tenant: string, order: seq<string>)
    requires Intact(db) && Executable(db, tenant, order)
    ensures Intact(Cleared(db, Elements(order), tenant))
  {
    if order == [] {
      assert Cleared(db, {}, tenant) == db;
    } else {
      var front, t := order[..|order| - 1], order[|order| - 1];
      assert order == front + [t];
      OrderKeepsIntact(db, tenant, front);
      var seen := Cleared(db, Elements(front), tenant);
      DeleteKeepsIntact(seen, RowsIn(seen, t, tenant));
      ClearOneMore(db, Elements(front), tenant, t);
      assert Elements(order) == Elements(front) + {t};
    }
  }

  lemma {:induction false} DropKeepsIntact(db: Db, tenant: string, faults: Faults, existing: set<string>,
    own: seq<string>)
    requires Intact(db) && DropTenant(db, tenant, faults, existing, own).Some?
    ensures Intact(DropTenant(db, tenant, faults, existing, own).value)
  {
    if own != [] {
      DropKeepsIntact(db, tenant, faults, existing, own[..|own| - 1]);
    }
  }

  /** A purge never commits a database with dangling references. */
  lemma PurgeKeepsIntact(db: Db, tenant: string, env: Env, existing: set<string>,
    listing: seq<string>, own: seq<string>, after: Db)
    requires Intact(db) && PurgeOutcome(db, tenant, env, existing, listing, own) == Some(after)
    ensures Intact(after)
  {
    var order := LoopFacts(db, tenant, env.faults, {}, listing, 1, []);
    assert {} + Elements(listing) == Elements(listing);
    OrderKeepsIntact(db, tenant, order);
    DropKeepsIntact(Cleared(db, Elements(listing), tenant), tenant, env.faults, existing, own);
  }
}
