/** Exactly when a purge succeeds, for which listings, and where the order of its tables matters. */
module PurgeOrder {
  import opened Common
  import opened TenantPurge
  import opened PurgeLaws

  ghost predicate EveryListingClears(db: Db, tenant: string, tables: set<string>) {
    forall listing: seq<string> | Elements(listing) == tables ::
      Passes(db, tenant, NO_FAULTS, {}, listing, 1) == Done(tables)
  }

  ghost predicate SomeListingClears(db: Db, tenant: string, tables: set<string>) {
    exists listing: seq<string> :: Elements(listing) == tables
      && Passes(db, tenant, NO_FAULTS, {}, listing, 1) == Done(tables)
  }

  ghost predicate ShortChains(db: Db, tenant: string, tables: set<string>) {
    forall chain | Chain(db, tenant, tables, chain) :: |chain| <= 30
  }

  /** No chain of references comes back to a table it has left. */
  ghost predicate Acyclic(db: Db, tenant: string, tables: set<string>) {
    forall chain | Chain(db, tenant, tables, chain) :: NoRepeats(chain)
  }

  lemma {:induction false} ListingOf(tables: set<string>) returns (listing: seq<string>)
    ensures Elements(listing) == tables
    decreases |tables|
  {
    if tables == {} {
      listing := [];
    } else {
      var t :| t in tables;
      var rest := ListingOf(tables - {t});
      listing := rest + [t];
      assert Elements(listing) == Elements(rest) + {t};
    }
  }

  lemma {:induction false} NoRepeatsSize(s: seq<string>)
    requires NoRepeats(s)
    ensures |Elements(s)| == |s|
  {
    if s != [] {
      var front, last := s[..|s| - 1], s[|s| - 1];
      NoRepeatsSize(front);
      assert s == front + [last];
      assert Elements(s) == Elements(front) + {last};
    }
  }

  // ---------------------------------------------------------------- what blocks a table

  lemma ReferencedIsBlocked(db: Db, tenant: string, cleared: set<string>, child: string, parent: string)
    requires References(db, tenant, child, parent) && child !in cleared && parent !in cleared
    ensures !Free(db, tenant, cleared, parent)
  {
    var seen := Cleared(db, cleared, tenant);
    var k :| k in RowsIn(db, child, tenant) && !(db[k].refs !! RowsIn(db, parent, tenant));
    assert RowsIn(seen, parent, tenant) == RowsIn(db, parent, tenant);
    assert k in seen && k !in RowsIn(seen, parent, tenant);
  }

  /** A row the purge does not delete pins the table it refers to. */
  lemma PinnedIsBlocked(db: Db, tenant: string, tables: set<string>, cleared: set<string>, k: Key, d: Key)
    requires k in db && k !in Owned(db, tables, tenant) && d in db[k].refs && d in Owned(db, tables, tenant)
    requires cleared <= tables && db[d].table !in cleared
    ensures !Free(db, tenant, cleared, db[d].table)
  {
    var seen := Cleared(db, cleared, tenant);
    assert k in seen && k !in RowsIn(seen, db[d].table, tenant) && d in RowsIn(seen, db[d].table, tenant);
  }

  /** Tables that block one another are in no working order. */
  lemma HeldTablesStay(db: Db, tenant: string, tables: set<string>, held: set<string>, order: seq<string>)
    requires held <= tables && forall t | t in held :: !Free(db, tenant, tables - held, t)
    requires Executable(db, tenant, order) && Elements(order) <= tables
    ensures Elements(order) !! held
  {
    OrdersStayInside(db, tenant, tables, tables - held, order);
  }

  /** A chain that returns to a table closes a cycle, and each table on it is blocked by its neighbour. */
  lemma CycleIsHeld(db: Db, tenant: string, tables: set<string>, chain: seq<string>, i: nat, j: nat)
    requires Chain(db, tenant, tables, chain) && i < j < |chain| && chain[i] == chain[j]
    ensures forall t | t in chain[i..j] :: !Free(db, tenant, tables - Elements(chain[i..j]), t)
  {
    var held := Elements(chain[i..j]);
    forall t | t in chain[i..j] ensures !Free(db, tenant, tables - held, t) {
      var m :| i <= m < j && chain[m] == t;
      var child := if m == i then chain[j - 1] else chain[m - 1];
      assert child in chain[i..j] by {
        assert child == chain[i..j][if m == i then j - 1 - i else m - 1 - i];
      }
      ReferencedIsBlocked(db, tenant, tables - held, child, t);
    }
  }

  /** When some order of the deletes works, nothing outside refers to the rows and there is no cycle. */
  lemma OrderMeansAcyclic(db: Db, tenant: string, tables: set<string>, order: seq<string>)
    requires Executable(db, tenant, order) && Elements(order) == tables
    ensures NothingOutsideRefers(db, tenant, tables) && Acyclic(db, tenant, tables)
  {
    forall k | k in db && !(db[k].refs !! Owned(db, tables, tenant)) ensures k in Owned(db, tables, tenant) {
      var d :| d in db[k].refs && d in Owned(db, tables, tenant);
      if k !in Owned(db, tables, tenant) {
        assert db[d].table in Elements(order);
        PinnedIsBlocked(db, tenant, tables, tables - {db[d].table}, k, d);
        HeldTablesStay(db, tenant, tables, {db[d].table}, order);
      }
    }
    forall chain | Chain(db, tenant, tables, chain) ensures NoRepeats(chain) {
      forall i, j | 0 <= i < j < |chain| ensures chain[i] != chain[j] {
        if chain[i] == chain[j] {
          assert chain[i] == chain[i..j][0] && chain[i] in Elements(order);
          CycleIsHeld(db, tenant, tables, chain, i, j);
          HeldTablesStay(db, tenant, tables, Elements(chain[i..j]), order);
        }
      }
    }
  }

  /** Conversely, without cycles and outside references some order works. */
  lemma AcyclicHasOrder(db: Db, tenant: string, tables: set<string>) returns (order: seq<string>)
    requires NothingOutsideRefers(db, tenant, tables) && Acyclic(db, tenant, tables)
    ensures Executable(db, tenant, order) && Elements(order) == tables
  {
    order := [];
    while Elements(order) != tables
      invariant Executable(db, tenant, order) && Elements(order) <= tables
      decreases tables - Elements(order)
    {
      var t := NextFree(db, tenant, tables, Elements(order));
      Execute(db, tenant, order, t);
      order := order + [t];
    }
  }

  lemma NextFree(db: Db, tenant: string, tables: set<string>, cleared: set<string>) returns (t: string)
    requires NothingOutsideRefers(db, tenant, tables) && Acyclic(db, tenant, tables)
    requires cleared <= tables && cleared != tables
    ensures t in tables && t !in cleared && Free(db, tenant, cleared, t)
  {
    var rest := ListingOf(tables - cleared);
    assert tables - cleared != {};
    if forall t | t in rest :: !Free(db, tenant, cleared, t) {
      t :| t in tables - cleared;
      assert t in Elements(rest);
      StuckHasLongChains(db, tenant, tables, cleared, rest, t, |tables| + 1);
      var chain :| |chain| == |tables| + 1 && Chain(db, tenant, tables, chain);
      NoRepeatsSize(chain);
      SubsetSize(Elements(chain), tables);
    } else {
      t :| t in rest && Free(db, tenant, cleared, t);
      assert t in Elements(rest);
    }
  }

  lemma {:induction false} OnePassInOrder(db: Db, tenant: string, pass: int, order: seq<string>)
    requires Executable(db, tenant, order)
    ensures PassOver(db, tenant, NO_FAULTS, pass, {}, order) == Passed(Elements(order), [])
  {
    if order != [] {
      var front := order[..|order| - 1];
      OnePassInOrder(db, tenant, pass, front);
      assert order == front + [order[|order| - 1]];
    }
  }

  lemma ListedInOrder(db: Db, tenant: string, order: seq<string>)
    requires Executable(db, tenant, order)
    ensures Passes(db, tenant, NO_FAULTS, {}, order, 1) == Done(Elements(order))
  {
    if order != [] {
      OnePassInOrder(db, tenant, 1, order);
      PassesTurn(db, tenant, NO_FAULTS, {}, order, 1, Passed(Elements(order), []));
    }
  }

  /** Some listing is cleared exactly when nothing outside refers to the rows and no references form a cycle. */
  lemma SomeListingClearsExactlyWhen(db: Db, tenant: string, tables: set<string>)
    ensures SomeListingClears(db, tenant, tables) <==>
      NothingOutsideRefers(db, tenant, tables) && Acyclic(db, tenant, tables)
  {
    if SomeListingClears(db, tenant, tables) {
      var listing :| Elements(listing) == tables && Passes(db, tenant, NO_FAULTS, {}, listing, 1) == Done(tables);
      var order := LoopFacts(db, tenant, NO_FAULTS, {}, listing, 1, []);
      OrderMeansAcyclic(db, tenant, tables, order);
    }
    if NothingOutsideRefers(db, tenant, tables) && Acyclic(db, tenant, tables) {
      var order := AcyclicHasOrder(db, tenant, tables);
      ListedInOrder(db, tenant, order);
    }
  }

  // ---------------------------------------------------------------- a long chain listed parents first

  /** Each table is referenced by the next. */
  ghost predicate Climbs(db: Db, tenant: string, up: seq<string>) {
    NoRepeats(up) && forall i | 0 < i < |up| :: References(db, tenant, up[i], up[i - 1])
  }

  /** The first m tables of the chain head the pending list, and none of them is cleared or listed again. */
  ghost predicate Heads(up: seq<string>, m: nat, cleared: set<string>, pending: seq<string>) {
    && m <= |up| && m <= |pending| && pending[..m] == up[..m]
    && (forall i | 0 <= i < m :: up[i] !in cleared)
    && (forall j | m <= j < |pending| :: pending[j] !in up[..m])
  }

  /** A pass loses at most the last of them: the others still wait for the table after them. */
  lemma {:induction false} PassLosesOne(db: Db, tenant: string, pass: int, up: seq<string>, m: nat,
    cleared: set<string>, pending: seq<string>, i: nat)
    requires Climbs(db, tenant, up) && m > 0 && Heads(up, m, cleared, pending) && i <= |pending|
    ensures var r := PassOver(db, tenant, NO_FAULTS, pass, cleared, pending[..i]);
      r.Passed? && if i < m then r == Passed(cleared, up[..i]) else Heads(up, m - 1, r.cleared, r.blocked)
  {
    if i > 0 {
      assert pending[..i][..i - 1] == pending[..i - 1];
      PassLosesOne(db, tenant, pass, up, m, cleared, pending, i - 1);
      var r := PassOver(db, tenant, NO_FAULTS, pass, cleared, pending[..i - 1]);
      var t := pending[i - 1];
      if i <= m {
        assert t == pending[..m][i - 1] == up[i - 1] && up[..i - 1] + [t] == up[..i];
        if i < m {
          ReferencedIsBlocked(db, tenant, cleared, up[i], t);
        }
      } else {
        assert t !in up[..m];
      }
    }
  }

  lemma {:induction false} LongChainIsNotCleared(db: Db, tenant: string, up: seq<string>, m: nat,
    cleared: set<string>, pending: seq<string>, pass: nat)
    requires Climbs(db, tenant, up) && m > 0 && Heads(up, m, cleared, pending) && m + pass > MAX_PASSES + 1
    ensures var r := Passes(db, tenant, NO_FAULTS, cleared, pending, pass); r.Capped? || r.Stuck?
    decreases m
  {
    var r := PassOver(db, tenant, NO_FAULTS, pass, cleared, pending);
    PassLosesOne(db, tenant, pass, up, m, cleared, pending, |pending|);
    assert pending[..|pending|] == pending;
    PassesTurn(db, tenant, NO_FAULTS, cleared, pending, pass, r);
    if pass <= MAX_PASSES && |r.blocked| != |pending| {
      LongChainIsNotCleared(db, tenant, up, m - 1, r.cleared, r.blocked, pass + 1);
    }
  }

  function Reverse(s: seq<string>): seq<string> {
    seq(|s|, i requires 0 <= i < |s| => s[|s| - 1 - i])
  }

  /** A chain of more than 30 tables has a listing that is not cleared. */
  lemma ParentsFirstIsNotCleared(db: Db, tenant: string, tables: set<string>, chain: seq<string>)
    returns (listing: seq<string>)
    requires Chain(db, tenant, tables, chain) && NoRepeats(chain) && |chain| > MAX_PASSES
    ensures Elements(listing) == tables
    ensures var r := Passes(db, tenant, NO_FAULTS, {}, listing, 1); r.Capped? || r.Stuck?
  {
    var up := Reverse(chain);
    var rest := ListingOf(tables - Elements(chain));
    listing := up + rest;
    assert Elements(up) == Elements(chain) by {
      forall t ensures t in up <==> t in chain {
        assert t in chain ==> exists i :: 0 <= i < |chain| && chain[i] == t && up[|chain| - 1 - i] == t;
      }
    }
    assert Elements(listing) == Elements(up) + Elements(rest);
    forall j | |up| <= j < |listing| ensures listing[j] !in up[..|up|] {
      assert listing[j] == rest[j - |up|] && listing[j] in Elements(rest);
      assert listing[j] !in Elements(up) && up[..|up|] == up;
    }
    assert up[..|up|] == up;
    forall i | 0 < i < |up| ensures References(db, tenant, up[i], up[i - 1]) {
      var n := |chain| - i;
      assert References(db, tenant, chain[n - 1], chain[n]);
    }
    LongChainIsNotCleared(db, tenant, up, |up|, {}, listing, 1);
  }

  /** Every listing of the tables is cleared exactly when nothing outside refers to the rows and no chain
      of references has more than 30 tables. */
  lemma EveryListingClearsExactlyWhen(db: Db, tenant: string, tables: set<string>)
    ensures EveryListingClears(db, tenant, tables) <==>
      NothingOutsideRefers(db, tenant, tables) && ShortChains(db, tenant, tables)
  {
    if EveryListingClears(db, tenant, tables) {
      var listing := ListingOf(tables);
      assert SomeListingClears(db, tenant, tables);
      SomeListingClearsExactlyWhen(db, tenant, tables);
      forall chain | Chain(db, tenant, tables, chain) ensures |chain| <= MAX_PASSES {
        if |chain| > MAX_PASSES {
          var bad := ParentsFirstIsNotCleared(db, tenant, tables, chain);
        }
      }
    }
    if NothingOutsideRefers(db, tenant, tables) && ShortChains(db, tenant, tables) {
      forall listing: seq<string> | Elements(listing) == tables
        ensures Passes(db, tenant, NO_FAULTS, {}, listing, 1) == Done(tables)
      {
        BoundedChainsAreCleared(db, tenant, listing);
      }
    }
  }

  /** So the order of the listing matters exactly when the tables can be cleared but hold a chain longer
      than the pass cap. */
  lemma ListingOrderMattersExactlyWhen(db: Db, tenant: string, tables: set<string>)
    ensures SomeListingClears(db, tenant, tables) && !EveryListingClears(db, tenant, tables) <==>
      && NothingOutsideRefers(db, tenant, tables) && Acyclic(db, tenant, tables)
      && exists chain :: Chain(db, tenant, tables, chain) && |chain| > 30
  {
    SomeListingClearsExactlyWhen(db, tenant, tables);
    EveryListingClearsExactlyWhen(db, tenant, tables);
  }

  // ---------------------------------------------------------------- a database where it matters

  /** Table number k has a name of k + 1 letters. */
  function Name(k: nat): (name: string)
    ensures |name| == k + 1
  {
    seq(k + 1, _ => 'a')
  }

  /** n tables with one row each; row k references row k - 1. */
  function ChainDb(n: nat, tenant: string): Db {
    map k: nat | k < n :: DbRow(Name(k), "", Some(tenant), if k == 0 then {} else {k - 1})
  }

  /** The n tables, children first. */
  function Downwards(n: nat): seq<string> {
    seq(n, k requires 0 <= k < n => Name(n - 1 - k))
  }

  lemma RowsOfName(n: nat, tenant: string, k: nat)
    requires k < n
    ensures RowsIn(ChainDb(n, tenant), Name(k), tenant) == {k}
  {
    forall i | i in ChainDb(n, tenant) && Name(i) == Name(k) ensures i == k {
      assert |Name(i)| == i + 1;
    }
  }

  lemma ChildIsFree(n: nat, tenant: string, i: nat)
    requires i < n
    ensures Free(ChainDb(n, tenant), tenant, Elements(Downwards(n)[..i]), Downwards(n)[i])
  {
    var db, cleared := ChainDb(n, tenant), Elements(Downwards(n)[..i]);
    RowsOfName(n, tenant, n - 1 - i);
    forall k | k in db && n - 1 - i in db[k].refs ensures k in Owned(db, cleared, tenant) {
      assert Downwards(n)[..i][i - 1] == Name(k) == db[k].table;
    }
  }

  lemma {:induction false} ChildrenFirstWorks(n: nat, tenant: string, i: nat)
    requires i <= n
    ensures Executable(ChainDb(n, tenant), tenant, Downwards(n)[..i])
  {
    if i > 0 {
      ChildrenFirstWorks(n, tenant, i - 1);
      ChildIsFree(n, tenant, i - 1);
      assert Downwards(n)[..i][..i - 1] == Downwards(n)[..i - 1];
    }
  }

  /** A chain of 31 tables is cleared children first but meets the cap parents first. */
  lemma CapDependsOnListingOrder(tenant: string) returns (db: Db, a: seq<string>, b: seq<string>)
    ensures Elements(a) == Elements(b)
    ensures Passes(db, tenant, NO_FAULTS, {}, a, 1).Capped? && Passes(db, tenant, NO_FAULTS, {}, b, 1).Done?
  {
    var n := MAX_PASSES + 1;
    db, b := ChainDb(n, tenant), Downwards(n);
    ChildrenFirstWorks(n, tenant, n);
    assert b[..n] == b;
    ListedInOrder(db, tenant, b);
    forall i | 0 < i < n ensures References(db, tenant, b[i - 1], b[i]) {
      RowsOfName(n, tenant, n - i);
      RowsOfName(n, tenant, n - 1 - i);
      assert |b[i - 1]| != |b[i]| && n - i in RowsIn(db, b[i - 1], tenant);
    }
    forall i, j | 0 <= i < j < n ensures b[i] != b[j] {
      assert |b[i]| == n - i;
    }
    a := ParentsFirstIsNotCleared(db, tenant, Elements(b), b);
    ClearsExactlyWhenSomeOrderDoes(db, tenant, NO_FAULTS, b);
    if Passes(db, tenant, NO_FAULTS, {}, a, 1).Stuck? {
      ClearsExactlyWhenSomeOrderDoes(db, tenant, NO_FAULTS, a);
    }
  }

  // ---------------------------------------------------------------- the tenant's own rows, and the whole purge

  /** A row that goes neither with nor before the i-th tenant table never refers to a tenant row in it. */
  ghost predicate DropOrderWorks(db: Db, tenant: string, existing: set<string>, own: seq<string>) {
    forall i, k | 0 <= i < |own| && own[i] in existing
      && k in db && k !in TenantRows(db, existing, own[..i + 1], tenant) ::
      db[k].refs !! TenantRow(db, own[i], tenant)
  }

  /** No statement about these tables fails for another reason. */
  ghost predicate Undisturbed(faults: Faults, existing: set<string>, own: seq<string>) {
    forall t | t in own ::
      (-1, t) !in faults && (t in existing ==> FaultAt(faults, 0, t) in {None, Some(RollbackFails)})
  }

  /** The one new condition when a table is added at the end of the list. */
  ghost predicate LastWorks(db: Db, tenant: string, existing: set<string>, front: seq<string>, t: string) {
    t in existing ==>
      forall k | k in db && k !in TenantRows(db, existing, front + [t], tenant) ::
        db[k].refs !! TenantRow(db, t, tenant)
  }

  lemma DropOrderGrows(db: Db, tenant: string, existing: set<string>, front: seq<string>, t: string)
    ensures DropOrderWorks(db, tenant, existing, front + [t]) <==>
      DropOrderWorks(db, tenant, existing, front) && LastWorks(db, tenant, existing, front, t)
  {
    var own := front + [t];
    assert own[..|own|] == own;
    forall i | 0 <= i < |front| ensures own[i] == front[i] && own[..i + 1] == front[..i + 1] {
    }
    if DropOrderWorks(db, tenant, existing, own) {
      assert own[|front|] == t && own[..|front| + 1] == own;
    }
  }

  /** After the first tables are dropped, the next delete is blocked exactly when its condition fails. */
  lemma LastViolates(db: Db, tenant: string, existing: set<string>, front: seq<string>, t: string, rest: Db)
    requires rest == db - TenantRows(db, existing, front, tenant) && t in existing
    requires DropOrderWorks(db, tenant, existing, front)
    ensures Violates(rest, TenantRow(rest, t, tenant)) <==> !LastWorks(db, tenant, existing, front, t)
  {
    var gone := TenantRow(rest, t, tenant);
    assert TenantRows(db, existing, front + [t], tenant)
      == TenantRows(db, existing, front, tenant) + TenantRow(db, t, tenant);
    if t in front {
      var i :| 0 <= i < |front| && front[i] == t;
      assert front[..i + 1][i] == t;
      assert gone == {};
      forall k | k in db && k !in TenantRows(db, existing, front + [t], tenant)
        ensures db[k].refs !! TenantRow(db, t, tenant)
      {
        assert k !in TenantRows(db, existing, front[..i + 1], tenant);
      }
    } else {
      assert gone == TenantRow(db, t, tenant);
    }
  }

  /** The tenant's own rows are dropped exactly when the list of tables has them in a working order: the
      code deletes each once and never retries. */
  lemma {:induction false} DropSucceedsExactlyWhen(db: Db, tenant: string, faults: Faults, existing: set<string>,
    own: seq<string>)
    ensures DropTenant(db, tenant, faults, existing, own).Some? <==>
      Undisturbed(faults, existing, own) && DropOrderWorks(db, tenant, existing, own)
  {
    if own != [] {
      var front, t := own[..|own| - 1], own[|own| - 1];
      assert own == front + [t];
      DropSucceedsExactlyWhen(db, tenant, faults, existing, front);
      DropOrderGrows(db, tenant, existing, front, t);
      var dropped := DropTenant(db, tenant, faults, existing, front);
      if dropped.Some? {
        DropRemovesExactly(db, tenant, faults, existing, front);
        if t in existing {
          LastViolates(db, tenant, existing, front, t, dropped.value);
        }
      }
    }
  }

  /** A purge without SQL errors succeeds whatever order its tables are listed in, exactly when the tenant id
      is not nil, nothing outside refers to the rows, no chain has more than 30 tables, and the tenant tables
      are listed in a working order. */
  lemma PurgeSucceedsExactlyWhen(db: Db, tenant: string, existing: set<string>, tables: set<string>, own: seq<string>)
    ensures (forall listing: seq<string> | Elements(listing) == tables ::
        PurgeOutcome(db, tenant, CALM, existing, listing, own).Some?)
      <==>
      && tenant != "00000000-0000-0000-0000-000000000000"
      && NothingOutsideRefers(db, tenant, tables) && ShortChains(db, tenant, tables)
      && DropOrderWorks(Cleared(db, tables, tenant), tenant, existing, own)
  {
    DropSucceedsExactlyWhen(Cleared(db, tables, tenant), tenant, NO_FAULTS, existing, own);
    EveryListingClearsExactlyWhen(db, tenant, tables);
    forall listing: seq<string> | Elements(listing) == tables
      ensures Passes(db, tenant, NO_FAULTS, {}, listing, 1).Done? ==>
        Passes(db, tenant, NO_FAULTS, {}, listing, 1) == Done(tables)
    {
      var order := LoopFacts(db, tenant, NO_FAULTS, {}, listing, 1, []);
      assert {} + Elements(listing) == tables;
    }
    var listing := ListingOf(tables);
  }

  /** With a row of auth_tenants that refers to the tenants row, the default list fails and its reverse works. */
  lemma TenantTableOrderMatters(tenant: string) returns (db: Db)
    ensures var existing := {"tenants", "auth_tenants"};
      && DropTenant(db, tenant, NO_FAULTS, existing, ["tenants", "auth_tenants"]).None?
      && DropTenant(db, tenant, NO_FAULTS, existing, ["auth_tenants", "tenants"]) == Some(map[])
  {
    db := map[0 := DbRow("tenants", tenant, None, {}), 1 := DbRow("auth_tenants", tenant, None, {0})];
    var existing, own, reverse := {"tenants", "auth_tenants"}, ["tenants", "auth_tenants"], ["auth_tenants", "tenants"];
    assert own[..1] == ["tenants"] && reverse[..1] == ["auth_tenants"] && reverse[..2] == reverse;
    assert 1 !in TenantRows(db, existing, own[..1], tenant) && 0 in TenantRow(db, own[0], tenant);
    DropSucceedsExactlyWhen(db, tenant, NO_FAULTS, existing, own);
    assert TenantRows(db, existing, reverse, tenant) == {0, 1};
    assert DropOrderWorks(db, tenant, existing, reverse);
    DropSucceedsExactlyWhen(db, tenant, NO_FAULTS, existing, reverse);
    DropRemovesExactly(db, tenant, NO_FAULTS, existing, reverse);
  }
}
