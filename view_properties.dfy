/**
 * What the view code guarantees across calls: which tables getSchemas
 * reports and the schema check covers, what the combined offset map
 * holds, why a second expansion changes nothing, and that recompiling
 * keeps the columns fixed at definition time.
 */
module ViewProperties {
  import opened HsqlTypes
  import opened Views

  // ---------------------------------------------------------------------
  // Table filters and schemas
  // ---------------------------------------------------------------------

  /**
   * A filter is in the filters of a unionSelect chain iff some select of
   * the chain has it.
   */
  lemma {:induction false} ChainFiltersMembership(s: Select, f: TableFilter)
    requires s.ChainOk()
    ensures f in ChainFilters(s) <==> exists c :: 0 <= c < |s.UnionChain()| && f in s.UnionChain()[c].tFilter
    decreases s.unionDepth
  {
    var chain := s.UnionChain();
    if s.unionSelect == null {
      assert chain == [s];
      assert ChainFilters(s) == s.tFilter by {
        assert ChainFilters(s.unionSelect) == [];
      }
      if f in s.tFilter {
        assert f in ChainFilters(s);
        assert 0 < |s.UnionChain()| && f in s.UnionChain()[0].tFilter;
      } else {
        forall c | 0 <= c < |chain| ensures f !in chain[c].tFilter {
          assert chain[c] == s;
        }
      }
    } else {
      var next := s.unionSelect;
      ChainFiltersMembership(next, f);
      assert chain == [s] + next.UnionChain();
      if f in ChainFilters(s) && f !in s.tFilter {
        var c :| 0 <= c < |next.UnionChain()| && f in next.UnionChain()[c].tFilter;
        assert chain[c + 1] == next.UnionChain()[c];
      }
      if exists c :: 0 <= c < |chain| && f in chain[c].tFilter {
        var c :| 0 <= c < |chain| && f in chain[c].tFilter;
        if c > 0 {
          assert chain[c] == next.UnionChain()[c - 1];
        }
      }
    }
  }

  /** The traversal's filters are those of the subqueries' chains. */
  lemma {:induction false} FiltersMembership(sqs: seq<SubQuery>, f: TableFilter)
    requires ChainsOk(sqs)
    ensures f in Filters(sqs) <==> exists i :: 0 <= i < |sqs| && f in ChainFilters(sqs[i].select)
  {
    if sqs != [] {
      var n := |sqs| - 1;
      var init := sqs[..n];
      FiltersPrefix(sqs, n);
      assert sqs[..n + 1] == sqs;
      FiltersMembership(init, f);
      if f in Filters(init) {
        var i :| 0 <= i < |init| && f in ChainFilters(init[i].select);
        assert sqs[i] == init[i];
      }
      if exists i :: 0 <= i < |sqs| && f in ChainFilters(sqs[i].select) {
        var i :| 0 <= i < |sqs| && f in ChainFilters(sqs[i].select);
        if i < n {
          assert sqs[i] == init[i];
        }
      }
    }
  }

  /** hasTable's search agrees with membership in the traversal's filters. */
  lemma ReferencesTableIffFiltered(v: View, table: QualifiedName)
    requires ChainsOk(v.viewSubqueries)
    ensures v.ReferencesTable(table) <==> TableFilter(table) in Filters(v.viewSubqueries)
  {
    var sqs := v.viewSubqueries;
    FiltersMembership(sqs, TableFilter(table));
    forall i | 0 <= i < |sqs|
      ensures ChainReferences(sqs[i].select, table) <==> TableFilter(table) in ChainFilters(sqs[i].select)
    {
    }
  }

  /** getSchemas reports the schema of every table hasTable finds. */
  lemma ReferencedSchemaReported(v: View, table: QualifiedName)
    requires ChainsOk(v.viewSubqueries)
    requires v.ReferencesTable(table)
    ensures table.schema in SchemaList(Filters(v.viewSubqueries))
  {
    ReferencesTableIffFiltered(v, table);
    var fs := Filters(v.viewSubqueries);
    var k :| 0 <= k < |fs| && fs[k] == TableFilter(table);
    assert SchemaList(fs)[k] == table.schema;
  }

  /**
   * A view that passes the constructor's schema check reads only tables of
   * system schemas or of its own schema.
   */
  lemma SchemaCheckCoversReferencedTables(v: View, table: QualifiedName, systemSchemas: set<SchemaName>)
    requires ChainsOk(v.viewSubqueries)
    requires SchemasAllowed(SchemaList(Filters(v.viewSubqueries)), systemSchemas, v.name.schema)
    requires v.ReferencesTable(table)
    ensures table.schema in systemSchemas || table.schema == v.name.schema
  {
    ReferencedSchemaReported(v, table);
    var schemas := SchemaList(Filters(v.viewSubqueries));
    var k :| 0 <= k < |schemas| && schemas[k] == table.schema;
  }

  // ---------------------------------------------------------------------
  // The combined offset map
  // ---------------------------------------------------------------------

  /** In `snap`, select `s` holds a map with an entry for offset `p`. */
  ghost predicate HoldsOffset(s: Select, snap: map<Select, Option<AsteriskMap>>, p: int) {
    s in snap && snap[s].Some? && p in snap[s].value
  }

  /**
   * The combined map has an entry for an offset iff some visited select
   * held one, and that entry is the one some visited select held.
   */
  lemma {:induction false} GatheredEntries(visits: seq<Select>, snap: map<Select, Option<AsteriskMap>>, p: int)
    ensures p in Gathered(visits, snap) <==> exists k :: 0 <= k < |visits| && HoldsOffset(visits[k], snap, p)
    ensures p in Gathered(visits, snap) ==>
      exists k :: 0 <= k < |visits| && HoldsOffset(visits[k], snap, p) &&
                  Gathered(visits, snap)[p] == snap[visits[k]].value[p]
  {
    if visits != [] {
      var n := |visits| - 1;
      var init := visits[..n];
      var s := visits[n];
      GatheredEntries(init, snap, p);
      var g := Gathered(visits, snap);
      if s in init || s !in snap || snap[s].None? {
        assert g == Gathered(init, snap);
        if exists k :: 0 <= k < |visits| && HoldsOffset(visits[k], snap, p) {
          var k :| 0 <= k < |visits| && HoldsOffset(visits[k], snap, p);
          if k == n {
            var k' :| 0 <= k' < |init| && init[k'] == s;
            assert HoldsOffset(init[k'], snap, p);
          } else {
            assert init[k] == visits[k];
          }
        }
        if p in g {
          var k :| 0 <= k < |init| && HoldsOffset(init[k], snap, p) && g[p] == snap[init[k]].value[p];
          assert visits[k] == init[k];
        }
      } else {
        assert g == Gathered(init, snap) + snap[s].value;
        if p in snap[s].value {
          assert HoldsOffset(visits[n], snap, p) && g[p] == snap[visits[n]].value[p];
        } else {
          if exists k :: 0 <= k < |visits| && HoldsOffset(visits[k], snap, p) {
            var k :| 0 <= k < |visits| && HoldsOffset(visits[k], snap, p);
            assert k != n;
            assert init[k] == visits[k];
          }
          if p in g {
            var k :| 0 <= k < |init| && HoldsOffset(init[k], snap, p) && g[p] == snap[init[k]].value[p];
            assert visits[k] == init[k];
          }
        }
      }
    }
  }

  /**
   * Visiting a select a second time adds nothing: its map was drained on
   * the first visit.
   */
  lemma RevisitAddsNothing(visits: seq<Select>, snap: map<Select, Option<AsteriskMap>>, s: Select)
    requires s in visits
    ensures Gathered(visits + [s], snap) == Gathered(visits, snap)
  {
    assert (visits + [s])[..|visits|] == visits;
  }

  /** Once every visited select is drained, collecting again yields nothing. */
  lemma {:induction false} GatheredOfDrained(visits: seq<Select>, snap: map<Select, Option<AsteriskMap>>)
    requires forall s :: s in visits && s in snap ==> snap[s].None?
    ensures Gathered(visits, snap) == map[]
  {
    if visits != [] {
      var init := visits[..|visits| - 1];
      assert forall s :: s in init ==> s in visits;
      GatheredOfDrained(init, snap);
    }
  }

  /**
   * Expanding the asterisks a second time leaves the statement as it is:
   * replaceAsterisksInStatement drains every select it visits, so the map
   * the next call collects is empty.
   */
  lemma SecondExpansionKeepsStatement(v: View)
    requires forall s :: s in Visits(v.viewSubqueries) ==> s.asteriskPositions.None?
    ensures Expanded(v.statement, v.viewSubqueries, Snapshot(v.viewSubqueries)) == Success(v.statement)
  {
    var snap := Snapshot(v.viewSubqueries);
    GatheredOfDrained(Visits(v.viewSubqueries), snap);
  }

  // ---------------------------------------------------------------------
  // Recompilation
  // ---------------------------------------------------------------------

  /**
   * Columns are fixed when the view is first compiled: a later compile with
   * any other output leaves them as they were.
   */
  lemma RecompileKeepsColumns(current: seq<ColumnDef>, first: seq<ColumnDef>, firstLen: nat,
                              later: seq<ColumnDef>, laterLen: nat)
    requires firstLen <= |first| && laterLen <= |later|
    requires |FrozenColumns(current, first, firstLen)| > 0
    ensures FrozenColumns(FrozenColumns(current, first, firstLen), later, laterLen)
         == FrozenColumns(current, first, firstLen)
  {
  }
}
