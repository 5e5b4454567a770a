/**
 * The view object of org.hsqldb.View and the parts of the parser's output
 * it works on: selects with their union branches, table filters, recorded
 * asterisk positions and collected expressions, and the subqueries in
 * materialization order.
 */
module Views {
  import opened HsqlTypes
  import opened StatementText
  import opened StatementProperties

  /** A catalog sequence; expressions refer to it by identity. */
  class NumberSequence {
    const name: QualifiedName

    constructor (name: QualifiedName)
      ensures this.name == name
    {
      this.name := name;
    }
  }

  /**
   * What Expression.Collector finds when it walks a select: column
   * references (Expression.COLUMN), sequence values (Expression.SEQUENCE),
   * and expressions of any other kind.
   */
  datatype Expression =
    | Column(baseColumnName: string, tableName: QualifiedName)
    | SequenceValue(valueData: NumberSequence)
    | OtherExpression

  /**
   * A bound select, as the parser leaves it. Only `asteriskPositions` is
   * changed by the view code (it is drained to null); the rest is fixed.
   * `unionSelect` links the next branch of a UNION; `unionArray` lists all
   * branches, the select itself first. `unionDepth` is the length of the
   * rest of the unionSelect chain, so that the chain is finite.
   */
  class Select {
    var asteriskPositions: Option<AsteriskMap>
    const tFilter: seq<TableFilter>
    const unionSelect: Select?
    const unionArray: Option<seq<Select>>
    const expressions: seq<Expression>
    ghost const unionDepth: nat

    ghost predicate ChainOk()
      decreases unionDepth
    {
      unionSelect != null ==> unionSelect.unionDepth < unionDepth && unionSelect.ChainOk()
    }

    /** This select followed by the selects reached through unionSelect. */
    ghost function UnionChain(): (chain: seq<Select>)
      requires ChainOk()
      ensures |chain| > 0 && chain[0] == this
      decreases unionDepth
    {
      if unionSelect == null then [this] else [this] + unionSelect.UnionChain()
    }

    constructor (asterisks: Option<AsteriskMap>, filters: seq<TableFilter>, next: Select?,
                 unions: Option<seq<Select>>, exprs: seq<Expression>)
      requires next != null ==> next.ChainOk()
      ensures ChainOk()
      ensures asteriskPositions == asterisks && tFilter == filters && unionSelect == next
      ensures unionArray == unions && expressions == exprs
    {
      asteriskPositions := asterisks;
      tFilter := filters;
      unionSelect := next;
      unionArray := unions;
      expressions := exprs;
      unionDepth := if next == null then 0 else next.unionDepth + 1;
    }
  }

  /** One subquery of a view: its select and the view it stands for, if any. */
  class SubQuery {
    const select: Select
    const view: View?

    constructor (select: Select, view: View?)
      ensures this.select == select && this.view == view
    {
      this.select := select;
      this.view := view;
    }
  }

  /** Every subquery's unionSelect chain is finite. */
  ghost predicate ChainsOk(sqs: seq<SubQuery>) {
    forall i :: 0 <= i < |sqs| ==> sqs[i].select.ChainOk()
  }

  // ---------------------------------------------------------------------
  // Traversal orders
  // ---------------------------------------------------------------------

  /** How many selects a unionSelect chain starting at `s` still has. */
  ghost function ChainLength(s: Select?): nat {
    if s == null then 0 else s.unionDepth + 1
  }

  /** The table filters of the selects from `s` along unionSelect, in order. */
  ghost function ChainFilters(s: Select?): (fs: seq<TableFilter>)
    requires s != null ==> s.ChainOk()
    ensures s == null ==> fs == []
    ensures s != null ==> |s.tFilter| <= |fs| && fs[..|s.tFilter|] == s.tFilter
    decreases ChainLength(s)
  {
    if s == null then [] else s.tFilter + ChainFilters(s.unionSelect)
  }

  /**
   * Every table filter of every select in every subquery's unionSelect
   * chain, in the order getSchemas and hasTable visit them.
   */
  ghost function Filters(sqs: seq<SubQuery>): (fs: seq<TableFilter>)
    requires ChainsOk(sqs)
    ensures forall i, f :: 0 <= i < |sqs| && f in ChainFilters(sqs[i].select) ==> f in fs
  {
    if sqs == [] then []
    else
      Filters(sqs[..|sqs| - 1]) + ChainFilters(sqs[|sqs| - 1].select)
  }

  /** A filter of `fs` is on `table` iff `fs` holds the filter of `table`. */
  lemma FilterOnTable(fs: seq<TableFilter>, table: QualifiedName)
    ensures (exists j :: 0 <= j < |fs| && fs[j].tableName == table) <==> TableFilter(table) in fs
  {
    if TableFilter(table) in fs {
      var j :| 0 <= j < |fs| && fs[j] == TableFilter(table);
      assert fs[j].tableName == table;
    }
    if exists j :: 0 <= j < |fs| && fs[j].tableName == table {
      var j :| 0 <= j < |fs| && fs[j].tableName == table;
      assert fs[j] == TableFilter(table);
    }
  }

  /**
   * Some select from `s` along unionSelect has a filter on `table`: the
   * search of hasTable. It holds iff the chain's filters include the
   * filter of `table`.
   */
  ghost function ChainReferences(s: Select?, table: QualifiedName): (r: bool)
    requires s != null ==> s.ChainOk()
    ensures r <==> TableFilter(table) in ChainFilters(s)
    decreases ChainLength(s)
  {
    && s != null
    && (FilterOnTable(s.tFilter, table);
        (exists j :: 0 <= j < |s.tFilter| && s.tFilter[j].tableName == table)
        || ChainReferences(s.unionSelect, table))
  }

  /** One schema per table filter: the schema of the filtered table. */
  function SchemaList(fs: seq<TableFilter>): (schemas: seq<SchemaName>)
    ensures |schemas| == |fs|
    ensures forall k :: 0 <= k < |fs| ==> schemas[k] == fs[k].tableName.schema
  {
    seq(|fs|, k requires 0 <= k < |fs| => fs[k].tableName.schema)
  }

  /**
   * The selects replaceAsterisksInStatement collects from for one
   * subquery: its select, then branches 1.. of that select's unionArray.
   */
  function SubqueryVisits(sq: SubQuery): (vs: seq<Select>)
    ensures |vs| > 0 && vs[0] == sq.select
  {
    [sq.select] + match sq.select.unionArray
                  case None => []
                  case Some(ua) => if |ua| == 0 then [] else ua[1..]
  }

  /**
   * The selects replaceAsterisksInStatement collects from, in order; every
   * select that some subquery visits is among them.
   */
  function Visits(sqs: seq<SubQuery>): (vs: seq<Select>)
    ensures forall i, s :: 0 <= i < |sqs| && s in SubqueryVisits(sqs[i]) ==> s in vs
  {
    if sqs == [] then [] else Visits(sqs[..|sqs| - 1]) + SubqueryVisits(sqs[|sqs| - 1])
  }

  ghost function VisitedSelects(sqs: seq<SubQuery>): set<Select> {
    set s | s in Visits(sqs)
  }

  /** The offset map each visited select holds in the current state. */
  ghost function Snapshot(sqs: seq<SubQuery>): (snap: map<Select, Option<AsteriskMap>>)
    reads VisitedSelects(sqs)
    ensures forall s :: s in Visits(sqs) ==> s in snap && snap[s] == s.asteriskPositions
  {
    map s | s in VisitedSelects(sqs) :: s.asteriskPositions
  }

  /**
   * The combined offset map after collecting from `visits` in order, each
   * select holding its map of `snap`: a select seen before has already
   * been drained and adds nothing; a later entry for an offset replaces an
   * earlier one (IntKeyHashMap.put).
   */
  ghost function Gathered(visits: seq<Select>, snap: map<Select, Option<AsteriskMap>>): (g: AsteriskMap)
    ensures forall s :: s in visits && s in snap && snap[s].Some? ==> snap[s].value.Keys <= g.Keys
  {
    if visits == [] then map[]
    else
      var init := visits[..|visits| - 1];
      var s := visits[|visits| - 1];
      var acc := Gathered(init, snap);
      if s in init || s !in snap || snap[s].None? then acc else acc + snap[s].value
  }

  /**
   * The statement replaceAsterisksInStatement makes of `statement` when the
   * selects hold the maps of `snap`: the collected column lists spliced in
   * at the offsets in ascending order.
   */
  ghost function Expanded(statement: string, sqs: seq<SubQuery>, snap: map<Select, Option<AsteriskMap>>): (r: Result<string>)
    ensures r.Failure? ==> r.error == StringIndexOutOfBounds
    ensures Gathered(Visits(sqs), snap) == map[] ==> r == Success(statement)
  {
    var combined := Gathered(Visits(sqs), snap);
    EmptyMapKeepsStatement(statement, SortedKeys(combined.Keys));
    Splice(statement, SortedKeys(combined.Keys), combined, 0)
  }

  // ---------------------------------------------------------------------
  // Compilation
  // ---------------------------------------------------------------------

  /**
   * What the parser returns for a view statement: the top-level subquery,
   * all subqueries in materialization order (the view's own last), and
   * what prepareResult then yields: the output column descriptors and how
   * many of them are visible, or the error it throws.
   */
  datatype ParsedView = ParsedView(
    subQuery: SubQuery,
    sortedSubqueries: seq<SubQuery>,
    prepared: Result<seq<ColumnDef>>,
    resultLen: nat)
  {
    ghost predicate WellFormed() {
      && |sortedSubqueries| > 0
      && sortedSubqueries[|sortedSubqueries| - 1] == subQuery
      && ChainsOk(sortedSubqueries)
      && (prepared.Success? ==> resultLen <= |prepared.value|)
    }
  }

  /**
   * The columns after compile: addColumns runs only while the view has no
   * columns yet, taking the first `resultLen` output columns.
   */
  function FrozenColumns(current: seq<ColumnDef>, metadata: seq<ColumnDef>, resultLen: nat): (cols: seq<ColumnDef>)
    requires resultLen <= |metadata|
    ensures |current| > 0 ==> cols == current
    ensures |current| == 0 ==> cols == metadata[..resultLen]
  {
    if |current| == 0 then metadata[..resultLen] else current
  }

  /** A schema reference passes the gate when it is a system schema or the view's own. */
  predicate SchemasAllowed(schemas: seq<SchemaName>, systemSchemas: set<SchemaName>, viewSchema: SchemaName) {
    forall k :: 0 <= k < |schemas| ==> schemas[k] in systemSchemas || schemas[k] == viewSchema
  }

  /** The schema check of the View constructor. */
  method CheckSchemas(schemas: seq<SchemaName>, systemSchemas: set<SchemaName>, viewSchema: SchemaName)
    returns (r: Outcome)
    ensures r == Pass <==> SchemasAllowed(schemas, systemSchemas, viewSchema)
    ensures r.Fail? ==> r.error == InvalidSchemaNameNoSubclass
    ensures r.Fail? <==> exists k :: 0 <= k < |schemas| && schemas[k] !in systemSchemas && schemas[k] != viewSchema
  {
    for i := 0 to |schemas|
      invariant SchemasAllowed(schemas[..i], systemSchemas, viewSchema)
    {
      if schemas[i] in systemSchemas {
        continue;
      }
      if schemas[i] != viewSchema {
        return Fail(InvalidSchemaNameNoSubclass);
      }
    }
    assert schemas[..|schemas|] == schemas;
    return Pass;
  }

  /** A view: a read-only table defined by a stored SELECT statement. */
  class View {
    const name: QualifiedName
    /** The explicit column names of the definition, handed to the parser. */
    const colList: Option<seq<string>>
    const isReadOnly: bool
    var statement: string
    /** The session's current schema when the view was defined. */
    var compileTimeSchema: SchemaName
    var viewSubQuery: SubQuery?
    var viewSelect: Select?
    /** The subqueries in materialization order; the last is the view itself. */
    var viewSubqueries: seq<SubQuery>
    /** The table's columns; the source's columnCount is their number. */
    var columns: seq<ColumnDef>

    /** The fields compile establishes. */
    ghost predicate Compiled()
      reads this`viewSubQuery, this`viewSubqueries, this`viewSelect
    {
      && viewSubQuery != null
      && |viewSubqueries| > 0
      && viewSubqueries[|viewSubqueries| - 1] == viewSubQuery
      && viewSelect == viewSubQuery.select
      && ChainsOk(viewSubqueries)
    }

    /**
     * The field set-up of the constructor, before compile: a read-only
     * table without columns holding the trimmed statement.
     */
    constructor (name: QualifiedName, colList: Option<seq<string>>, statement: string, compileTimeSchema: SchemaName)
      ensures this.name == name && this.colList == colList && isReadOnly
      ensures this.statement == statement && this.compileTimeSchema == compileTimeSchema
      ensures columns == [] && viewSubqueries == [] && viewSubQuery == null && viewSelect == null
    {
      this.name := name;
      this.colList := colList;
      isReadOnly := true;
      this.statement := statement;
      this.compileTimeSchema := compileTimeSchema;
      viewSubQuery := null;
      viewSelect := null;
      viewSubqueries := [];
      columns := [];
    }

    /**
     * The View constructor as a whole: trim the definition, compile it,
     * expand its asterisks and check that every table it reads lies in a
     * system schema or in the view's own schema. `tokenizer` is what the
     * tokenizer reports on the definition, `binding` what the parser and
     * prepareResult make of the trimmed statement, `sessionSchema` the
     * session's current schema and `systemSchemas` the schemas the schema
     * manager calls system schemas.
     */
    static method Create(name: QualifiedName, definition: string, colList: Option<seq<string>>,
                         tokenizer: seq<Step>, sessionSchema: SchemaName, binding: Result<ParsedView>,
                         systemSchemas: set<SchemaName>)
      returns (r: Result<View>)
      requires TokenizerOf(definition, tokenizer)
      requires binding.Success? ==> binding.value.WellFormed()
      modifies if binding.Success? then VisitedSelects(binding.value.sortedSubqueries) else {}
      ensures binding.Success? && (TrimmedStatement(definition, tokenizer).Failure? || binding.value.prepared.Failure?) ==>
        forall s :: s in Visits(binding.value.sortedSubqueries) ==>
          s.asteriskPositions == old(Snapshot(binding.value.sortedSubqueries))[s]
      ensures var trimmed := TrimmedStatement(definition, tokenizer);
        && (trimmed.Failure? ==> r == Failure(trimmed.error))
        && (trimmed.Success? && binding.Failure? ==> r == Failure(binding.error))
        && (trimmed.Success? && binding.Success? && binding.value.prepared.Failure? ==>
              r == Failure(binding.value.prepared.error))
      ensures var trimmed := TrimmedStatement(definition, tokenizer);
        trimmed.Success? && binding.Success? && binding.value.prepared.Success? ==>
        var parsed := binding.value;
        var expanded := Expanded(trimmed.value, parsed.sortedSubqueries, old(Snapshot(parsed.sortedSubqueries)));
        var schemas := SchemaList(Filters(parsed.sortedSubqueries));
        && (forall s :: s in Visits(parsed.sortedSubqueries) ==> s.asteriskPositions.None?)
        && (expanded.Failure? ==> r == Failure(expanded.error))
        && (expanded.Success? && !SchemasAllowed(schemas, systemSchemas, name.schema) ==>
              r == Failure(InvalidSchemaNameNoSubclass))
        && (expanded.Success? && SchemasAllowed(schemas, systemSchemas, name.schema) ==>
              && r.Success? && fresh(r.value)
              && r.value.name == name && r.value.colList == colList && r.value.isReadOnly
              && r.value.statement == expanded.value
              && r.value.compileTimeSchema == sessionSchema
              && r.value.viewSubQuery == parsed.subQuery
              && r.value.viewSubqueries == parsed.sortedSubqueries
              && r.value.Compiled()
              && r.value.columns == parsed.prepared.value[..parsed.resultLen])
    {
      if binding.Success? {
        VisitsAllocated(binding.value.sortedSubqueries);
      }
      var trimmed := TrimStatement(definition, tokenizer);
      if trimmed.Failure? {
        return Failure(trimmed.error);
      }
      r := Build(name, colList, trimmed.value, sessionSchema, binding, systemSchemas);
    }

    /** The constructor from the trimmed statement on. */
    static method Build(name: QualifiedName, colList: Option<seq<string>>, statement: string,
                        sessionSchema: SchemaName, binding: Result<ParsedView>, systemSchemas: set<SchemaName>)
      returns (r: Result<View>)
      requires binding.Success? ==> binding.value.WellFormed()
      modifies if binding.Success? then VisitedSelects(binding.value.sortedSubqueries) else {}
      ensures binding.Failure? ==> r == Failure(binding.error)
      ensures binding.Success? && binding.value.prepared.Failure? ==>
        && r == Failure(binding.value.prepared.error)
        && forall s :: s in Visits(binding.value.sortedSubqueries) ==>
             s.asteriskPositions == old(Snapshot(binding.value.sortedSubqueries))[s]
      ensures binding.Success? && binding.value.prepared.Success? ==>
        var parsed := binding.value;
        var expanded := Expanded(statement, parsed.sortedSubqueries, old(Snapshot(parsed.sortedSubqueries)));
        var schemas := SchemaList(Filters(parsed.sortedSubqueries));
        && (forall s :: s in Visits(parsed.sortedSubqueries) ==> s.asteriskPositions.None?)
        && (expanded.Failure? ==> r == Failure(expanded.error))
        && (expanded.Success? && !SchemasAllowed(schemas, systemSchemas, name.schema) ==>
              r == Failure(InvalidSchemaNameNoSubclass))
        && (expanded.Success? && SchemasAllowed(schemas, systemSchemas, name.schema) ==>
              && r.Success? && fresh(r.value)
              && r.value.name == name && r.value.colList == colList && r.value.isReadOnly
              && r.value.statement == expanded.value
              && r.value.compileTimeSchema == sessionSchema
              && r.value.viewSubQuery == parsed.subQuery
              && r.value.viewSubqueries == parsed.sortedSubqueries
              && r.value.Compiled()
              && r.value.columns == parsed.prepared.value[..parsed.resultLen])
    {
      if binding.Success? {
        VisitsAllocated(binding.value.sortedSubqueries);
      }
      var view, compiled := CompileNew(name, colList, statement, sessionSchema, binding);
      if compiled.Fail? {
        return Failure(compiled.error);
      }
      var checked := view.ExpandAndCheck(systemSchemas);
      if checked.Fail? {
        return Failure(checked.error);
      }
      return Success(view);
    }

    /** The constructor up to and including compile. */
    static method CompileNew(name: QualifiedName, colList: Option<seq<string>>, statement: string,
                             sessionSchema: SchemaName, binding: Result<ParsedView>)
      returns (view: View, r: Outcome)
      requires binding.Success? ==> binding.value.WellFormed()
      ensures fresh(view)
      ensures binding.Failure? ==> r == Fail(binding.error)
      ensures binding.Success? && binding.value.prepared.Failure? ==> r == Fail(binding.value.prepared.error)
      ensures binding.Success? && binding.value.prepared.Success? ==>
        var parsed := binding.value;
        && r == Pass
        && view.name == name && view.colList == colList && view.isReadOnly
        && view.statement == statement
        && view.compileTimeSchema == sessionSchema
        && view.viewSubQuery == parsed.subQuery
        && view.viewSubqueries == parsed.sortedSubqueries
        && view.Compiled()
        && view.columns == parsed.prepared.value[..parsed.resultLen]
    {
      view := new View(name, colList, statement, sessionSchema);
      r := view.Compile(binding);
    }

    /** The rest of the constructor after compile: expansion, then the schema check. */
    method ExpandAndCheck(systemSchemas: set<SchemaName>) returns (r: Outcome)
      requires Compiled()
      modifies this`statement, VisitedSelects(viewSubqueries)
      ensures forall s :: s in Visits(viewSubqueries) ==> s.asteriskPositions.None?
      ensures var expanded := Expanded(old(statement), viewSubqueries, old(Snapshot(viewSubqueries)));
        var schemas := SchemaList(Filters(viewSubqueries));
        && (expanded.Failure? ==> r == Fail(expanded.error) && statement == old(statement))
        && (expanded.Success? ==> statement == expanded.value)
        && (expanded.Success? && !SchemasAllowed(schemas, systemSchemas, name.schema) ==>
              r == Fail(InvalidSchemaNameNoSubclass))
        && (expanded.Success? && SchemasAllowed(schemas, systemSchemas, name.schema) ==> r == Pass)
    {
      VisitsAllocated(viewSubqueries);
      r := ReplaceAsterisksInStatement();
      if r.Fail? {
        return;
      }
      var schemas := GetSchemas();
      r := CheckSchemas(schemas, systemSchemas, name.schema);
    }

    /**
     * compile: takes the parser's result for the current statement, keeps
     * its top-level subquery, the sorted subqueries and the top select, and
     * adds the output columns only if the view has none yet.
     */
    method Compile(binding: Result<ParsedView>) returns (r: Outcome)
      requires binding.Success? ==> binding.value.WellFormed()
      modifies this`viewSubQuery, this`viewSubqueries, this`viewSelect, this`columns
      ensures binding.Failure? ==> r == Fail(binding.error) && unchanged(this)
      ensures binding.Success? ==>
        && viewSubQuery == binding.value.subQuery
        && viewSubqueries == binding.value.sortedSubqueries
        && viewSelect == binding.value.subQuery.select
        && Compiled()
      ensures binding.Success? && binding.value.prepared.Failure? ==>
        r == Fail(binding.value.prepared.error) && columns == old(columns)
      ensures binding.Success? && binding.value.prepared.Success? ==>
        && r == Pass
        && columns == FrozenColumns(old(columns), binding.value.prepared.value, binding.value.resultLen)
    {
      if binding.Failure? {
        return Fail(binding.error);
      }
      var parsed := binding.value;
      viewSubQuery := parsed.subQuery;
      viewSubqueries := parsed.sortedSubqueries;
      viewSelect := viewSubQuery.select;
      if parsed.prepared.Failure? {
        return Fail(parsed.prepared.error);
      }
      var metadata := parsed.prepared.value;
      if |columns| == 0 {
        // a recompile keeps the columns fixed by the first compile
        columns := columns + metadata[..parsed.resultLen];
      }
      return Pass;
    }

    /**
     * collectAsteriskPos: copies every entry of the select's offset map
     * into the combined map, then sets the select's map to null. A select
     * whose map is already null adds nothing.
     */
    static method CollectAsteriskPos(select: Select, asteriskPositions: AsteriskMap) returns (combined: AsteriskMap)
      modifies select`asteriskPositions
      ensures select.asteriskPositions.None?
      ensures combined == match old(select.asteriskPositions)
                          case None => asteriskPositions
                          case Some(own) => asteriskPositions + own
    {
      combined := asteriskPositions;
      if select.asteriskPositions.None? {
        return;
      }
      var own := select.asteriskPositions.value;
      var keys := own.Keys;
      ghost var added: set<int> := {};
      while keys != {}
        invariant keys <= own.Keys && added <= own.Keys
        invariant forall p :: p in own ==> (p in keys <==> p !in added)
        invariant forall p :: p in combined <==> p in asteriskPositions || p in added
        invariant forall p :: p in added ==> combined[p] == own[p]
        invariant forall p :: p in combined && p !in added ==> combined[p] == asteriskPositions[p]
        decreases |keys|
      {
        HasElement(keys);
        var pos :| pos in keys;
        combined := combined[pos := own[pos]];
        keys := keys - {pos};
        added := added + {pos};
      }
      MapsEqual(combined, asteriskPositions + own);
      select.asteriskPositions := None;
    }

    /**
     * replaceAsterisksInStatement: collects the offset maps of every
     * subquery's select and of branches 1.. of its unionArray, draining each,
     * then splices the column lists into the statement at the sorted
     * offsets. The statement is replaced only if the splice succeeds.
     */
    method ReplaceAsterisksInStatement() returns (r: Outcome)
      modifies this`statement, VisitedSelects(viewSubqueries)
      ensures forall s :: s in Visits(viewSubqueries) ==> s.asteriskPositions.None?
      ensures var expanded := Expanded(old(statement), viewSubqueries, old(Snapshot(viewSubqueries)));
              && (expanded.Success? ==> r == Pass && statement == expanded.value)
              && (expanded.Failure? ==> r == Fail(expanded.error) && statement == old(statement))
    {
      VisitsAllocated(viewSubqueries);
      var asteriskPositions := CollectAll(viewSubqueries);
      var positions := SortedPositions(asteriskPositions);
      var expanded := ExpandStatement(statement, positions, asteriskPositions);
      match expanded
      case Success(text) =>
        statement := text;
        return Pass;
      case Failure(e) =>
        return Fail(e);
    }

    /** The collecting loop of replaceAsterisksInStatement. */
    static method CollectAll(sqs: seq<SubQuery>) returns (asteriskPositions: AsteriskMap)
      modifies VisitedSelects(sqs)
      ensures forall s :: s in Visits(sqs) ==> s.asteriskPositions.None?
      ensures asteriskPositions == Gathered(Visits(sqs), old(Snapshot(sqs)))
    {
      ghost var before := Snapshot(sqs);
      ghost var universe := VisitedSelects(sqs);
      asteriskPositions := map[];
      for i := 0 to |sqs|
        invariant asteriskPositions == Gathered(Visits(sqs[..i]), before)
        invariant forall s :: s in Visits(sqs[..i]) ==> s.asteriskPositions.None?
        invariant forall s :: s in universe && s !in Visits(sqs[..i]) ==> s.asteriskPositions == before[s]
      {
        VisitsPrefix(sqs, i);
        asteriskPositions := CollectSubquery(sqs[i], asteriskPositions, Visits(sqs[..i]), universe, before);
      }
      assert sqs[..|sqs|] == sqs;
    }

    /**
     * One round of the collecting loop: the subquery's select, then its
     * union branches from index 1 on. `done` is what earlier rounds
     * visited; `universe` holds every select the whole loop visits, each
     * with its offset map of `before` until it is drained.
     */
    static method CollectSubquery(sq: SubQuery, asteriskPositions: AsteriskMap, ghost done: seq<Select>,
                                  ghost universe: set<Select>, ghost before: map<Select, Option<AsteriskMap>>)
      returns (combined: AsteriskMap)
      requires forall s :: s in SubqueryVisits(sq) ==> s in universe
      requires forall s :: s in universe ==> s in before
      requires asteriskPositions == Gathered(done, before)
      requires forall s :: s in done ==> s.asteriskPositions.None?
      requires forall s :: s in universe && s !in done ==> s.asteriskPositions == before[s]
      modifies universe
      ensures combined == Gathered(done + SubqueryVisits(sq), before)
      ensures forall s :: s in done + SubqueryVisits(sq) ==> s.asteriskPositions.None?
      ensures forall s :: s in universe && s !in done + SubqueryVisits(sq) ==> s.asteriskPositions == before[s]
    {
      var subSelect := sq.select;
      combined := CollectStep(subSelect, asteriskPositions, done, universe, before);
      ghost var seen := done + [subSelect];
      // with an empty unionArray the loop from index 1 does not run
      if subSelect.unionArray.Some? && |subSelect.unionArray.value| > 0 {
        var unionArray := subSelect.unionArray.value;
        assert SubqueryVisits(sq) == [subSelect] + unionArray[1..];
        combined := CollectUnionBranches(unionArray, combined, seen, universe, before);
        assert seen + unionArray[1..] == done + SubqueryVisits(sq);
      } else {
        assert seen == done + SubqueryVisits(sq);
      }
    }

    /** The inner loop: union branches 1.. of a select, index 0 being the select itself. */
    static method CollectUnionBranches(unionArray: seq<Select>, asteriskPositions: AsteriskMap, ghost done: seq<Select>,
                                       ghost universe: set<Select>, ghost before: map<Select, Option<AsteriskMap>>)
      returns (combined: AsteriskMap)
      requires |unionArray| > 0
      requires forall s :: s in unionArray[1..] ==> s in universe
      requires forall s :: s in universe ==> s in before
      requires asteriskPositions == Gathered(done, before)
      requires forall s :: s in done ==> s.asteriskPositions.None?
      requires forall s :: s in universe && s !in done ==> s.asteriskPositions == before[s]
      modifies universe
      ensures combined == Gathered(done + unionArray[1..], before)
      ensures forall s :: s in done + unionArray[1..] ==> s.asteriskPositions.None?
      ensures forall s :: s in universe && s !in done + unionArray[1..] ==> s.asteriskPositions == before[s]
    {
      combined := asteriskPositions;
      ghost var seen := done;
      for u := 1 to |unionArray|
        invariant seen == done + unionArray[1..u]
        invariant combined == Gathered(seen, before)
        invariant forall s :: s in seen ==> s.asteriskPositions.None?
        invariant forall s :: s in universe && s !in seen ==> s.asteriskPositions == before[s]
      {
        BranchesStep(unionArray, u);
        combined := CollectStep(unionArray[u], combined, seen, universe, before);
        seen := seen + [unionArray[u]];
      }
      assert unionArray[1..|unionArray|] == unionArray[1..];
    }

    /**
     * One call of collectAsteriskPos inside the collecting loop: `done` is
     * what was visited before; the select is drained, and its map of
     * `before` joins the combined map unless it was visited already.
     */
    static method CollectStep(select: Select, asteriskPositions: AsteriskMap, ghost done: seq<Select>,
                              ghost universe: set<Select>, ghost before: map<Select, Option<AsteriskMap>>)
      returns (combined: AsteriskMap)
      requires select in universe
      requires forall s :: s in universe ==> s in before
      requires asteriskPositions == Gathered(done, before)
      requires forall s :: s in done ==> s.asteriskPositions.None?
      requires forall s :: s in universe && s !in done ==> s.asteriskPositions == before[s]
      modifies select`asteriskPositions
      ensures combined == Gathered(done + [select], before)
      ensures forall s :: s in done + [select] ==> s.asteriskPositions.None?
      ensures forall s :: s in universe && s !in done + [select] ==> s.asteriskPositions == before[s]
    {
      combined := CollectAsteriskPos(select, asteriskPositions);
      assert (done + [select])[..|done|] == done;
    }

    /** setDataReadOnly: a view is not a table whose data can be set read-only. */
    method SetDataReadOnly(value: bool) returns (r: Outcome)
      ensures r == Fail(NotATable)
    {
      return Fail(NotATable);
    }

    /** getSchemas: the schema of every table filter, in traversal order. */
    method GetSchemas() returns (schemas: seq<SchemaName>)
      requires ChainsOk(viewSubqueries)
      ensures schemas == SchemaList(Filters(viewSubqueries))
    {
      var list: seq<SchemaName> := [];
      for i := 0 to |viewSubqueries|
        invariant list == SchemaList(Filters(viewSubqueries[..i]))
      {
        FiltersPrefix(viewSubqueries, i);
        SchemaListConcat(Filters(viewSubqueries[..i]), ChainFilters(viewSubqueries[i].select));
        list := AppendChainSchemas(list, viewSubqueries[i].select);
      }
      assert viewSubqueries[..|viewSubqueries|] == viewSubqueries;
      return list;
    }

    /** The walk of getSchemas along one unionSelect chain. */
    static method AppendChainSchemas(list: seq<SchemaName>, first: Select) returns (extended: seq<SchemaName>)
      requires first.ChainOk()
      ensures extended == list + SchemaList(ChainFilters(first))
    {
      extended := list;
      var select: Select? := first;
      while select != null
        invariant select != null ==> select.ChainOk()
        invariant extended + SchemaList(ChainFilters(select)) == list + SchemaList(ChainFilters(first))
        decreases ChainLength(select)
      {
        ChainSchemasStep(extended, select);
        extended := AppendFilterSchemas(extended, select.tFilter);
        select := select.unionSelect;
      }
    }

    /** The innermost loop of getSchemas: one schema per filter of one select. */
    static method AppendFilterSchemas(list: seq<SchemaName>, tfilter: seq<TableFilter>) returns (extended: seq<SchemaName>)
      ensures extended == list + SchemaList(tfilter)
    {
      extended := list;
      for j := 0 to |tfilter|
        invariant extended == list + SchemaList(tfilter[..j])
      {
        assert tfilter[..j + 1] == tfilter[..j] + [tfilter[j]];
        SchemaListConcat(tfilter[..j], [tfilter[j]]);
        extended := extended + [tfilter[j].tableName.schema];
      }
      assert tfilter[..|tfilter|] == tfilter;
    }

    /** hasView: true iff another view is the view of one of the subqueries. */
    method HasView(view: View) returns (r: bool)
      ensures r <==> view != this && exists i :: 0 <= i < |viewSubqueries| && viewSubqueries[i].view == view
    {
      if view == this {
        return false;
      }
      for i := 0 to |viewSubqueries|
        invariant forall k :: 0 <= k < i ==> viewSubqueries[k].view != view
      {
        if viewSubqueries[i].view == view {
          return true;
        }
      }
      return false;
    }

    /** Some table filter, in some select of some subquery's union chain, is on `table`. */
    ghost predicate ReferencesTable(table: QualifiedName)
      requires ChainsOk(viewSubqueries)
      reads this`viewSubqueries
    {
      exists i :: 0 <= i < |viewSubqueries| && ChainReferences(viewSubqueries[i].select, table)
    }

    /** hasTable: the nested search over subqueries, union chains and filters. */
    method HasTable(table: QualifiedName) returns (r: bool)
      requires ChainsOk(viewSubqueries)
      ensures r <==> ReferencesTable(table)
    {
      for i := 0 to |viewSubqueries|
        invariant forall i' :: 0 <= i' < i ==> !ChainReferences(viewSubqueries[i'].select, table)
      {
        var found := ChainHasTable(viewSubqueries[i].select, table);
        if found {
          return true;
        }
      }
      return false;
    }

    /** The walk of hasTable along one unionSelect chain. */
    static method ChainHasTable(first: Select, table: QualifiedName) returns (found: bool)
      requires first.ChainOk()
      ensures found <==> ChainReferences(first, table)
    {
      var select: Select? := first;
      while select != null
        invariant select != null ==> select.ChainOk()
        invariant ChainReferences(first, table) <==> ChainReferences(select, table)
        decreases ChainLength(select)
      {
        found := FiltersHaveTable(select.tFilter, table);
        if found {
          return;
        }
        select := select.unionSelect;
      }
      return false;
    }

    /** The innermost loop of hasTable: some filter of one select is on `table`. */
    static method FiltersHaveTable(tfilter: seq<TableFilter>, table: QualifiedName) returns (found: bool)
      ensures found <==> exists j :: 0 <= j < |tfilter| && tfilter[j].tableName == table
    {
      for j := 0 to |tfilter|
        invariant forall j' :: 0 <= j' < j ==> tfilter[j'].tableName != table
      {
        if table == tfilter[j].tableName {
          return true;
        }
      }
      return false;
    }

    /** An expression collected from `select` is a reference to column `colname` of `table`. */
    ghost predicate ReferencesColumn(select: Select, table: QualifiedName, colname: string) {
      exists k :: 0 <= k < |select.expressions| && select.expressions[k] == Column(colname, table)
    }

    /**
     * hasColumn: the table must be referenced, and the last subquery (the
     * view's own select) must hold a column expression with that base
     * column name and table.
     */
    method HasColumn(table: QualifiedName, colname: string) returns (r: bool)
      requires Compiled()
      ensures r <==> ReferencesTable(table)
                     && ReferencesColumn(viewSubqueries[|viewSubqueries| - 1].select, table, colname)
    {
      var referenced := HasTable(table);
      if referenced {
        var exprs := viewSubqueries[|viewSubqueries| - 1].select.expressions;
        for k := 0 to |exprs|
          invariant forall k' :: 0 <= k' < k ==> exprs[k'] != Column(colname, table)
        {
          var e := exprs[k];
          if e.Column? && colname == e.baseColumnName && table == e.tableName {
            return true;
          }
        }
      }
      return false;
    }

    /** An expression collected from `select` is the value of this very sequence. */
    ghost predicate ReferencesSequence(select: Select, sequence: NumberSequence) {
      exists k :: 0 <= k < |select.expressions| && select.expressions[k] == SequenceValue(sequence)
    }

    /** hasSequence: the last subquery holds a sequence expression for this very sequence. */
    method HasSequence(sequence: NumberSequence) returns (r: bool)
      requires Compiled()
      ensures r <==> ReferencesSequence(viewSubqueries[|viewSubqueries| - 1].select, sequence)
    {
      var exprs := viewSubqueries[|viewSubqueries| - 1].select.expressions;
      for k := 0 to |exprs|
        invariant forall k' :: 0 <= k' < k ==> exprs[k'] != SequenceValue(sequence)
      {
        var e := exprs[k];
        if e.SequenceValue? && e.valueData == sequence {
          return true;
        }
      }
      return false;
    }
  }

  // ---------------------------------------------------------------------
  // Helper facts about the traversal orders
  // ---------------------------------------------------------------------

  lemma MapsEqual(a: AsteriskMap, b: AsteriskMap)
    requires forall p :: p in a <==> p in b
    requires forall p :: p in a ==> a[p] == b[p]
    ensures a == b
  {
    assert a.Keys == b.Keys by {
      forall p ensures p in a.Keys <==> p in b.Keys { }
    }
    forall p | p in a ensures a[p] == b[p] { }
  }

  lemma VisitsPrefix(sqs: seq<SubQuery>, i: nat)
    requires i < |sqs|
    ensures Visits(sqs[..i + 1]) == Visits(sqs[..i]) + SubqueryVisits(sqs[i])
  {
    assert sqs[..i + 1][..i] == sqs[..i];
  }

  lemma VisitsAllocated(sqs: seq<SubQuery>)
    ensures forall s :: s in Visits(sqs) ==> allocated(s)
  {
    if sqs != [] {
      VisitsAllocated(sqs[..|sqs| - 1]);
      var sq := sqs[|sqs| - 1];
      assert allocated(sq);
      assert allocated(sq.select);
    }
  }

  lemma SchemaListConcat(a: seq<TableFilter>, b: seq<TableFilter>)
    ensures SchemaList(a + b) == SchemaList(a) + SchemaList(b)
  {
  }

  lemma BranchesStep(unionArray: seq<Select>, u: nat)
    requires 1 <= u < |unionArray|
    ensures unionArray[1..u + 1] == unionArray[1..u] + [unionArray[u]]
    ensures unionArray[u] in unionArray[1..]
  {
    assert unionArray[1..][u - 1] == unionArray[u];
  }

  lemma ChainSchemasStep(before: seq<SchemaName>, select: Select)
    requires select.ChainOk()
    ensures before + SchemaList(ChainFilters(select))
         == before + SchemaList(select.tFilter) + SchemaList(ChainFilters(select.unionSelect))
  {
    SchemaListConcat(select.tFilter, ChainFilters(select.unionSelect));
  }

  lemma FiltersPrefix(sqs: seq<SubQuery>, i: nat)
    requires i < |sqs| && ChainsOk(sqs)
    ensures ChainsOk(sqs[..i]) && ChainsOk(sqs[..i + 1])
    ensures Filters(sqs[..i + 1]) == Filters(sqs[..i]) + ChainFilters(sqs[i].select)
  {
    assert sqs[..i + 1][..i] == sqs[..i];
  }
}
