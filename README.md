# HSQLDB view compilation, modelled in Dafny

This project models the view object of HSQLDB, `org.hsqldb.View`: how a
`CREATE VIEW` definition becomes a compiled view, and what the view can then
say about its dependencies. It covers each part of the class:

- **Trimming.** `trimStatement` cuts the definition at the first empty,
  non-value token and then trims it the way `String.trim` does.
- **Compiling.** `compile` stores the parser's subquery tree. It adds the
  output columns only while the view has none, so columns are fixed at
  first compile.
- **Wildcard expansion.** `replaceAsterisksInStatement` and
  `collectAsteriskPos` gather the recorded asterisk offsets of every
  subquery's select and its union branches 1.., drain each select's map, and
  splice each column list into the statement at the sorted offsets.
- **Schema check.** `getSchemas` and the constructor's check accept a view
  only if it reads tables of system schemas or of its own schema.
- **Dependency queries.** These are `hasView`, `hasTable`, `hasColumn` and
  `hasSequence`.
- **`setDataReadOnly`** always refuses.

Modules:

- `HsqlTypes` (`hsql_types.dfy`): names, table filters, columns, error codes,
  and `Result`/`Outcome`, which stand for Java's exceptions.
- `StatementText` (`statement_text.dfy`):
  - the text operations: `String.trim`, the trimming loop, `String.indexOf`,
    sorting the offsets, and the splice loop;
  - the specification functions those operations are proved against.
- `StatementProperties` (`statement_properties.dfy`): lemmas about the
  splice and trimming.
- `Views` (`view.dfy`):
  - the classes `Select`, `SubQuery`, `NumberSequence` and `View`;
  - the traversal-order specification functions: `Visits`, `Gathered`,
    `Expanded`, `ChainFilters`, `Filters` and `SchemaList`;
  - the imperative operations, each proved against those functions.
- `ViewProperties` (`view_properties.dfy`): lemmas that relate several
  operations. Examples: the schema check covers every table `hasTable`
  finds; a second expansion changes nothing; recompiling keeps the columns.

The source leaves some parts to other components, and the model takes them
as inputs:

- **The tokenizer.** The model receives it as the sequence of reads it makes
  on the definition (`Step`).
- **The parser and `prepareResult`.** The model receives the values they
  produce (`ParsedView`). These are:
  - the top-level subquery;
  - the subqueries in materialization order, the view's own last;
  - the output columns and their visible count, or the error thrown.
- **The schema manager's system schemas.** The model receives them as a
  set of names.

### Behaviour of `View.java` worth noting

- `compile` does not check for cycles among views.
- On recompile, `compile` skips `addColumns` once the view has columns.
  A recompile whose output has other columns raises no error; the old
  columns stay.
- `compile` assigns `viewSubQuery`, `viewSubqueries` and `viewSelect`
  before `prepareResult` can throw. A failed compile therefore leaves the
  new subquery tree in place.
- `hasSequence` indexes the last subquery unconditionally, and so throws
  on an empty subquery list. `hasColumn` calls `hasTable` first, which finds
  nothing in an empty list, so it returns false before indexing.

## Model

| member | source | states |
|---|---|---|
| StatementText.LeadingBlanks | src/main/java/org.hsqldb/View.java:120 | the count of leading characters `<= ' '`: all of them are blank, and the next one is not |
| StatementText.TrailingEnd | src/main/java/org.hsqldb/View.java:120 | the length without trailing blanks: everything after it is blank, and the last kept character is not |
| StatementText.Trim | src/main/java/org.hsqldb/View.java:120 | `String.trim`: the result is a contiguous slice starting after the leading blanks; only blanks follow it; it neither starts nor ends with a blank |
| StatementText.FirstEndFrom | src/main/java/org.hsqldb/View.java:115-118 | the first read, at or after `from`, at which the do-while loop exits (an empty non-value token, or a throw); no earlier read exits it |
| StatementText.FirstEnd | src/main/java/org.hsqldb/View.java:115-118 | the first read at which the loop exits; it exists because the tokenizer reaches the end of its input |
| StatementText.TrimmedStatement | src/main/java/org.hsqldb/View.java:106-121 | fails iff the exiting read threw; otherwise it is no longer than the position where that read started, and it has no leading or trailing blank |
| StatementText.TrimStatement | src/main/java/org.hsqldb/View.java:106-121 | the do-while loop over the tokenizer's reads yields `TrimmedStatement` |
| StatementText.MinimumExists | src/main/java/org.hsqldb/View.java:220-227 | helper for `SortedKeys`: every non-empty set of offsets has a least element |
| StatementText.SortedKeys | src/main/java/org.hsqldb/View.java:220-227 | the offsets of the combined map, strictly increasing, with exactly the map's keys and one entry per key |
| StatementText.SortedUnique | src/main/java/org.hsqldb/View.java:220-227 | helper for `SortedPositions`: two strictly increasing listings of the same offsets are equal |
| StatementText.SortedPositions | src/main/java/org.hsqldb/View.java:220-227 | copying the key set into an array and sorting it yields `SortedKeys` of the map's keys |
| StatementText.IndexOf | src/main/java/org.hsqldb/View.java:242 | `String.indexOf` from an offset: -1 iff no `'*'` lies at or after it; otherwise the first `'*'` at or after it |
| StatementText.Splice | src/main/java/org.hsqldb/View.java:229-254 | the splice loop from a cut point; its only failure is `StringIndexOutOfBounds` (from `substring`) |
| StatementText.ExpandStatement | src/main/java/org.hsqldb/View.java:229-254 | the loop over the sorted offsets, with the `StringBuffer` and the moving `lastPos`, yields `Splice` from cut point 0 |
| StatementText.Edits | src/main/java/org.hsqldb/View.java:233-239 | the (offset, column list) pairs the loop uses, in order: each has an offset listed in `positions` whose map entry is that column list; there are at most as many as offsets |
| StatementText.ExactSplice | src/main/java/org.hsqldb/View.java:190-196 | reference expansion, replacing exactly each recorded `'*'` by its column list between spaces; its length grows by `SpliceGrowth` |
| StatementProperties.SpliceWithoutColumnLists | src/main/java/org.hsqldb/View.java:235-239 | offsets whose column list is null are skipped; if all are null, the text from the cut point is returned unchanged |
| StatementProperties.EmptyMapKeepsStatement | src/main/java/org.hsqldb/View.java:220-254 | an empty combined map leaves the statement unchanged |
| StatementProperties.SpliceAtAsterisks | src/main/java/org.hsqldb/View.java:233-254 | if every column list sits on a genuine `'*'`, in increasing order after the cut point, the search-based splice does not throw and equals `ExactSplice` |
| StatementProperties.ExactSpliceConsumesAsterisks | src/main/java/org.hsqldb/View.java:181-187 | the reference expansion (`ExactSplice`) removes one `'*'` per edit (an offset with a column list), when every edit sits on a genuine `'*'` and no column list contains one; offsets whose list is null keep theirs |
| StatementProperties.EditsAt | src/main/java/org.hsqldb/View.java:233-239 | helper for `SortedSpliceIsExact`: over strictly increasing offsets, when every offset with a column list lies on a `'*'` at or after the cut point, the edits sit on genuine `'*'`s in increasing order |
| StatementProperties.SortedSpliceIsExact | src/main/java/org.hsqldb/View.java:220-254 | when every offset that has a column list lies on a `'*'` of the statement, the code's splice over the sorted offsets does not throw and equals `ExactSplice` of its edits |
| StatementProperties.SortedSpliceConsumesAsterisks | src/main/java/org.hsqldb/View.java:220-254 | when, in addition, no column list contains a `'*'`, the code's expansion succeeds and removes exactly one `'*'` per offset with a column list; offsets whose list is null keep theirs |
| StatementProperties.AsterisksAround | src/main/java/org.hsqldb/View.java:181-187 | helper for `ExactSpliceConsumesAsterisks`: splitting a text at a `'*'` divides its asterisk count around that one |
| StatementProperties.AsterisksOfSegment | src/main/java/org.hsqldb/View.java:181-187 | helper for `ExactSpliceConsumesAsterisks`: joining two texts around a column list between spaces adds up their asterisk counts; the spaces add none |
| StatementProperties.NoAsterisks | src/main/java/org.hsqldb/View.java:181-187 | helper for `ExactSpliceConsumesAsterisks`: a text without `'*'` has asterisk count 0 |
| StatementProperties.CutPointFallsBackToStart | src/main/java/org.hsqldb/View.java:241-242 | for every statement, offset and column list: with no `'*'` at or after the offset, `indexOf` yields -1 and the cut point becomes 0, so after the column list the splice goes on from the start of the statement |
| StatementProperties.CutPointAtNextAsterisk | src/main/java/org.hsqldb/View.java:241-242 | for every statement, offset and column list: the cut point after the column list is one past the first `'*'` at or after the offset, wherever that `'*'` lies, so an offset not on a `'*'` cuts away the text up to the next one |
| StatementProperties.CutPointWithoutAsterisk | src/main/java/org.hsqldb/View.java:241-242 | an example of the fallback to 0: `"ab"` with list `"x"` at offset 0 becomes `" x ab"` |
| StatementProperties.StrayAsteriskSplice | src/main/java/org.hsqldb/View.java:241-242 | an example of the search: `"x+y*z"` with list `"c"` at offset 0 becomes `" c z"` |
| StatementProperties.TrimIdempotent | src/main/java/org.hsqldb/View.java:120 | trimming an already trimmed text changes nothing |
| StatementProperties.TrimStatementExample | src/main/java/org.hsqldb/View.java:106-121 | `SELECT * FROM T;` followed by a comment line trims to `SELECT * FROM T`, for a tokenizer whose exiting read starts at offset 15, so that `';'` is never returned as a token |
| StatementProperties.TrimStatementKeepsSeparatorToken | src/main/java/org.hsqldb/View.java:106-121 | the same definition with a tokenizer that returns `';'` as an ordinary token: the exiting read starts at 16 and the result is `SELECT * FROM T;` |
| Views.Select.UnionChain | src/main/java/org.hsqldb/View.java:274 | the selects reached from a select along `unionSelect`, the select itself first |
| Views.ChainFilters | src/main/java/org.hsqldb/View.java:274-280 | the filters met walking the `unionSelect` chain from a select, in walk order: none for a null select, otherwise the select's own filters first |
| Views.Filters | src/main/java/org.hsqldb/View.java:271-281 | the filters in the traversal order of `getSchemas`; every filter of every subquery's chain is among them |
| Views.ChainReferences | src/main/java/org.hsqldb/View.java:306-318 | the search of `hasTable` along one chain: some select has a filter whose table name is the table; holds iff the chain's filters include that table's filter |
| Views.Visits | src/main/java/org.hsqldb/View.java:202-217 | the selects `replaceAsterisksInStatement` collects from, in order; every select some subquery visits is among them |
| Views.Gathered | src/main/java/org.hsqldb/View.java:166-218 | the combined map after collecting in visit order, where a later `put` for an offset overwrites an earlier one and a select seen before adds nothing; every offset any visited select held is a key |
| Views.Expanded | src/main/java/org.hsqldb/View.java:197-255 | the whole expansion: the gathered column lists spliced in at the ascending offsets; it fails only with `StringIndexOutOfBounds`, and it leaves the statement unchanged when nothing was gathered |
| Views.SchemaList | src/main/java/org.hsqldb/View.java:277-279 | one schema per table filter, in order: the schema of the filtered table |
| Views.SubqueryVisits | src/main/java/org.hsqldb/View.java:205-217 | one subquery visits its select first, then union branches from index 1 on (index 0 is never visited separately) |
| Views.Snapshot | src/main/java/org.hsqldb/View.java:199-218 | the offset map that each visited select currently holds |
| Views.FrozenColumns | src/main/java/org.hsqldb/View.java:149-153 | a view with columns keeps them; a view without columns gets the first `iResultLen` output columns |
| Views.CheckSchemas | src/main/java/org.hsqldb/View.java:89-99 | passes iff every schema is a system schema or the view's own; otherwise fails with `INVALID_SCHEMA_NAME_NO_SUBCLASS`, and does so iff some schema is neither |
| Views.View.constructor | src/main/java/org.hsqldb/View.java:79-84 | a read-only view without columns or subqueries, holding the trimmed statement and the compile-time schema |
| Views.View.Create | src/main/java/org.hsqldb/View.java:76-100 | the whole constructor. A tokenizer or parser error propagates. Then every visited select is drained. An expansion failure propagates. Construction fails with `INVALID_SCHEMA_NAME_NO_SUBCLASS` iff the schema check rejects a schema. On a trim or `prepareResult` failure every select keeps its map. Otherwise it yields a fresh view holding the expanded statement, the subqueries and the first `resultLen` columns |
| Views.View.Build | src/main/java/org.hsqldb/View.java:86-99 | the constructor after trimming: compile, expansion and the schema check, with the same outcomes as `Create`; on a `prepareResult` failure every select keeps its map |
| Views.View.CompileNew | src/main/java/org.hsqldb/View.java:79-86 | a fresh view, compiled: its fields are set from the parser's output, and its columns are the first `resultLen` output columns |
| Views.View.ExpandAndCheck | src/main/java/org.hsqldb/View.java:87-99 | expansion, then the schema check: the statement becomes `Expanded` of the old maps; `Pass` iff the expansion succeeds and every schema is allowed; a failed expansion leaves the statement as it was |
| Views.View.Compile | src/main/java/org.hsqldb/View.java:126-154 | a parse error changes nothing. Otherwise `viewSubQuery`, `viewSubqueries` and `viewSelect` are set. A `prepareResult` error then leaves the columns alone; on success the columns become `FrozenColumns` of the old ones |
| Views.View.CollectAsteriskPos | src/main/java/org.hsqldb/View.java:166-188 | the select's map is null afterwards; the combined map is unchanged if it was null, and otherwise is the old map overwritten by every entry of the select's map |
| Views.View.ReplaceAsterisksInStatement | src/main/java/org.hsqldb/View.java:197-255 | every visited select is drained. The statement becomes the splice of the gathered maps at the ascending offsets. On a `substring` failure it is unchanged and the error is returned |
| Views.View.CollectAll | src/main/java/org.hsqldb/View.java:199-218 | the collecting loop drains every visited select and returns `Gathered` over the visit order and the maps held before |
| Views.View.CollectSubquery | src/main/java/org.hsqldb/View.java:205-217 | one round: the subquery's select, then its union branches 1..; these are drained, the others keep their maps, and the combined map grows by `Gathered` |
| Views.View.CollectUnionBranches | src/main/java/org.hsqldb/View.java:210-217 | the inner loop over branches 1.. of `unionArray`, with the same bookkeeping |
| Views.View.CollectStep | src/main/java/org.hsqldb/View.java:207 | one call inside the loop: the select is drained, and its earlier map joins the combined map unless the select was visited already |
| Views.View.SetDataReadOnly | src/main/java/org.hsqldb/View.java:260-262 | always fails with `NOT_A_TABLE` |
| Views.View.GetSchemas | src/main/java/org.hsqldb/View.java:267-284 | the schemas of every filter of every select of every subquery's `unionSelect` chain, in traversal order; one per filter |
| Views.View.AppendChainSchemas | src/main/java/org.hsqldb/View.java:272-280 | the walk along one `unionSelect` chain appends the schemas of all that chain's filters |
| Views.View.AppendFilterSchemas | src/main/java/org.hsqldb/View.java:275-279 | the innermost loop appends one schema per filter of one select |
| Views.View.HasView | src/main/java/org.hsqldb/View.java:286-299 | false for the view itself; for any other view, true iff some subquery's view is identical to it |
| Views.View.HasTable | src/main/java/org.hsqldb/View.java:304-321 | true iff some filter of some select in some subquery's union chain is on the table |
| Views.View.ChainHasTable | src/main/java/org.hsqldb/View.java:307-317 | the walk along one chain finds the table iff some select of the chain has a filter on it |
| Views.View.FiltersHaveTable | src/main/java/org.hsqldb/View.java:310-316 | true iff some filter of one select is on the table |
| Views.View.HasColumn | src/main/java/org.hsqldb/View.java:327-348 | true iff the view references the table and the last subquery's select (the view itself) holds a column expression with that base column name and table; hence it implies `hasTable` |
| Views.View.HasSequence | src/main/java/org.hsqldb/View.java:354-372 | true iff the last subquery's select holds a value expression of that very sequence object |
| ViewProperties.ChainFiltersMembership | src/main/java/org.hsqldb/View.java:274-280 | a filter belongs to a chain's filters iff some select of the `unionSelect` chain has it |
| ViewProperties.FiltersMembership | src/main/java/org.hsqldb/View.java:271-281 | the traversal's filters are exactly those of the subqueries' chains |
| ViewProperties.ReferencesTableIffFiltered | src/main/java/org.hsqldb/View.java:304-321 | `hasTable` is true iff the table is filtered somewhere in the traversal of `getSchemas` |
| ViewProperties.ReferencedSchemaReported | src/main/java/org.hsqldb/View.java:267-321 | `getSchemas` reports the schema of every table that `hasTable` finds |
| ViewProperties.SchemaCheckCoversReferencedTables | src/main/java/org.hsqldb/View.java:89-99 | a view that passed the constructor's check references only tables of system schemas or of its own schema |
| ViewProperties.GatheredEntries | src/main/java/org.hsqldb/View.java:173-178 | the combined map has an offset iff some visited select held it, and the value is the one that select held |
| ViewProperties.RevisitAddsNothing | src/main/java/org.hsqldb/View.java:169-171 | visiting a select a second time adds nothing, because its map was drained on the first visit |
| ViewProperties.GatheredOfDrained | src/main/java/org.hsqldb/View.java:169-171 | once every visited select is drained, collecting again yields the empty map |
| ViewProperties.SecondExpansionKeepsStatement | src/main/java/org.hsqldb/View.java:181-187 | after expansion has drained every visited select, a further expansion leaves the statement unchanged |
| ViewProperties.RecompileKeepsColumns | src/main/java/org.hsqldb/View.java:149-153 | once columns are set, compiling again with any output leaves them as they were |

## Left out

- The parser, the tokenizer, `Select.prepareResult` and `Expression.Collector`: they are not part of this model. Their results are inputs: the reads in `Step`, the parsed tree and columns in `ParsedView`, and the collected expressions in `Select.expressions`.
- `Table.addColumns` is modelled only as appending the first `iResultLen` column descriptors. Column naming from `colList` happens in code outside this model.
- `Table.equals` against an `HsqlName` is modelled as equality of qualified names. `HsqlName.equals` between schemas is equality of schema names.
- `String.trim` is modelled as dropping characters `<= ' '` from both ends. Strings are sequences of characters, with no encoding.
- The `IntKeyHashMap` iteration order is not modelled. Only the sorted key order matters for the splice, and entries for one offset are combined with a later entry replacing an earlier one.
- `getStatement` is a plain accessor and is not modelled separately. Its result is the `statement` field.
- `src/main/java/org.hsqldb/util/ScriptTool.java` is command-line and JDBC glue (connections, file reading, console output) and is not modelled.
- Views.View.HasColumn: requires a compiled view, whose own subquery is last. On an empty subquery list the source returns false, because `hasTable` finds nothing; the model does not cover that state.
- Views.View.HasSequence: requires a compiled view, because the source indexes the last subquery unconditionally and throws on an empty list.
- The finiteness of a `unionSelect` chain is carried by a ghost depth on each select. The source relies on the parser never building a cyclic chain.
- `p.setAsView(this)` (src/main/java/org.hsqldb/View.java:139) is not modelled. A subquery's view link is fixed, and `Create` allocates the view only after the parser's output exists, so no subquery can point to the view being built.
- Null references the source tolerates are not modelled: `hasView(null)`, null elements of a `unionArray`, and a subquery whose select is null. The model's types rule them out.
- Exceptions are modelled as `Failure`/`Fail` results. Selects drained before a failed splice stay drained, as in the source.
