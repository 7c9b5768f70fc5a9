/** What each metadata function yields when no driver call fails: the nested enumeration of catalogs,
    schemas and tables, with one of several requests at the innermost level. */
module SearchOutcomes {
  import opened Wrappers
  import opened ServerModel
  import opened Outcomes
  import opened Sequences
  import opened ShowRequests
  import opened ShowOutcomes
  import Arguments = ArgumentList

  /** What is asked about one table. */
  datatype TableLeaf =
    | ColumnsOf(columnPattern: string)
    | PrimaryKeysOf
    | ForeignKeysOf(exported: bool)
    | SpecialColumnsOf
    | TableGrantsOf
    | ColumnGrantsOf(grantPattern: string)
  {
    /** The rows of each table are sorted before they are appended. */
    predicate Blocks() {
      TableGrantsOf? || ColumnGrantsOf?
    }
  }

  /** What is asked about one schema. With `exact`, a table name that is given is taken as it is, and
      otherwise it is a pattern for the server. */
  datatype SchemaLeaf =
    | TablesOf(tablePattern: string)
    | RoutinesOf(routinePattern: string)
    | RoutineColumnsOf(routinePattern: string, columnPattern: string)
    | EachTable(exact: bool, name: string, leaf: TableLeaf)
  {
    predicate Blocks() {
      EachTable? && leaf.Blocks()
    }
  }

  /** One enumeration; `exactCatalog` and `exactSchema` as `exact` above. */
  datatype Search = Search(
    exactCatalog: bool, catalog: string,
    exactSchema: bool, schema: string,
    leaf: SchemaLeaf,
    single: bool)

  function KeyNames(keys: seq<Row>): set<string> {
    set k | k in keys :: NameOf(k, ColumnName)
  }

  function InKey(names: set<string>): Row -> bool {
    (column: Row) => NameOf(column, ColumnName) in names
  }

  function SpecialColumnsOutcome(server: Server, c: string, s: string, t: string): Outcome<Row> {
    if c == "" || s == "" || t == "" then Rejected()
    else
      var keys := Listing(server, PrimaryKeys(c, s, t));
      Outcome(if keys == [] then [] else Filter(Listing(server, Columns(c, s, t, "")), InKey(KeyNames(keys))), true)
  }

  function TableLeafOutcome(server: Server, leaf: TableLeaf, c: string, s: string, t: string): Outcome<Row> {
    match leaf
    case ColumnsOf(p) => ColumnsOutcome(server, c, s, t, p)
    case PrimaryKeysOf => PrimaryKeysOutcome(server, c, s, t)
    case ForeignKeysOf(exported) => ForeignKeysOutcome(server, c, s, t, exported)
    case SpecialColumnsOf => SpecialColumnsOutcome(server, c, s, t)
    case TableGrantsOf => TableGrantsOutcome(server, c, s, t)
    case ColumnGrantsOf(p) => ColumnGrantsOutcome(server, c, s, t, p)
  }

  function AtTable(server: Server, leaf: TableLeaf, c: string, s: string): Row -> Outcome<Row> {
    (t: Row) => TableLeafOutcome(server, leaf, c, s, NameOf(t, TableName))
  }

  function TablesToVisit(server: Server, c: string, s: string, exact: bool, name: string): Outcome<Row> {
    if exact && name != "" then Outcome([map[TableName := Text(name)]], true)
    else TablesOutcome(server, c, s, name)
  }

  /** An enumeration over a list that has to be obtained first. */
  function Over<S, T>(list: Outcome<S>, f: S -> Outcome<T>): Outcome<T> {
    if list.ok then ForEach(list.rows, f) else Rejected()
  }

  /** A list that could not be obtained: nothing has been appended. */
  lemma ListFails<S, T>(list: Outcome<S>, f: S -> Outcome<T>, blocks: bool, before: seq<T>, rc: ReturnCode,
                        failed: bool)
    requires !rc.Succeeded() && (failed || !list.ok)
    ensures Refines(Over(list, f), blocks, before, before, rc, failed)
  {
    NothingAppended(Over(list, f), blocks, before, rc);
  }

  /** A loop over a list that has been obtained ends with success. */
  lemma LoopEnds<S, T>(list: Outcome<S>, f: S -> Outcome<T>, blocks: bool, before: seq<T>, after: seq<T>,
                       rc: ReturnCode)
    requires rc.Succeeded() && list.ok && Progress(list.rows, f, |list.rows|, before, after, false)
    ensures Refines(Over(list, f), blocks, before, after, rc, false)
  {
    assert list.rows[..|list.rows|] == list.rows;
  }

  /** Two lists, sorted together by routine name. */
  function SortedTogether(server: Server, a: Outcome<Row>, b: Outcome<Row>): Outcome<Row> {
    if a.ok && b.ok then Outcome(server.byRoutineName(a.rows + b.rows), true) else Rejected()
  }

  /** The procedures and functions of a schema, sorted together by name. */
  function RoutineBlock(server: Server, c: string, s: string, pattern: string): Outcome<Row> {
    SortedTogether(server, RoutinesOutcome(server, c, s, pattern, true), RoutinesOutcome(server, c, s, pattern, false))
  }

  predicate IsProcedure(routine: Row) {
    Get(routine, ObjectType) == Num(SQL_PT_PROCEDURE)
  }

  function RoutineColumns(server: Server, c: string, s: string, routine: Row, columnPattern: string): Outcome<Row> {
    var procedure := IsProcedure(routine);
    match Arguments.Parameterized(NameOf(routine, ArgumentList), RoutineBase(procedure), columnPattern)
    case Err(_) => Rejected()
    case Ok((_, arguments)) =>
      ParametersOutcome(server, c, s, NameOf(routine, RoutineName), arguments, columnPattern, procedure)
  }

  function AtRoutine(server: Server, c: string, s: string, columnPattern: string): Row -> Outcome<Row> {
    (routine: Row) => RoutineColumns(server, c, s, routine, columnPattern)
  }

  function SchemaLeafOutcome(server: Server, leaf: SchemaLeaf, c: string, s: string): Outcome<Row> {
    match leaf
    case TablesOf(p) => TablesOutcome(server, c, s, p)
    case RoutinesOf(p) => RoutineBlock(server, c, s, p)
    case RoutineColumnsOf(p, column) => Over(RoutineBlock(server, c, s, p), AtRoutine(server, c, s, column))
    case EachTable(exact, name, tl) => Over(TablesToVisit(server, c, s, exact, name), AtTable(server, tl, c, s))
  }

  function AtSchema(server: Server, leaf: SchemaLeaf, c: string): Row -> Outcome<Row> {
    (s: Row) => SchemaLeafOutcome(server, leaf, c, NameOf(s, SchemaName))
  }

  function SchemasToVisit(server: Server, c: string, exact: bool, name: string): Outcome<Row> {
    if exact && name != "" then Outcome([map[SchemaName := Text(name)]], true)
    else SchemasOutcome(server, c, name)
  }

  function AtCatalog(server: Server, exact: bool, schema: string, leaf: SchemaLeaf): Catalog -> Outcome<Row> {
    (c: Catalog) => Over(SchemasToVisit(server, c.name, exact, schema), AtSchema(server, leaf, c.name))
  }

  function CatalogsToVisit(server: Server, exact: bool, name: string, single: bool): Outcome<Catalog> {
    if exact && name != "" then Outcome([Catalog(name)], true) else CatalogsOutcome(server, name, single)
  }

  function SearchOutcome(server: Server, search: Search): Outcome<Row> {
    Over(CatalogsToVisit(server, search.exactCatalog, search.catalog, search.single), 
         AtCatalog(server, search.exactSchema, search.schema, search.leaf))
  }

  predicate AllShort(names: seq<string>) {
    forall k :: 0 <= k < |names| ==> |names[k]| <= NAMEDATALEN
  }

  /** Names that are too long are refused before anything is asked. */
  function Guarded(names: seq<string>, spec: Outcome<Row>): Outcome<Row> {
    if AllShort(names) then spec else Rejected()
  }

  // ---- The enumerations of the metadata functions ----

  function TablesSearch(catalog: string, schema: string, table: string, single: bool): Search {
    Search(false, catalog, false, schema, TablesOf(table), single)
  }

  function ColumnsSearch(catalog: string, schema: string, table: string, column: string, single: bool): Search {
    Search(false, catalog, false, schema, EachTable(false, table, ColumnsOf(column)), single)
  }

  function TableGrantsSearch(catalog: string, schema: string, table: string, single: bool): Search {
    Search(false, catalog, false, schema, EachTable(false, table, TableGrantsOf), single)
  }

  /** A catalog pattern with exact schema and table names. */
  function NamedSearch(catalog: string, schema: string, table: string, leaf: TableLeaf, single: bool): Search {
    Search(false, catalog, true, schema, EachTable(true, table, leaf), single)
  }

  /** Exact names at all three levels. */
  function KeysSearch(catalog: string, schema: string, table: string, leaf: TableLeaf, single: bool): Search {
    Search(true, catalog, true, schema, EachTable(true, table, leaf), single)
  }

  /** An exact catalog name with a schema pattern. */
  function RoutinesSearch(catalog: string, schema: string, leaf: SchemaLeaf, single: bool): Search {
    Search(true, catalog, false, schema, leaf, single)
  }

  /** A missing name matches everything; a name that is given must be equal. */
  predicate MatchesName(value: string, expected: string) {
    expected == "" || value == expected
  }

  /** `matchesConstraints`. */
  predicate MatchesConstraints(key: Row, pkCatalog: string, pkSchema: string, pkTable: string) {
    && MatchesName(NameOf(key, PkDatabaseName), pkCatalog)
    && MatchesName(NameOf(key, PkSchemaName), pkSchema)
    && MatchesName(NameOf(key, PkTableName), pkTable)
  }

  function PkMatcher(pkCatalog: string, pkSchema: string, pkTable: string): Row -> bool {
    (key: Row) => MatchesConstraints(key, pkCatalog, pkSchema, pkTable)
  }

  function ImportedKeys(server: Server, catalog: string, schema: string, table: string, single: bool): Outcome<Row> {
    SearchOutcome(server, KeysSearch(catalog, schema, table, ForeignKeysOf(false), single))
  }

  function ExportedKeys(server: Server, catalog: string, schema: string, table: string, single: bool): Outcome<Row> {
    SearchOutcome(server, KeysSearch(catalog, schema, table, ForeignKeysOf(true), single))
  }

  /** What `sqlForeignKeys` yields: imported keys, filtered when both tables are given, or exported keys. */
  function ForeignKeysSpec(server: Server, pkCatalog: string, pkSchema: string, pkTable: string,
                           fkCatalog: string, fkSchema: string, fkTable: string, single: bool): Outcome<Row> {
    if !AllShort([pkCatalog, pkSchema, pkTable, fkCatalog, fkSchema, fkTable]) then Rejected()
    else if fkTable != "" then
      var imported := ImportedKeys(server, fkCatalog, fkSchema, fkTable, single);
      if pkTable == "" then imported
      else Outcome(Filter(imported.rows, PkMatcher(pkCatalog, pkSchema, pkTable)), imported.ok)
    else if pkTable != "" then ExportedKeys(server, pkCatalog, pkSchema, pkTable, single)
    else Rejected()
  }
}
