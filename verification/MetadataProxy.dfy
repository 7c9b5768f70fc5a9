/** The metadata functions: nested loops over catalogs, schemas and tables that share one handle and
    reuse their scratch lists. */
module MetadataProxy {
  import opened Wrappers
  import opened ServerModel
  import opened StatementHandle
  import opened Outcomes
  import opened Sequences
  import opened Ordering
  import opened ShowRequests
  import opened ShowOutcomes
  import opened ShowHelpers
  import opened SearchOutcomes
  import Arguments = ArgumentList

  method CollectKeyNames(keys: seq<Row>) returns (names: set<string>)
    ensures names == KeyNames(keys)
  {
    names := {};
    for k := 0 to |keys|
      invariant names == KeyNames(keys[..k])
    {
      assert keys[..k + 1] == keys[..k] + [keys[k]];
      names := names + {NameOf(keys[k], ColumnName)};
    }
    assert keys[..|keys|] == keys;
  }

  method AppendKeyColumns(columns: seq<Row>, names: set<string>, out: Vector<Row>)
    modifies out
    ensures out.items == old(out.items) + Filter(columns, InKey(names))
  {
    for k := 0 to |columns|
      invariant out.items == old(out.items) + Filter(columns[..k], InKey(names))
    {
      assert columns[..k + 1][..k] == columns[..k];
      if NameOf(columns[k], ColumnName) in names {
        out.items := out.items + [columns[k]];
      }
    }
    assert columns[..|columns|] == columns;
  }

  /** A run that fills an empty scratch list. */
  twostate predicate Lists<T>(stmt: Statement, list: Vector<T>, spec: Outcome<T>, rc: ReturnCode)
    reads stmt, list
  {
    && Keeps(stmt)
    && (stmt.failures > old(stmt.failures) ==> !rc.Succeeded())
    && (stmt.lost == old(stmt.lost) ==>
        if rc.Succeeded() then stmt.failures == old(stmt.failures) && spec.ok && list.items == spec.rows
        else stmt.failures > old(stmt.failures) || !spec.ok)
  }

  method ListPrimaryKeys(stmt: Statement, c: string, s: string, t: string, keys: Vector<Row>) returns (rc: ReturnCode)
    requires stmt.Valid() && keys.items == []
    modifies stmt, keys
    ensures Lists(stmt, keys, PrimaryKeysOutcome(stmt.server, c, s, t), rc)
  {
    rc := ShowPrimaryKeys(stmt, c, s, t, keys);
  }

  method ListColumns(stmt: Statement, c: string, s: string, t: string, columns: Vector<Row>) returns (rc: ReturnCode)
    requires stmt.Valid() && columns.items == []
    modifies stmt, columns
    ensures Lists(stmt, columns, ColumnsOutcome(stmt.server, c, s, t, ""), rc)
  {
    rc := ShowColumns(stmt, c, s, t, "", columns);
  }

  /** The table list: a given name as it is, or what the server lists. */
  method ListTables(stmt: Statement, c: string, s: string, exact: bool, name: string, tables: Vector<Row>)
    returns (rc: ReturnCode)
    requires stmt.Valid() && tables.items == []
    modifies stmt, tables
    ensures Lists(stmt, tables, TablesToVisit(stmt.server, c, s, exact, name), rc)
  {
    if exact && name != "" {
      tables.items := tables.items + [map[TableName := Text(name)]];
      return Success;
    }
    rc := ShowTables(stmt, c, s, name, tables);
  }

  /** The schema list, in the same way. */
  method ListSchemas(stmt: Statement, c: string, exact: bool, name: string, schemas: Vector<Row>)
    returns (rc: ReturnCode)
    requires stmt.Valid() && schemas.items == []
    modifies stmt, schemas
    ensures Lists(stmt, schemas, SchemasToVisit(stmt.server, c, exact, name), rc)
  {
    if exact && name != "" {
      schemas.items := schemas.items + [map[SchemaName := Text(name)]];
      return Success;
    }
    rc := ShowSchemas(stmt, c, name, schemas);
  }

  /** The catalog list, in the same way. */
  method ListCatalogs(stmt: Statement, exact: bool, name: string, single: bool, catalogs: Vector<Catalog>)
    returns (rc: ReturnCode)
    requires stmt.Valid() && catalogs.items == []
    modifies stmt, catalogs
    ensures Lists(stmt, catalogs, CatalogsToVisit(stmt.server, exact, name, single), rc)
  {
    if exact && name != "" {
      catalogs.items := catalogs.items + [Catalog(name)];
      return Success;
    }
    rc := ShowDatabases(stmt, name, single, catalogs);
  }

  /** The columns of a table that belong to its primary key. */
  method SpecialColumns(stmt: Statement, c: string, s: string, t: string, out: Vector<Row>) returns (rc: ReturnCode)
    requires stmt.Valid()
    modifies stmt, out
    ensures RunOf(stmt, out, SpecialColumnsOutcome(stmt.server, c, s, t), false, rc)
  {
    ghost var spec := SpecialColumnsOutcome(stmt.server, c, s, t);
    var pkResults := new Vector<Row>();
    rc := ListPrimaryKeys(stmt, c, s, t, pkResults);
    if !rc.Succeeded() {
      NothingAppended(spec, false, out.items, rc);
      return rc;
    }
    if pkResults.items != [] {
      var pkColumnNames := CollectKeyNames(pkResults.items);
      var allColumns := new Vector<Row>();
      rc := ListColumns(stmt, c, s, t, allColumns);
      if !rc.Succeeded() {
        NothingAppended(spec, false, out.items, rc);
        return rc;
      }
      AppendKeyColumns(allColumns.items, pkColumnNames, out);
    }
  }

  method RunTableLeaf(stmt: Statement, leaf: TableLeaf, c: string, s: string, t: string, out: Vector<Row>)
    returns (rc: ReturnCode)
    requires stmt.Valid()
    modifies stmt, out
    ensures RunOf(stmt, out, TableLeafOutcome(stmt.server, leaf, c, s, t), leaf.Blocks(), rc)
  {
    match leaf
    case ColumnsOf(p) => rc := ShowColumns(stmt, c, s, t, p, out);
    case PrimaryKeysOf => rc := ShowPrimaryKeys(stmt, c, s, t, out);
    case ForeignKeysOf(exported) => rc := ShowForeignKeys(stmt, c, s, t, exported, out);
    case SpecialColumnsOf => rc := SpecialColumns(stmt, c, s, t, out);
    case TableGrantsOf => rc := ShowTableGrants(stmt, c, s, t, out);
    case ColumnGrantsOf(p) => rc := ShowColumnGrants(stmt, c, s, t, p, out);
  }

  /** After one round of a loop: one more element is done, or the loop ends and all of it is accounted for. */
  twostate predicate Stepped<S, T>(stmt: Statement, out: Vector<T>, xs: seq<S>, f: S -> Outcome<T>, i: nat,
                                   blocks: bool, before: seq<T>, rc: ReturnCode)
    requires i < |xs|
    reads stmt, out
  {
    && Keeps(stmt)
    && (stmt.failures > old(stmt.failures) ==> !rc.Succeeded())
    && (stmt.lost == old(stmt.lost) && Progress(xs, f, i, before, old(out.items), false) ==>
        if rc.Succeeded() then Progress(xs, f, i + 1, before, out.items, stmt.failures > old(stmt.failures))
        else Refines(ForEach(xs, f), blocks, before, out.items, rc, stmt.failures > old(stmt.failures)))
  }

  method VisitTable(stmt: Statement, leaf: TableLeaf, c: string, s: string, tables: Vector<Row>, i: nat,
                    ghost before: seq<Row>, out: Vector<Row>)
    returns (rc: ReturnCode)
    requires stmt.Valid() && tables != out && i < |tables.items|
    modifies stmt, out
    ensures Stepped(stmt, out, tables.items, AtTable(stmt.server, leaf, c, s), i, leaf.Blocks(), before, rc)
  {
    ghost var f := AtTable(stmt.server, leaf, c, s);
    rc := RunTableLeaf(stmt, leaf, c, s, NameOf(tables.items[i], TableName), out);
    if stmt.lost == old(stmt.lost) && Progress(tables.items, f, i, before, old(out.items), false) {
      LoopStep(tables.items, f, i, leaf.Blocks(), before, old(out.items), out.items, rc,
               stmt.failures > old(stmt.failures));
    }
  }

  /** The loop over the tables of one schema. */
  method VisitTables(stmt: Statement, c: string, s: string, exact: bool, name: string, leaf: TableLeaf,
                     tables: Vector<Row>, out: Vector<Row>)
    returns (rc: ReturnCode)
    requires stmt.Valid() && tables != out && tables.items == []
    modifies stmt, tables, out
    ensures RunOf(stmt, out, Over(TablesToVisit(stmt.server, c, s, exact, name), AtTable(stmt.server, leaf, c, s)),
                  leaf.Blocks(), rc)
    ensures rc.Succeeded() ==> tables.items == []
  {
    hide AtTable, TablesToVisit, ForEach, Refines, AllFit, Idle;
    ghost var list, f := TablesToVisit(stmt.server, c, s, exact, name), AtTable(stmt.server, leaf, c, s);
    rc := ListTables(stmt, c, s, exact, name, tables);
    if !rc.Succeeded() {
      if stmt.lost == old(stmt.lost) {
        ListFails(list, f, leaf.Blocks(), out.items, rc, stmt.failures > old(stmt.failures));
      }
      return rc;
    }
    ghost var all := tables.items;
    LoopStarts(all, f, out.items);
    for i := 0 to |tables.items|
      invariant Keeps(stmt) && rc.Succeeded() && stmt.failures == old(stmt.failures)
      invariant tables.items == all
      invariant stmt.lost == old(stmt.lost) ==> list.ok && list.rows == all
      invariant stmt.lost == old(stmt.lost) ==> Progress(all, f, i, old(out.items), out.items, false)
    {
      rc := VisitTable(stmt, leaf, c, s, tables, i, old(out.items), out);
      if !rc.Succeeded() {
        return rc;
      }
    }
    tables.Clear();
    if stmt.lost == old(stmt.lost) {
      LoopEnds(list, f, leaf.Blocks(), old(out.items), out.items, rc);
    }
  }

  /** A run that adds to a scratch list. */
  twostate predicate Adds<T>(stmt: Statement, list: Vector<T>, spec: Outcome<T>, rc: ReturnCode)
    reads stmt, list
  {
    && Keeps(stmt)
    && (stmt.failures > old(stmt.failures) ==> !rc.Succeeded())
    && (stmt.lost == old(stmt.lost) ==>
        if rc.Succeeded()
        then stmt.failures == old(stmt.failures) && spec.ok && list.items == old(list.items) + spec.rows
        else stmt.failures > old(stmt.failures) || !spec.ok)
  }

  /** Adds the procedures, or the functions, of a schema to a scratch list. */
  method ListRoutines(stmt: Statement, c: string, s: string, pattern: string, procedures: bool, list: Vector<Row>)
    returns (rc: ReturnCode)
    requires stmt.Valid()
    modifies stmt, list
    ensures Adds(stmt, list, RoutinesOutcome(stmt.server, c, s, pattern, procedures), rc)
  {
    rc := ShowRoutines(stmt, c, s, pattern, procedures, list);
  }

  /** The procedures and functions of a schema, collected and sorted together. */
  method CollectRoutines(stmt: Statement, c: string, s: string, pattern: string, routines: Vector<Row>)
    returns (rc: ReturnCode)
    requires stmt.Valid() && routines.items == []
    modifies stmt, routines
    ensures Lists(stmt, routines, RoutineBlock(stmt.server, c, s, pattern), rc)
  {
    ghost var a := RoutinesOutcome(stmt.server, c, s, pattern, true);
    ghost var b := RoutinesOutcome(stmt.server, c, s, pattern, false);
    var procedureFunctionResults := new Vector<Row>();
    rc := ListRoutines(stmt, c, s, pattern, true, procedureFunctionResults);
    if !rc.Succeeded() {
      return rc;
    }
    assert [] + a.rows == a.rows;
    rc := ListRoutines(stmt, c, s, pattern, false, procedureFunctionResults);
    if !rc.Succeeded() {
      return rc;
    }
    routines.items := stmt.server.byRoutineName(procedureFunctionResults.items);
  }

  /** The parameters of one routine, named by its argument list. */
  method ShowRoutineColumns(stmt: Statement, c: string, s: string, routine: Row, columnPattern: string,
                            out: Vector<Row>)
    returns (rc: ReturnCode)
    requires stmt.Valid()
    modifies stmt, out
    ensures RunOf(stmt, out, RoutineColumns(stmt.server, c, s, routine, columnPattern), false, rc)
  {
    var isProcedure := IsProcedure(routine);
    var parsed := Arguments.CreateParameterizedQueryString(NameOf(routine, ArgumentList), RoutineBase(isProcedure),
                                                           columnPattern);
    if parsed.Err? {
      NothingAppended(RoutineColumns(stmt.server, c, s, routine, columnPattern), false, out.items, Error);
      return Error;
    }
    rc := ShowParameters(stmt, c, s, NameOf(routine, RoutineName), columnPattern, parsed.value.0, parsed.value.1,
                         isProcedure, out);
  }

  method VisitRoutine(stmt: Statement, c: string, s: string, columnPattern: string, routines: Vector<Row>, i: nat,
                      ghost before: seq<Row>, out: Vector<Row>)
    returns (rc: ReturnCode)
    requires stmt.Valid() && routines != out && i < |routines.items|
    modifies stmt, out
    ensures Stepped(stmt, out, routines.items, AtRoutine(stmt.server, c, s, columnPattern), i, false, before, rc)
  {
    ghost var f := AtRoutine(stmt.server, c, s, columnPattern);
    rc := ShowRoutineColumns(stmt, c, s, routines.items[i], columnPattern, out);
    if stmt.lost == old(stmt.lost) && Progress(routines.items, f, i, before, old(out.items), false) {
      LoopStep(routines.items, f, i, false, before, old(out.items), out.items, rc, stmt.failures > old(stmt.failures));
    }
  }

  /** The loop over the sorted procedures and functions of one schema. */
  method VisitRoutines(stmt: Statement, c: string, s: string, pattern: string, columnPattern: string, out: Vector<Row>)
    returns (rc: ReturnCode)
    requires stmt.Valid()
    modifies stmt, out
    ensures RunOf(stmt, out,
                  Over(RoutineBlock(stmt.server, c, s, pattern), AtRoutine(stmt.server, c, s, columnPattern)),
                  false, rc)
  {
    hide AtRoutine, RoutineBlock, ForEach, Refines, AllFit, Idle;
    ghost var list, f := RoutineBlock(stmt.server, c, s, pattern), AtRoutine(stmt.server, c, s, columnPattern);
    var routines := new Vector<Row>();
    rc := CollectRoutines(stmt, c, s, pattern, routines);
    if !rc.Succeeded() {
      if stmt.lost == old(stmt.lost) {
        ListFails(list, f, false, out.items, rc, stmt.failures > old(stmt.failures));
      }
      return rc;
    }
    ghost var all := routines.items;
    LoopStarts(all, f, out.items);
    for k := 0 to |routines.items|
      invariant Keeps(stmt) && rc.Succeeded() && stmt.failures == old(stmt.failures)
      invariant routines.items == all
      invariant stmt.lost == old(stmt.lost) ==> list.ok && list.rows == all
      invariant stmt.lost == old(stmt.lost) ==> Progress(all, f, k, old(out.items), out.items, false)
    {
      rc := VisitRoutine(stmt, c, s, columnPattern, routines, k, old(out.items), out);
      if !rc.Succeeded() {
        return rc;
      }
    }
    if stmt.lost == old(stmt.lost) {
      LoopEnds(list, f, false, old(out.items), out.items, rc);
    }
  }

  /** The sorted block of one schema. */
  method AppendRoutines(stmt: Statement, c: string, s: string, pattern: string, out: Vector<Row>)
    returns (rc: ReturnCode)
    requires stmt.Valid()
    modifies stmt, out
    ensures RunOf(stmt, out, RoutineBlock(stmt.server, c, s, pattern), false, rc)
  {
    var routines := new Vector<Row>();
    rc := CollectRoutines(stmt, c, s, pattern, routines);
    if rc.Succeeded() {
      out.items := out.items + routines.items;
    } else {
      NothingAppended(RoutineBlock(stmt.server, c, s, pattern), false, out.items, rc);
    }
  }

  method RunSchemaLeaf(stmt: Statement, leaf: SchemaLeaf, c: string, s: string, tables: Vector<Row>, out: Vector<Row>)
    returns (rc: ReturnCode)
    requires stmt.Valid() && tables != out && tables.items == []
    modifies stmt, tables, out
    ensures RunOf(stmt, out, SchemaLeafOutcome(stmt.server, leaf, c, s), leaf.Blocks(), rc)
    ensures rc.Succeeded() ==> tables.items == []
  {
    match leaf
    case TablesOf(p) => rc := ShowTables(stmt, c, s, p, out);
    case RoutinesOf(p) => rc := AppendRoutines(stmt, c, s, p, out);
    case RoutineColumnsOf(p, column) => rc := VisitRoutines(stmt, c, s, p, column, out);
    case EachTable(exact, name, tl) => rc := VisitTables(stmt, c, s, exact, name, tl, tables, out);
  }

  method VisitSchema(stmt: Statement, leaf: SchemaLeaf, c: string, schemas: Vector<Row>, i: nat,
                     ghost before: seq<Row>, tables: Vector<Row>, out: Vector<Row>)
    returns (rc: ReturnCode)
    requires stmt.Valid() && schemas != out && schemas != tables && tables != out && i < |schemas.items|
    requires tables.items == []
    modifies stmt, tables, out
    ensures Stepped(stmt, out, schemas.items, AtSchema(stmt.server, leaf, c), i, leaf.Blocks(), before, rc)
    ensures rc.Succeeded() ==> tables.items == []
  {
    ghost var f := AtSchema(stmt.server, leaf, c);
    rc := RunSchemaLeaf(stmt, leaf, c, NameOf(schemas.items[i], SchemaName), tables, out);
    if stmt.lost == old(stmt.lost) && Progress(schemas.items, f, i, before, old(out.items), false) {
      LoopStep(schemas.items, f, i, leaf.Blocks(), before, old(out.items), out.items, rc,
               stmt.failures > old(stmt.failures));
    }
  }

  /** The loop over the schemas of one catalog. */
  method VisitSchemas(stmt: Statement, c: string, exact: bool, name: string, leaf: SchemaLeaf,
                      schemas: Vector<Row>, tables: Vector<Row>, out: Vector<Row>)
    returns (rc: ReturnCode)
    requires stmt.Valid() && schemas != out && schemas != tables && tables != out
    requires schemas.items == [] && tables.items == []
    modifies stmt, schemas, tables, out
    ensures RunOf(stmt, out, Over(SchemasToVisit(stmt.server, c, exact, name), AtSchema(stmt.server, leaf, c)),
                  leaf.Blocks(), rc)
    ensures rc.Succeeded() ==> schemas.items == [] && tables.items == []
  {
    hide AtSchema, SchemasToVisit, ForEach, Refines, AllFit, Idle;
    ghost var list, f := SchemasToVisit(stmt.server, c, exact, name), AtSchema(stmt.server, leaf, c);
    rc := ListSchemas(stmt, c, exact, name, schemas);
    if !rc.Succeeded() {
      if stmt.lost == old(stmt.lost) {
        ListFails(list, f, leaf.Blocks(), out.items, rc, stmt.failures > old(stmt.failures));
      }
      return rc;
    }
    ghost var all := schemas.items;
    LoopStarts(all, f, out.items);
    for j := 0 to |schemas.items|
      invariant Keeps(stmt) && rc.Succeeded() && stmt.failures == old(stmt.failures)
      invariant schemas.items == all && tables.items == []
      invariant stmt.lost == old(stmt.lost) ==> list.ok && list.rows == all
      invariant stmt.lost == old(stmt.lost) ==> Progress(all, f, j, old(out.items), out.items, false)
    {
      rc := VisitSchema(stmt, leaf, c, schemas, j, old(out.items), tables, out);
      if !rc.Succeeded() {
        return rc;
      }
    }
    schemas.Clear();
    if stmt.lost == old(stmt.lost) {
      LoopEnds(list, f, leaf.Blocks(), old(out.items), out.items, rc);
    }
  }

  method VisitCatalog(stmt: Statement, search: Search, catalogs: Vector<Catalog>, i: nat, ghost before: seq<Row>,
                      schemas: Vector<Row>, tables: Vector<Row>, out: Vector<Row>)
    returns (rc: ReturnCode)
    requires stmt.Valid() && schemas != out && schemas != tables && tables != out && i < |catalogs.items|
    requires schemas.items == [] && tables.items == []
    modifies stmt, schemas, tables, out
    ensures Stepped(stmt, out, catalogs.items, AtCatalog(stmt.server, search.exactSchema, search.schema, search.leaf),
                    i, search.leaf.Blocks(), before, rc)
    ensures rc.Succeeded() ==> schemas.items == [] && tables.items == []
  {
    ghost var f := AtCatalog(stmt.server, search.exactSchema, search.schema, search.leaf);
    rc := VisitSchemas(stmt, catalogs.items[i].name, search.exactSchema, search.schema, search.leaf, schemas, tables,
                       out);
    if stmt.lost == old(stmt.lost) && Progress(catalogs.items, f, i, before, old(out.items), false) {
      LoopStep(catalogs.items, f, i, search.leaf.Blocks(), before, old(out.items), out.items, rc,
               stmt.failures > old(stmt.failures));
    }
  }

  /** The loop nest that the metadata functions share. */
  method Enumerate(stmt: Statement, search: Search, out: Vector<Row>) returns (rc: ReturnCode)
    requires stmt.Valid()
    modifies stmt, out
    ensures RunOf(stmt, out, SearchOutcome(stmt.server, search), search.leaf.Blocks(), rc)
  {
    hide AtCatalog, CatalogsToVisit, ForEach, Refines, AllFit, Idle;
    ghost var list := CatalogsToVisit(stmt.server, search.exactCatalog, search.catalog, search.single);
    ghost var f := AtCatalog(stmt.server, search.exactSchema, search.schema, search.leaf);
    var catalogs := new Vector<Catalog>();
    var schemas := new Vector<Row>();
    var tables := new Vector<Row>();
    rc := ListCatalogs(stmt, search.exactCatalog, search.catalog, search.single, catalogs);
    if !rc.Succeeded() {
      if stmt.lost == old(stmt.lost) {
        ListFails(list, f, search.leaf.Blocks(), out.items, rc, stmt.failures > old(stmt.failures));
      }
      return rc;
    }
    ghost var all := catalogs.items;
    LoopStarts(all, f, out.items);
    for i := 0 to |catalogs.items|
      invariant Keeps(stmt) && rc.Succeeded() && stmt.failures == old(stmt.failures)
      invariant catalogs.items == all && schemas.items == [] && tables.items == []
      invariant stmt.lost == old(stmt.lost) ==> list.ok && list.rows == all
      invariant stmt.lost == old(stmt.lost) ==> Progress(all, f, i, old(out.items), out.items, false)
    {
      rc := VisitCatalog(stmt, search, catalogs, i, old(out.items), schemas, tables, out);
      if !rc.Succeeded() {
        return rc;
      }
    }
    catalogs.Clear();
    if stmt.lost == old(stmt.lost) {
      LoopEnds(list, f, search.leaf.Blocks(), old(out.items), out.items, rc);
    }
  }

  // ---- The metadata functions ----

  /** `validateNameLengths`. */
  method ValidateNameLengths(names: seq<string>) returns (rc: ReturnCode)
    ensures rc.Succeeded() == AllShort(names)
  {
    for k := 0 to |names|
      invariant AllShort(names[..k])
    {
      if names[k] != "" && |names[k]| > NAMEDATALEN {
        return Error;
      }
      assert names[..k + 1] == names[..k] + [names[k]];
    }
    assert names[..|names|] == names;
    return Success;
  }

  /** Checks the lengths of the names and then enumerates. */
  method Checked(stmt: Statement, names: seq<string>, search: Search, out: Vector<Row>) returns (rc: ReturnCode)
    requires stmt.Valid()
    modifies stmt, out
    ensures RunOf(stmt, out, Guarded(names, SearchOutcome(stmt.server, search)), search.leaf.Blocks(), rc)
  {
    rc := ValidateNameLengths(names);
    if !rc.Succeeded() {
      NothingAppended(Outcome([], false), search.leaf.Blocks(), out.items, Error);
      return Error;
    }
    rc := Enumerate(stmt, search, out);
  }

  /** `sqlTables`. */
  method SqlTables(stmt: Statement, catalog: string, schema: string, table: string, single: bool, out: Vector<Row>)
    returns (rc: ReturnCode)
    requires stmt.Valid()
    modifies stmt, out
    ensures RunOf(stmt, out,
                  Guarded([catalog, schema, table],
                          SearchOutcome(stmt.server, TablesSearch(catalog, schema, table, single))),
                  false, rc)
  {
    rc := Checked(stmt, [catalog, schema, table], TablesSearch(catalog, schema, table, single), out);
  }

  /** `sqlColumns`. */
  method SqlColumns(stmt: Statement, catalog: string, schema: string, table: string, column: string, single: bool,
                    out: Vector<Row>)
    returns (rc: ReturnCode)
    requires stmt.Valid()
    modifies stmt, out
    ensures RunOf(stmt, out,
                  Guarded([catalog, schema, table, column],
                          SearchOutcome(stmt.server, ColumnsSearch(catalog, schema, table, column, single))),
                  false, rc)
  {
    rc := Checked(stmt, [catalog, schema, table, column], ColumnsSearch(catalog, schema, table, column, single), out);
  }

  /** `sqlPrimaryKeys`. */
  method SqlPrimaryKeys(stmt: Statement, catalog: string, schema: string, table: string, single: bool, out: Vector<Row>)
    returns (rc: ReturnCode)
    requires stmt.Valid()
    modifies stmt, out
    ensures RunOf(stmt, out,
                  Guarded([catalog, schema, table],
                          SearchOutcome(stmt.server, KeysSearch(catalog, schema, table, PrimaryKeysOf, single))),
                  false, rc)
  {
    rc := Checked(stmt, [catalog, schema, table], KeysSearch(catalog, schema, table, PrimaryKeysOf, single), out);
  }

  /** `sqlSpecialColumns`. */
  method SqlSpecialColumns(stmt: Statement, catalog: string, schema: string, table: string, single: bool,
                           out: Vector<Row>)
    returns (rc: ReturnCode)
    requires stmt.Valid()
    modifies stmt, out
    ensures RunOf(stmt, out,
                  Guarded([catalog, schema, table],
                          SearchOutcome(stmt.server, NamedSearch(catalog, schema, table, SpecialColumnsOf, single))),
                  false, rc)
  {
    rc := Checked(stmt, [catalog, schema, table], NamedSearch(catalog, schema, table, SpecialColumnsOf, single), out);
  }

  /** `sqlColumnPrivileges`. */
  method SqlColumnPrivileges(stmt: Statement, catalog: string, schema: string, table: string, column: string,
                             single: bool, out: Vector<Row>)
    returns (rc: ReturnCode)
    requires stmt.Valid()
    modifies stmt, out
    ensures RunOf(stmt, out,
                  Guarded([catalog, schema, table, column],
                          SearchOutcome(stmt.server,
                                        NamedSearch(catalog, schema, table, ColumnGrantsOf(column), single))),
                  true, rc)
  {
    rc := Checked(stmt, [catalog, schema, table, column],
                  NamedSearch(catalog, schema, table, ColumnGrantsOf(column), single), out);
  }

  /** `sqlTablePrivileges`. */
  method SqlTablePrivileges(stmt: Statement, catalog: string, schema: string, table: string, single: bool,
                            out: Vector<Row>)
    returns (rc: ReturnCode)
    requires stmt.Valid()
    modifies stmt, out
    ensures RunOf(stmt, out,
                  Guarded([catalog, schema, table],
                          SearchOutcome(stmt.server, TableGrantsSearch(catalog, schema, table, single))),
                  true, rc)
  {
    rc := Checked(stmt, [catalog, schema, table], TableGrantsSearch(catalog, schema, table, single), out);
  }

  /** `sqlProcedures`. */
  method SqlProcedures(stmt: Statement, catalog: string, schema: string, routine: string, single: bool,
                       out: Vector<Row>)
    returns (rc: ReturnCode)
    requires stmt.Valid()
    modifies stmt, out
    ensures RunOf(stmt, out,
                  Guarded([catalog, schema, routine],
                          SearchOutcome(stmt.server, RoutinesSearch(catalog, schema, RoutinesOf(routine), single))),
                  false, rc)
  {
    rc := Checked(stmt, [catalog, schema, routine], RoutinesSearch(catalog, schema, RoutinesOf(routine), single), out);
  }

  /** `sqlProcedureColumns`. */
  method SqlProcedureColumns(stmt: Statement, catalog: string, schema: string, routine: string, column: string,
                             single: bool, out: Vector<Row>)
    returns (rc: ReturnCode)
    requires stmt.Valid()
    modifies stmt, out
    ensures RunOf(stmt, out,
                  Guarded([catalog, schema, routine, column],
                          SearchOutcome(stmt.server,
                                        RoutinesSearch(catalog, schema, RoutineColumnsOf(routine, column), single))),
                  false, rc)
  {
    rc := Checked(stmt, [catalog, schema, routine, column],
                  RoutinesSearch(catalog, schema, RoutineColumnsOf(routine, column), single), out);
  }

  /** `processKeysCase`. */
  method ProcessKeysCase(stmt: Statement, exported: bool, catalog: string, schema: string, table: string, single: bool,
                         out: Vector<Row>)
    returns (rc: ReturnCode)
    requires stmt.Valid()
    modifies stmt, out
    ensures RunOf(stmt, out,
                  SearchOutcome(stmt.server, KeysSearch(catalog, schema, table, ForeignKeysOf(exported), single)),
                  false, rc)
  {
    rc := Enumerate(stmt, KeysSearch(catalog, schema, table, ForeignKeysOf(exported), single), out);
  }

  method AppendMatchingKeys(keys: seq<Row>, pkCatalog: string, pkSchema: string, pkTable: string, out: Vector<Row>)
    modifies out
    ensures out.items == old(out.items) + Filter(keys, PkMatcher(pkCatalog, pkSchema, pkTable))
  {
    for k := 0 to |keys|
      invariant out.items == old(out.items) + Filter(keys[..k], PkMatcher(pkCatalog, pkSchema, pkTable))
    {
      assert keys[..k + 1][..k] == keys[..k];
      if MatchesConstraints(keys[k], pkCatalog, pkSchema, pkTable) {
        out.items := out.items + [keys[k]];
      }
    }
    assert keys[..|keys|] == keys;
  }

  /** The case of a given foreign-key table: the keys are gathered in a list of their own first. */
  method KeysOfForeignTable(stmt: Statement, pkCatalog: string, pkSchema: string, pkTable: string,
                            fkCatalog: string, fkSchema: string, fkTable: string, single: bool, out: Vector<Row>)
    returns (rc: ReturnCode)
    requires stmt.Valid()
    modifies stmt, out
    ensures Keeps(stmt)
    ensures stmt.lost == old(stmt.lost) && stmt.failures == old(stmt.failures) ==>
            var imported := ImportedKeys(stmt.server, fkCatalog, fkSchema, fkTable, single);
            && rc.Succeeded() == imported.ok
            && (imported.ok ==>
                out.items == if pkTable == "" then imported.rows
                             else old(out.items) + Filter(imported.rows, PkMatcher(pkCatalog, pkSchema, pkTable)))
    ensures stmt.failures > old(stmt.failures) ==> !rc.Succeeded()
    ensures !rc.Succeeded() ==> out.items == old(out.items)
  {
    var keys;
    rc, keys := GatherImported(stmt, fkCatalog, fkSchema, fkTable, single);
    if !rc.Succeeded() {
      return rc;
    }
    if pkTable != "" {
      AppendMatchingKeys(keys, pkCatalog, pkSchema, pkTable, out);
    } else {
      out.items := keys;
    }
  }

  /** The imported keys in a list of their own. */
  method GatherImported(stmt: Statement, catalog: string, schema: string, table: string, single: bool)
    returns (rc: ReturnCode, keys: seq<Row>)
    requires stmt.Valid()
    modifies stmt
    ensures Keeps(stmt)
    ensures stmt.lost == old(stmt.lost) && stmt.failures == old(stmt.failures) ==>
            && rc.Succeeded() == ImportedKeys(stmt.server, catalog, schema, table, single).ok
            && keys == ImportedKeys(stmt.server, catalog, schema, table, single).rows
    ensures stmt.failures > old(stmt.failures) ==> !rc.Succeeded()
  {
    var fkResults := new Vector<Row>();
    rc := ProcessKeysCase(stmt, false, catalog, schema, table, single, fkResults);
    keys := fkResults.items;
    assert forall rows: seq<Row> :: [] + rows == rows;
  }

  /** `sqlForeignKeys`. With a foreign-key table only, the result replaces what the list held. */
  method SqlForeignKeys(stmt: Statement, pkCatalog: string, pkSchema: string, pkTable: string,
                        fkCatalog: string, fkSchema: string, fkTable: string, single: bool, out: Vector<Row>)
    returns (rc: ReturnCode)
    requires stmt.Valid()
    modifies stmt, out
    ensures Keeps(stmt)
    ensures stmt.lost == old(stmt.lost) && stmt.failures == old(stmt.failures) ==>
            var spec := ForeignKeysSpec(stmt.server, pkCatalog, pkSchema, pkTable, fkCatalog, fkSchema, fkTable,
                                        single);
            && rc.Succeeded() == spec.ok
            && (spec.ok ==>
                out.items == (if fkTable != "" && pkTable == "" then [] else old(out.items)) + spec.rows)
    ensures stmt.failures > old(stmt.failures) ==> !rc.Succeeded()
    ensures stmt.lost == old(stmt.lost) && !rc.Succeeded() && fkTable != "" ==> out.items == old(out.items)
    ensures stmt.lost == old(stmt.lost) && stmt.failures > old(stmt.failures) ==>
            && old(out.items) <= out.items
            && out.items[|old(out.items)|..] <=
               ForeignKeysSpec(stmt.server, pkCatalog, pkSchema, pkTable, fkCatalog, fkSchema, fkTable, single).rows
  {
    hide AllFit, Idle, SearchOutcome;
    rc := ValidateNameLengths([pkCatalog, pkSchema, pkTable, fkCatalog, fkSchema, fkTable]);
    if !rc.Succeeded() {
      return Error;
    }
    if fkTable != "" {
      rc := KeysOfForeignTable(stmt, pkCatalog, pkSchema, pkTable, fkCatalog, fkSchema, fkTable, single, out);
    } else if pkTable != "" {
      rc := ProcessKeysCase(stmt, true, pkCatalog, pkSchema, pkTable, single, out);
    } else {
      return Error;
    }
  }
}
