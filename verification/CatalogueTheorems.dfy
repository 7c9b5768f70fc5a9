/** `sqlTables`, `sqlColumns` and the privilege searches as selections from the catalogue. */
module CatalogueTheorems {
  import opened ServerModel
  import opened StatementHandle
  import opened Outcomes
  import opened Sequences
  import opened ShowRequests
  import opened ShowOutcomes
  import opened SearchOutcomes
  import opened Comprehension
  import opened Visits
  import opened Selections

  /** The pattern searches have the scopes of the catalogue. */
  lemma PatternScopes(search: Search, current: string)
    requires !search.exactCatalog && !search.exactSchema
    ensures forall p :: SchemaScope(search, current)(p)
                        == SchemaInScope(search.catalog, search.schema, search.single, current)(p)
    ensures search.leaf.EachTable? && !search.leaf.exact ==>
              forall p :: TableScope(search, current)(p)
                == TableInScope(search.catalog, search.schema, search.leaf.name, search.single, current)(p)
  {
    forall p: Path
      ensures SchemaScope(search, current)(p)
              == SchemaInScope(search.catalog, search.schema, search.single, current)(p)
    {
      assert CatalogScope(search, current)(Catalog(p.catalog))
             == (Comprehension.Like(p.catalog, search.catalog) && (search.single ==> p.catalog == current));
    }
  }

  /** A pattern search over tables yields what is asked at every table in scope, in server order. */
  lemma SearchOverTables(server: Server, catalog: string, schema: string, table: string, leaf: TableLeaf, single: bool)
    requires HonoursLike(server) && Named(server)
    requires single ==> multiset(AllCatalogs(server))[Catalog(server.current)] == 1
    ensures SearchOutcome(server, Search(false, catalog, false, schema, EachTable(false, table, leaf), single))
            == Outcome(FlatMap(Filter(AllTables(server), TableInScope(catalog, schema, table, single, server.current)),
                               RowsOf(TableLeafAt(server, leaf))), true)
  {
    hide HonoursLike, Named, SearchOutcome;
    var search := Search(false, catalog, false, schema, EachTable(false, table, leaf), single);
    TableSearchSelects(server, search);
    PatternScopes(search, server.current);
    FilterEqual(AllTables(server), TableScope(search, server.current),
                TableInScope(catalog, schema, table, single, server.current));
  }

  /** SQLTables appends exactly the tables whose catalog, schema and table names match, each once, in
      server order. */
  lemma TablesAreCatalogueRows(server: Server, catalog: string, schema: string, table: string, single: bool)
    requires HonoursLike(server) && Named(server)
    requires single ==> multiset(AllCatalogs(server))[Catalog(server.current)] == 1
    ensures SearchOutcome(server, TablesSearch(catalog, schema, table, single))
            == Outcome(Map(Filter(AllTables(server), TableInScope(catalog, schema, table, single, server.current)),
                           LastRow), true)
  {
    hide HonoursLike, SearchOutcome;
    var search := TablesSearch(catalog, schema, table, single);
    var scope := SchemaInScope(catalog, schema, single, server.current);
    var schemas := Filter(AllSchemas(server), scope);
    SchemaSearchSelects(server, search);
    PatternScopes(search, server.current);
    FilterEqual(AllSchemas(server), SchemaScope(search, server.current), scope);
    CatalogueRegular(server);
    forall p | p in schemas
      ensures SchemaLeafAt(server, TablesOf(table))(p) == Outcome(TablesIn(server, table)(p), true)
    {
      FilterMembers(AllSchemas(server), scope, p);
    }
    TablesInScope(server, catalog, schema, table, single);
    LastRows(schemas, TablesIn(server, table));
    FlatMapEqual(schemas, RowsOf(SchemaLeafAt(server, TablesOf(table))), TablesIn(server, table));
  }

  /** SQLColumns appends exactly the columns whose four names match, each once, in server order. */
  lemma ColumnsAreCatalogueRows(server: Server, catalog: string, schema: string, table: string, column: string,
                                single: bool)
    requires HonoursLike(server) && Named(server)
    requires single ==> multiset(AllCatalogs(server))[Catalog(server.current)] == 1
    ensures SearchOutcome(server, ColumnsSearch(catalog, schema, table, column, single))
            == Outcome(Map(Filter(AllColumns(server),
                                  ColumnInScope(catalog, schema, table, column, single, server.current)),
                           LastRow), true)
  {
    hide HonoursLike, SearchOutcome;
    var scope := TableInScope(catalog, schema, table, single, server.current);
    var tables := Filter(AllTables(server), scope);
    CatalogueRegular(server);
    forall p | p in tables
      ensures RowsOf(TableLeafAt(server, ColumnsOf(column)))(p) == ColumnsIn(server, column)(p)
    {
      FilterMembers(AllTables(server), scope, p);
      TablesHaveSchemas(server, p);
    }
    SearchOverTables(server, catalog, schema, table, ColumnsOf(column), single);
    ColumnsInScope(server, catalog, schema, table, column, single);
    LastRows(tables, ColumnsIn(server, column));
    FlatMapEqual(tables, RowsOf(TableLeafAt(server, ColumnsOf(column))), ColumnsIn(server, column));
  }

  /** Every table path lies below a schema path. */
  lemma TablesHaveSchemas(server: Server, p: Path)
    requires Named(server) && p in AllTables(server)
    ensures SchemaOf(p) != ""
  {
    CatalogueRegular(server);
    var q := ExtendParent(AllSchemas(server), TablesIn(server, ""), p);
    assert |q.rows| == 1;
  }

  /** Single-database mode is restriction: each search yields the part of its all-database result that
      belongs to the current database. */
  lemma SingleTables(server: Server, catalog: string, schema: string, table: string)
    requires HonoursLike(server) && Named(server)
    requires multiset(AllCatalogs(server))[Catalog(server.current)] == 1
    ensures
      var all := Filter(AllTables(server), TableInScope(catalog, schema, table, false, server.current));
      && SearchOutcome(server, TablesSearch(catalog, schema, table, false)) == Outcome(Map(all, LastRow), true)
      && SearchOutcome(server, TablesSearch(catalog, schema, table, true))
         == Outcome(Map(Filter(all, InCatalog(server.current)), LastRow), true)
  {
    TablesAreCatalogueRows(server, catalog, schema, table, false);
    TablesAreCatalogueRows(server, catalog, schema, table, true);
    TablesRestrict(server, catalog, schema, table);
  }

  lemma SingleTableGrants(server: Server, catalog: string, schema: string, table: string)
    requires HonoursLike(server) && Named(server)
    requires multiset(AllCatalogs(server))[Catalog(server.current)] == 1
    ensures
      var all := Filter(AllTables(server), TableInScope(catalog, schema, table, false, server.current));
      && SearchOutcome(server, TableGrantsSearch(catalog, schema, table, false))
         == Outcome(FlatMap(all, RowsOf(TableLeafAt(server, TableGrantsOf))), true)
      && SearchOutcome(server, TableGrantsSearch(catalog, schema, table, true))
         == Outcome(FlatMap(Filter(all, InCatalog(server.current)), RowsOf(TableLeafAt(server, TableGrantsOf))), true)
  {
    SearchOverTables(server, catalog, schema, table, TableGrantsOf, false);
    SearchOverTables(server, catalog, schema, table, TableGrantsOf, true);
    TablesRestrict(server, catalog, schema, table);
  }

  lemma SingleColumns(server: Server, catalog: string, schema: string, table: string, column: string)
    requires HonoursLike(server) && Named(server)
    requires multiset(AllCatalogs(server))[Catalog(server.current)] == 1
    ensures
      var all := Filter(AllColumns(server), ColumnInScope(catalog, schema, table, column, false, server.current));
      && SearchOutcome(server, ColumnsSearch(catalog, schema, table, column, false)) == Outcome(Map(all, LastRow), true)
      && SearchOutcome(server, ColumnsSearch(catalog, schema, table, column, true))
         == Outcome(Map(Filter(all, InCatalog(server.current)), LastRow), true)
  {
    ColumnsAreCatalogueRows(server, catalog, schema, table, column, false);
    ColumnsAreCatalogueRows(server, catalog, schema, table, column, true);
    ColumnsRestrict(server, catalog, schema, table, column);
  }
}
