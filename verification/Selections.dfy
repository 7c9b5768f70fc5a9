/** Enumerations as selections from the catalogue: a name that is given selects the paths of that name, and any
    other name is a pattern. */
module Selections {
  import opened ServerModel
  import opened StatementHandle
  import opened Outcomes
  import opened Sequences
  import opened ShowRequests
  import opened ShowOutcomes
  import opened SearchOutcomes
  import opened Comprehension
  import opened Visits

  /** The names on a path. */
  datatype Place = Place(catalog: string, schema: string, table: string)

  function PlaceOf(p: Path): Place {
    Place(p.catalog, SchemaOf(p), TableOf(p))
  }

  // ---- Scopes ----

  predicate NameInScope(value: string, exact: bool, name: string) {
    if exact && name != "" then value == name else Comprehension.Like(value, name)
  }

  function RowInScope(column: Column, exact: bool, name: string): Row -> bool {
    (r: Row) => NameInScope(NameOf(r, column), exact, name)
  }

  predicate CatalogGiven(search: Search) {
    search.exactCatalog && search.catalog != ""
  }

  /** Single-database mode limits the catalogs unless one is given. */
  function CatalogScope(search: Search, current: string): Catalog -> bool {
    (c: Catalog) =>
      && NameInScope(c.name, search.exactCatalog, search.catalog)
      && (search.single && !CatalogGiven(search) ==> c.name == current)
  }

  function SchemaScope(search: Search, current: string): Path -> bool {
    (p: Path) =>
      && CatalogScope(search, current)(Catalog(p.catalog))
      && NameInScope(SchemaOf(p), search.exactSchema, search.schema)
  }

  function TableScope(search: Search, current: string): Path -> bool
    requires search.leaf.EachTable?
  {
    (p: Path) => SchemaScope(search, current)(p) && NameInScope(TableOf(p), search.leaf.exact, search.leaf.name)
  }

  // ---- Names that are listed once ----

  ghost predicate RowOnce(rows: seq<Row>, column: Column, name: string) {
    |Filter(rows, RowInScope(column, true, name))| == 1
  }

  /** A given catalog is listed once, and so is the current one where the search is limited to it. */
  ghost predicate CatalogOnce(server: Server, search: Search) {
    && (CatalogGiven(search) ==> multiset(AllCatalogs(server))[Catalog(search.catalog)] == 1)
    && (search.single && !CatalogGiven(search) ==> multiset(AllCatalogs(server))[Catalog(server.current)] == 1)
  }

  /** A given schema is listed once in every catalog in scope. */
  ghost predicate SchemaOnce(server: Server, search: Search) {
    search.exactSchema && search.schema != "" ==>
      forall c :: c in Filter(AllCatalogs(server), CatalogScope(search, server.current)) ==>
        RowOnce(Listing(server, Schemas(c.name, "")), SchemaName, search.schema)
  }

  /** A given table is listed once in every schema in scope. */
  ghost predicate TableOnce(server: Server, search: Search) {
    search.leaf.EachTable? && search.leaf.exact && search.leaf.name != "" ==>
      forall p :: p in Filter(AllSchemas(server), SchemaScope(search, server.current)) ==>
        RowOnce(TablesIn(server, "")(p), TableName, search.leaf.name)
  }

  // ---- Catalogs ----

  lemma CatalogsSelected(server: Server, search: Search)
    requires HonoursLike(server) && server.current != "" && CatalogOnce(server, search)
    ensures CatalogsVisited(server, search)
            == Outcome(Filter(AllCatalogs(server), CatalogScope(search, server.current)), true)
  {
    var all, scope := AllCatalogs(server), CatalogScope(search, server.current);
    if CatalogGiven(search) {
      var given := Catalog(search.catalog);
      FilterOnce(all, given, scope);
      assert Filter(all, scope) == [given];
    } else {
      CatalogsInScope(server, search.catalog, search.single);
      FilterEqual(all, scope, CatalogInScope(search.catalog, search.single, server.current));
    }
  }

  // ---- Paths with the same names ----

  ghost predicate SameNames(rs: seq<Row>, ts: seq<Row>, column: Column) {
    |rs| == |ts| && forall i :: 0 <= i < |rs| ==> NameOf(rs[i], column) == NameOf(ts[i], column)
  }

  ghost predicate SamePlaces(ps: seq<Path>, qs: seq<Path>, depth: nat) {
    |ps| == |qs| && forall i :: 0 <= i < |ps| ==> SamePlace(ps[i], qs[i], depth)
  }

  predicate SamePlace(p: Path, q: Path, depth: nat) {
    PlaceOf(p) == PlaceOf(q) && |p.rows| == |q.rows| == depth
  }

  function ColumnAt(depth: nat): Column {
    if depth == 0 then SchemaName else TableName
  }

  lemma SameBelow(p: Path, q: Path, r: Row, t: Row, depth: nat)
    requires depth < 2 && SamePlace(p, q, depth) && NameOf(r, ColumnAt(depth)) == NameOf(t, ColumnAt(depth))
    ensures SamePlace(Below(p, r), Below(q, t), depth + 1)
  {
  }

  lemma SameChildren(p: Path, q: Path, rs: seq<Row>, ts: seq<Row>, depth: nat)
    requires depth < 2 && SamePlace(p, q, depth) && SameNames(rs, ts, ColumnAt(depth))
    ensures SamePlaces(Children(p, rs), Children(q, ts), depth + 1)
  {
    forall i | 0 <= i < |rs| ensures SamePlace(Children(p, rs)[i], Children(q, ts)[i], depth + 1) {
      SameBelow(p, q, rs[i], ts[i], depth);
    }
  }

  /** Extending paths with the same names by rows with the same names. */
  lemma {:induction false} SameExtensions(ps: seq<Path>, qs: seq<Path>, g: Path -> seq<Row>, h: Path -> seq<Row>,
                                          depth: nat)
    requires depth < 2 && SamePlaces(ps, qs, depth)
    requires forall i :: 0 <= i < |ps| ==> SameNames(g(ps[i]), h(qs[i]), ColumnAt(depth))
    ensures SamePlaces(Extend(ps, g), Extend(qs, h), depth + 1)
  {
    if ps != [] {
      var n := |ps| - 1;
      SameExtensions(ps[..n], qs[..n], g, h, depth);
      assert SamePlace(ps[n], qs[n], depth) && SameNames(g(ps[n]), h(qs[n]), ColumnAt(depth));
      SameChildren(ps[n], qs[n], g(ps[n]), h(qs[n]), depth);
    }
  }

  /** What depends on the names only is the same for paths with the same names. */
  lemma {:induction false} SameFlatMap<T>(ps: seq<Path>, qs: seq<Path>, depth: nat, f: Path -> seq<T>)
    requires SamePlaces(ps, qs, depth)
    requires forall p, q :: PlaceOf(p) == PlaceOf(q) ==> f(p) == f(q)
    ensures FlatMap(ps, f) == FlatMap(qs, f)
  {
    if ps != [] {
      var n := |ps| - 1;
      assert SamePlace(ps[n], qs[n], depth);
      SameFlatMap(ps[..n], qs[..n], depth, f);
    }
  }

  // ---- Schemas and tables ----

  /** The rows that are listed, or the one that is given, have the names of the catalogue's rows in scope. */
  lemma GivenOrListed(given: seq<Row>, listed: seq<Row>, column: Column, name: string)
    requires RowOnce(listed, column, name) && name != ""
    requires |given| == 1 && NameOf(given[0], column) == name
    ensures SameNames(given, Filter(listed, RowInScope(column, true, name)), column)
  {
    var found := Filter(listed, RowInScope(column, true, name));
    FilterMembers(listed, RowInScope(column, true, name), found[0]);
  }

  lemma SchemaRowsSelected(server: Server, search: Search, p: Path)
    requires HonoursLike(server) && p.catalog != ""
    requires search.exactSchema && search.schema != "" ==>
               RowOnce(Listing(server, Schemas(p.catalog, "")), SchemaName, search.schema)
    ensures SameNames(SchemaLists(server, search)(p).rows,
                      Filter(SchemasIn(server, "")(p), RowInScope(SchemaName, search.exactSchema, search.schema)),
                      SchemaName)
  {
    var all := Listing(server, Schemas(p.catalog, ""));
    if search.exactSchema && search.schema != "" {
      GivenOrListed(SchemaLists(server, search)(p).rows, all, SchemaName, search.schema);
    } else {
      FilterEqual(all, RowInScope(SchemaName, search.exactSchema, search.schema), RowLike(SchemaName, search.schema));
    }
  }

  lemma TableRowsSelected(server: Server, search: Search, p: Path)
    requires HonoursLike(server) && search.leaf.EachTable? && p.catalog != "" && SchemaOf(p) != ""
    requires search.leaf.exact && search.leaf.name != "" ==>
             RowOnce(TablesIn(server, "")(p), TableName, search.leaf.name)
    ensures SameNames(TableLists(server, search.leaf.exact, search.leaf.name)(p).rows,
                      Filter(TablesIn(server, "")(p), RowInScope(TableName, search.leaf.exact, search.leaf.name)),
                      TableName)
  {
    var all := TablesIn(server, "")(p);
    if search.leaf.exact && search.leaf.name != "" {
      GivenOrListed(TableLists(server, search.leaf.exact, search.leaf.name)(p).rows, all, TableName, search.leaf.name);
    } else {
      TablesLike(server, p, search.leaf.name);
      FilterEqual(all, RowInScope(TableName, search.leaf.exact, search.leaf.name),
                  RowLike(TableName, search.leaf.name));
    }
  }

  function SchemasSelectedIn(server: Server, search: Search): Path -> seq<Row> {
    (p: Path) => Filter(SchemasIn(server, "")(p), RowInScope(SchemaName, search.exactSchema, search.schema))
  }

  function TablesSelectedIn(server: Server, search: Search): Path -> seq<Row>
    requires search.leaf.EachTable?
  {
    (p: Path) => Filter(TablesIn(server, "")(p), RowInScope(TableName, search.leaf.exact, search.leaf.name))
  }

  lemma SchemaScopeSplits(server: Server, search: Search)
    ensures Filter(AllSchemas(server), SchemaScope(search, server.current))
            == Extend(CatalogPaths(Filter(AllCatalogs(server), CatalogScope(search, server.current))),
                      SchemasSelectedIn(server, search))
  {
    var above := (p: Path) => CatalogScope(search, server.current)(Catalog(p.catalog));
    var all := CatalogPaths(AllCatalogs(server));
    forall p, r | p in all
      ensures SchemaScope(search, server.current)(Below(p, r))
              == (above(p) && RowInScope(SchemaName, search.exactSchema, search.schema)(r))
    {
      assert SchemaOf(Below(p, r)) == NameOf(r, SchemaName);
    }
    FilterExtend(all, SchemasIn(server, ""), SchemaScope(search, server.current), above,
                 RowInScope(SchemaName, search.exactSchema, search.schema), SchemasSelectedIn(server, search));
    FilterCatalogPaths(AllCatalogs(server), CatalogScope(search, server.current), above);
  }

  lemma TableScopeParts(server: Server, search: Search)
    requires search.leaf.EachTable? && Regular(AllSchemas(server), 1)
    ensures Filter(AllTables(server), TableScope(search, server.current))
            == Extend(Filter(AllSchemas(server), SchemaScope(search, server.current)),
                      TablesSelectedIn(server, search))
  {
    var inTable := RowInScope(TableName, search.leaf.exact, search.leaf.name);
    forall p, r | p in AllSchemas(server)
      ensures TableScope(search, server.current)(Below(p, r)) == (SchemaScope(search, server.current)(p) && inTable(r))
    {
      assert SchemaOf(Below(p, r)) == SchemaOf(p) && TableOf(Below(p, r)) == NameOf(r, TableName);
    }
    FilterExtend(AllSchemas(server), TablesIn(server, ""), TableScope(search, server.current),
                 SchemaScope(search, server.current), inTable, TablesSelectedIn(server, search));
  }

  /** The visited schemas have the names of the catalogue's schemas in scope, in the same order. */
  lemma SchemasSelected(server: Server, search: Search)
    requires HonoursLike(server) && Named(server) && CatalogOnce(server, search) && SchemaOnce(server, search)
    ensures SamePlaces(VisitedSchemas(server, search),
                       Filter(AllSchemas(server), SchemaScope(search, server.current)), 1)
  {
    hide HonoursLike, Named, SchemaOnce, CatalogOnce, CatalogsVisited, SchemaLists, SchemasSelectedIn;
    CurrentNamed(server);
    CatalogsSelected(server, search);
    SchemaScopeSplits(server, search);
    var catalogs := Filter(AllCatalogs(server), CatalogScope(search, server.current));
    var paths := CatalogPaths(catalogs);
    forall i | 0 <= i < |paths|
      ensures SamePlace(paths[i], paths[i], 0)
      ensures SameNames(RowsOf(SchemaLists(server, search))(paths[i]), SchemasSelectedIn(server, search)(paths[i]),
                        ColumnAt(0))
    {
      assert catalogs[i] in catalogs;
      SchemaNamesAt(server, search, catalogs[i]);
    }
    SameExtensions(paths, paths, RowsOf(SchemaLists(server, search)), SchemasSelectedIn(server, search), 0);
  }

  lemma CurrentNamed(server: Server)
    requires Named(server)
    ensures server.current != ""
  {
  }

  lemma SchemaNamesAt(server: Server, search: Search, c: Catalog)
    requires HonoursLike(server) && Named(server) && SchemaOnce(server, search)
    requires c in Filter(AllCatalogs(server), CatalogScope(search, server.current))
    ensures SameNames(RowsOf(SchemaLists(server, search))(Path(c.name, [])),
                      SchemasSelectedIn(server, search)(Path(c.name, [])), SchemaName)
  {
    FilterMembers(AllCatalogs(server), CatalogScope(search, server.current), c);
    SchemaRowsSelected(server, search, Path(c.name, []));
  }

  /** The visited tables have the names of the catalogue's tables in scope, in the same order. */
  lemma TablesSelected(server: Server, search: Search)
    requires HonoursLike(server) && Named(server) && search.leaf.EachTable?
    requires CatalogOnce(server, search) && SchemaOnce(server, search) && TableOnce(server, search)
    ensures SamePlaces(VisitedTables(server, search), Filter(AllTables(server), TableScope(search, server.current)), 2)
  {
    SchemasSelected(server, search);
    CatalogueRegular(server);
    TableScopeParts(server, search);
    var visited := VisitedSchemas(server, search);
    var selected := Filter(AllSchemas(server), SchemaScope(search, server.current));
    var lists := RowsOf(TableLists(server, search.leaf.exact, search.leaf.name));
    forall i | 0 <= i < |visited|
      ensures SameNames(lists(visited[i]), TablesSelectedIn(server, search)(selected[i]), TableName)
    {
      assert SamePlace(visited[i], selected[i], 1);
      assert selected[i] in selected;
      FilterMembers(AllSchemas(server), SchemaScope(search, server.current), selected[i]);
      TableRowsSelected(server, search, selected[i]);
      assert lists(visited[i]) == lists(selected[i]);
    }
    SameExtensions(visited, selected, lists, TablesSelectedIn(server, search), 1);
  }

  // ---- Searches ----

  /** For any mixture of given names and patterns, where the given names are listed once, a search over tables
      succeeds and asks exactly the catalogue's tables in scope, in the order of the catalogue. */
  lemma TableSearchSelects(server: Server, search: Search)
    requires HonoursLike(server) && Named(server) && search.leaf.EachTable?
    requires CatalogOnce(server, search) && SchemaOnce(server, search) && TableOnce(server, search)
    ensures SearchOutcome(server, search)
            == Outcome(FlatMap(Filter(AllTables(server), TableScope(search, server.current)),
                               RowsOf(TableLeafAt(server, search.leaf.leaf))), true)
  {
    hide HonoursLike, SchemaOnce, TableOnce, SearchOutcome, VisitedSchemas, VisitedTables, TableScope;
    CurrentNamed(server);
    CatalogsSelected(server, search);
    SchemasSelected(server, search);
    TablesSelected(server, search);
    VisitedAreNamed(server, search);
    TableSearchOkIff(server, search);
    LeafByPlace(server, search.leaf.leaf);
    SameFlatMap(VisitedTables(server, search), Filter(AllTables(server), TableScope(search, server.current)), 2,
                RowsOf(TableLeafAt(server, search.leaf.leaf)));
  }

  lemma LeafByPlace(server: Server, leaf: TableLeaf)
    ensures forall p, q :: PlaceOf(p) == PlaceOf(q) ==>
              RowsOf(TableLeafAt(server, leaf))(p) == RowsOf(TableLeafAt(server, leaf))(q)
  {
    hide TableLeafOutcome;
  }

  lemma VisitedAreNamed(server: Server, search: Search)
    requires HonoursLike(server) && Named(server) && search.leaf.EachTable?
    requires CatalogOnce(server, search) && SchemaOnce(server, search) && TableOnce(server, search)
    ensures AllNamed(server, search)
  {
    CatalogsSelected(server, search);
    SchemasSelected(server, search);
    TablesSelected(server, search);
    forall c | c in CatalogsVisited(server, search).rows ensures c.name != "" {
      FilterMembers(AllCatalogs(server), CatalogScope(search, server.current), c);
    }
    var schemas := Filter(AllSchemas(server), SchemaScope(search, server.current));
    forall p | p in VisitedSchemas(server, search) ensures SchemaOf(p) != "" {
      var i :| 0 <= i < |VisitedSchemas(server, search)| && VisitedSchemas(server, search)[i] == p;
      NamedPlace(VisitedSchemas(server, search), schemas, 1, i);
      FilterMembers(AllSchemas(server), SchemaScope(search, server.current), schemas[i]);
    }
    var tables := Filter(AllTables(server), TableScope(search, server.current));
    forall p | p in VisitedTables(server, search) ensures TableOf(p) != "" {
      var i :| 0 <= i < |VisitedTables(server, search)| && VisitedTables(server, search)[i] == p;
      NamedPlace(VisitedTables(server, search), tables, 2, i);
      FilterMembers(AllTables(server), TableScope(search, server.current), tables[i]);
    }
  }

  lemma NamedPlace(ps: seq<Path>, qs: seq<Path>, depth: nat, i: nat)
    requires SamePlaces(ps, qs, depth) && i < |ps|
    ensures i < |qs| && qs[i] in qs && SchemaOf(ps[i]) == SchemaOf(qs[i]) && TableOf(ps[i]) == TableOf(qs[i])
  {
    assert SamePlace(ps[i], qs[i], depth);
  }

  /** The same for what is asked about schemas: the search succeeds exactly when this does at every schema in
      scope. */
  lemma SchemaSearchSelects(server: Server, search: Search)
    requires HonoursLike(server) && Named(server)
    requires CatalogOnce(server, search) && SchemaOnce(server, search)
    ensures var schemas := Filter(AllSchemas(server), SchemaScope(search, server.current));
            var leaf := SchemaLeafAt(server, search.leaf);
            var result := SearchOutcome(server, search);
            && (result.ok <==> forall p :: p in schemas ==> leaf(p).ok)
            && (result.ok ==> result.rows == FlatMap(schemas, RowsOf(leaf)))
  {
    hide HonoursLike, SchemaOnce, SearchOutcome, VisitedSchemas, SchemaScope;
    var schemas := Filter(AllSchemas(server), SchemaScope(search, server.current));
    CurrentNamed(server);
    CatalogsSelected(server, search);
    SchemasSelected(server, search);
    SchemaListsSucceed(server, search);
    SearchOkIff(server, search);
    SchemaLeafByPlace(server, search.leaf);
    SamePlacesAgree(VisitedSchemas(server, search), schemas, SchemaLeafAt(server, search.leaf));
    SameFlatMap(VisitedSchemas(server, search), schemas, 1, RowsOf(SchemaLeafAt(server, search.leaf)));
  }

  lemma SchemaListsSucceed(server: Server, search: Search)
    requires Named(server)
    requires CatalogsVisited(server, search)
             == Outcome(Filter(AllCatalogs(server), CatalogScope(search, server.current)), true)
    ensures forall p :: p in CatalogPaths(CatalogsVisited(server, search).rows) ==> SchemaLists(server, search)(p).ok
  {
    var catalogs := CatalogsVisited(server, search).rows;
    forall p | p in CatalogPaths(catalogs) ensures p.catalog != "" {
      var i :| 0 <= i < |catalogs| && CatalogPaths(catalogs)[i] == p;
      FilterMembers(AllCatalogs(server), CatalogScope(search, server.current), catalogs[i]);
    }
  }

  lemma SchemaLeafByPlace(server: Server, leaf: SchemaLeaf)
    ensures forall p, q :: PlaceOf(p) == PlaceOf(q) ==> SchemaLeafAt(server, leaf)(p) == SchemaLeafAt(server, leaf)(q)
  {
    hide SchemaLeafOutcome;
  }

  lemma SamePlacesAgree(ps: seq<Path>, qs: seq<Path>, leaf: Path -> Outcome<Row>)
    requires SamePlaces(ps, qs, 1)
    requires forall p, q :: PlaceOf(p) == PlaceOf(q) ==> leaf(p) == leaf(q)
    ensures (forall p :: p in ps ==> leaf(p).ok) <==> (forall q :: q in qs ==> leaf(q).ok)
  {
    forall i | 0 <= i < |ps| ensures leaf(ps[i]) == leaf(qs[i]) {
      assert SamePlace(ps[i], qs[i], 1);
    }
  }
}
