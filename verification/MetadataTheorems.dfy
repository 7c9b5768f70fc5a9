/** What the metadata functions with given names yield: primary keys, their columns and column privileges. */
module MetadataTheorems {
  import opened Wrappers
  import opened ServerModel
  import opened StatementHandle
  import opened Outcomes
  import opened Sequences
  import opened Ordering
  import opened ShowRequests
  import opened ShowOutcomes
  import opened SearchOutcomes
  import opened Comprehension
  import opened Visits
  import opened Selections
  import opened RoutineTheorems
  import LikeToRegex
  import Regex

  // ---- Primary keys ----

  function PrimaryKeysIn(server: Server): Path -> seq<Row> {
    (p: Path) => Listing(server, PrimaryKeys(p.catalog, SchemaOf(p), TableOf(p)))
  }

  lemma PrimaryKeysAt(server: Server, search: Search)
    requires search.leaf.EachTable? && search.leaf.leaf == PrimaryKeysOf && AllNamed(server, search)
    ensures FlatMap(VisitedTables(server, search), RowsOf(TableLeafAt(server, PrimaryKeysOf)))
            == FlatMap(VisitedTables(server, search), PrimaryKeysIn(server))
  {
    VisitedTablesNamed(server, search);
    FlatMapEqual(VisitedTables(server, search), RowsOf(TableLeafAt(server, PrimaryKeysOf)), PrimaryKeysIn(server));
  }

  /** Everything visited has all three names. */
  lemma VisitedTablesNamed(server: Server, search: Search)
    requires search.leaf.EachTable? && AllNamed(server, search)
    ensures forall p :: p in VisitedTables(server, search) ==> p.catalog != "" && SchemaOf(p) != "" && TableOf(p) != ""
  {
    forall p | p in VisitedTables(server, search) ensures p.catalog != "" && SchemaOf(p) != "" {
      var q := TableParent(server, search, p);
      var c := SchemaParent(server, search, q);
    }
  }

  /** `sqlPrimaryKeys` takes names that are given as they are and lists the others. It succeeds exactly when the
      catalogs can be listed and nothing visited is without a name, and then yields the keys of the visited tables,
      in order. */
  lemma PrimaryKeysYield(server: Server, catalog: string, schema: string, table: string, single: bool)
    ensures var search := KeysSearch(catalog, schema, table, PrimaryKeysOf, single);
            var result := SearchOutcome(server, search);
            && (result.ok <==> CatalogsVisited(server, search).ok && AllNamed(server, search))
            && (result.ok ==> result.rows == FlatMap(VisitedTables(server, search), PrimaryKeysIn(server)))
  {
    hide SearchOutcome, VisitedTables, AllNamed;
    var search := KeysSearch(catalog, schema, table, PrimaryKeysOf, single);
    TableSearchOkIff(server, search);
    if AllNamed(server, search) {
      PrimaryKeysAt(server, search);
    }
  }

  /** The schema and the table have the names that are given. */
  predicate NamesAreGiven(p: Path, schema: string, table: string) {
    (schema != "" ==> SchemaOf(p) == schema) && (table != "" ==> TableOf(p) == table)
  }

  /** The tables of the given catalog, or else of all, in single-database mode of the current one. */
  function GivenTable(catalog: string, schema: string, table: string, single: bool, current: string): Path -> bool {
    (p: Path) =>
      && (catalog != "" ==> p.catalog == catalog)
      && (catalog == "" && single ==> p.catalog == current)
      && NamesAreGiven(p, schema, table)
  }

  /** The tables of the catalogs that match the pattern, in single-database mode only of the current one. */
  function MatchingTable(catalog: string, schema: string, table: string, single: bool, current: string): Path -> bool {
    (p: Path) =>
      && Comprehension.Like(p.catalog, catalog)
      && (single ==> p.catalog == current)
      && NamesAreGiven(p, schema, table)
  }

  lemma GivenScope(catalog: string, schema: string, table: string, leaf: TableLeaf, single: bool, current: string,
                   paths: seq<Path>)
    ensures Filter(paths, TableScope(KeysSearch(catalog, schema, table, leaf, single), current))
            == Filter(paths, GivenTable(catalog, schema, table, single, current))
  {
    var search := KeysSearch(catalog, schema, table, leaf, single);
    forall p: Path
      ensures TableScope(search, current)(p) == GivenTable(catalog, schema, table, single, current)(p)
    {
      assert SchemaScope(search, current)(p)
             == (CatalogScope(search, current)(Catalog(p.catalog)) && NameInScope(SchemaOf(p), true, schema));
    }
    FilterEqual(paths, TableScope(search, current), GivenTable(catalog, schema, table, single, current));
  }

  lemma MatchingScope(catalog: string, schema: string, table: string, leaf: TableLeaf, single: bool, current: string,
                      paths: seq<Path>)
    ensures Filter(paths, TableScope(NamedSearch(catalog, schema, table, leaf, single), current))
            == Filter(paths, MatchingTable(catalog, schema, table, single, current))
  {
    var search := NamedSearch(catalog, schema, table, leaf, single);
    forall p: Path
      ensures TableScope(search, current)(p) == MatchingTable(catalog, schema, table, single, current)(p)
    {
      assert SchemaScope(search, current)(p)
             == (CatalogScope(search, current)(Catalog(p.catalog)) && NameInScope(SchemaOf(p), true, schema));
    }
    FilterEqual(paths, TableScope(search, current), MatchingTable(catalog, schema, table, single, current));
  }

  /** Where the given names are listed once, these are the keys of the catalogue's tables with these names. */
  lemma PrimaryKeysInCatalogue(server: Server, catalog: string, schema: string, table: string, single: bool)
    requires HonoursLike(server) && Named(server)
    requires var search := KeysSearch(catalog, schema, table, PrimaryKeysOf, single);
             CatalogOnce(server, search) && SchemaOnce(server, search) && TableOnce(server, search)
    ensures var search := KeysSearch(catalog, schema, table, PrimaryKeysOf, single);
            SearchOutcome(server, search)
            == Outcome(FlatMap(Filter(AllTables(server), GivenTable(catalog, schema, table, single, server.current)),
                               PrimaryKeysIn(server)), true)
  {
    hide SearchOutcome, VisitedTables, AllNamed, HonoursLike, CatalogOnce, SchemaOnce, TableOnce, TableScope;
    var search := KeysSearch(catalog, schema, table, PrimaryKeysOf, single);
    PrimaryKeysYield(server, catalog, schema, table, single);
    CurrentNamed(server);
    CatalogsSelected(server, search);
    VisitedAreNamed(server, search);
    TablesSelected(server, search);
    SameFlatMap(VisitedTables(server, search), Filter(AllTables(server), TableScope(search, server.current)), 2,
                PrimaryKeysIn(server));
    GivenScope(catalog, schema, table, PrimaryKeysOf, single, server.current, AllTables(server));
  }

  // ---- Special columns ----

  function ColumnNames(rows: seq<Row>): set<string> {
    set r | r in rows :: NameOf(r, ColumnName)
  }

  /** Some row of the key has the name of this column. */
  function OfKey(keys: seq<Row>): Row -> bool {
    (column: Row) => exists key :: key in keys && NameOf(key, ColumnName) == NameOf(column, ColumnName)
  }

  lemma InKeyMeans(keys: seq<Row>, columns: seq<Row>)
    ensures Filter(columns, InKey(KeyNames(keys))) == Filter(columns, OfKey(keys))
  {
    forall column: Row ensures InKey(KeyNames(keys))(column) == OfKey(keys)(column) {
    }
    FilterEqual(columns, InKey(KeyNames(keys)), OfKey(keys));
  }

  /** For one table, `sqlSpecialColumns` returns the columns that belong to the primary key, in the order
      of the columns; their names are the key's names that are names of columns. A table without a key
      contributes nothing. */
  lemma SpecialColumnsAreKeyColumns(server: Server, c: string, s: string, t: string)
    requires c != "" && s != "" && t != ""
    ensures var keys := Listing(server, PrimaryKeys(c, s, t));
            var columns := Listing(server, Columns(c, s, t, ""));
            var special := SpecialColumnsOutcome(server, c, s, t);
            && special.ok
            && special.rows == Filter(columns, OfKey(keys))
            && ColumnNames(special.rows) == ColumnNames(keys) * ColumnNames(columns)
            && (ColumnNames(keys) <= ColumnNames(columns) ==> ColumnNames(special.rows) == ColumnNames(keys))
  {
    hide Listing;
    var keys := Listing(server, PrimaryKeys(c, s, t));
    var columns := Listing(server, Columns(c, s, t, ""));
    var p := OfKey(keys);
    InKeyMeans(keys, columns);
    if keys == [] {
      FilterNone(columns, p);
    }
    forall r: Row ensures r in Filter(columns, p) <==> r in columns && p(r) {
      FilterMembers(columns, p, r);
    }
  }

  function KeyColumnsIn(server: Server): Path -> seq<Row> {
    (p: Path) => Filter(ColumnsIn(server, "")(p), OfKey(PrimaryKeysIn(server)(p)))
  }

  /** The column belongs to the primary key of its table. */
  function IsKeyColumn(server: Server): Path -> bool {
    (p: Path) =>
      exists key :: key in Listing(server, PrimaryKeys(p.catalog, SchemaOf(p), TableOf(p)))
                    && NameOf(key, ColumnName) == ColumnOf(p)
  }

  /** Filtering the extensions of paths, each by a condition of its own. */
  lemma {:induction false} FilterExtendEach(paths: seq<Path>, g: Path -> seq<Row>, m: Path -> bool, h: Path -> seq<Row>)
    requires forall p :: p in paths ==> h(p) == Filter(g(p), Accepting(m, p))
    ensures Filter(Extend(paths, g), m) == Extend(paths, h)
  {
    if paths != [] {
      var n := |paths| - 1;
      var last := paths[n];
      assert last in paths;
      FilterExtendEach(paths[..n], g, m, h);
      FilterConcat(Extend(paths[..n], g), Children(last, g(last)), m);
      FilterChildren(last, g(last), m, true, Accepting(m, last));
    }
  }

  function Accepting(m: Path -> bool, p: Path): Row -> bool {
    (r: Row) => m(Below(p, r))
  }

  /** `sqlSpecialColumns` succeeds exactly when the catalogs can be listed and nothing visited is without a name. It
      then yields, in the order of the visited tables and of their columns, exactly the columns that belong to the
      primary key of their table. */
  lemma SpecialColumnsYield(server: Server, catalog: string, schema: string, table: string, single: bool)
    ensures var search := NamedSearch(catalog, schema, table, SpecialColumnsOf, single);
            var result := SearchOutcome(server, search);
            && (result.ok <==> CatalogsVisited(server, search).ok && AllNamed(server, search))
            && (result.ok ==> result.rows == FlatMap(VisitedTables(server, search), KeyColumnsIn(server)))
            && (result.ok ==>
                result.rows == Map(Filter(Extend(VisitedTables(server, search), ColumnsIn(server, "")),
                                          IsKeyColumn(server)), LastRow))
  {
    hide SearchOutcome, VisitedTables, AllNamed;
    var search := NamedSearch(catalog, schema, table, SpecialColumnsOf, single);
    TableSearchOkIff(server, search);
    if AllNamed(server, search) {
      SpecialColumnsAt(server, search);
      KeyColumnPaths(server, search);
    }
  }

  lemma SpecialColumnsAt(server: Server, search: Search)
    requires search.leaf.EachTable? && AllNamed(server, search)
    ensures FlatMap(VisitedTables(server, search), RowsOf(TableLeafAt(server, SpecialColumnsOf)))
            == FlatMap(VisitedTables(server, search), KeyColumnsIn(server))
  {
    hide AllNamed, VisitedTables;
    VisitedTablesNamed(server, search);
    forall p | p in VisitedTables(server, search)
      ensures RowsOf(TableLeafAt(server, SpecialColumnsOf))(p) == KeyColumnsIn(server)(p)
    {
      SpecialColumnsAtTable(server, p);
    }
    FlatMapEqual(VisitedTables(server, search), RowsOf(TableLeafAt(server, SpecialColumnsOf)), KeyColumnsIn(server));
  }

  lemma SpecialColumnsAtTable(server: Server, p: Path)
    requires p.catalog != "" && SchemaOf(p) != "" && TableOf(p) != ""
    ensures RowsOf(TableLeafAt(server, SpecialColumnsOf))(p) == KeyColumnsIn(server)(p)
  {
    SpecialColumnsAreKeyColumns(server, p.catalog, SchemaOf(p), TableOf(p));
    var keys := Listing(server, PrimaryKeys(p.catalog, SchemaOf(p), TableOf(p)));
    var columns := Listing(server, Columns(p.catalog, SchemaOf(p), TableOf(p), ""));
    assert PrimaryKeysIn(server)(p) == keys;
    assert ColumnsIn(server, "")(p) == columns;
    assert KeyColumnsIn(server)(p) == Filter(columns, OfKey(keys));
    assert RowsOf(TableLeafAt(server, SpecialColumnsOf))(p)
           == SpecialColumnsOutcome(server, p.catalog, SchemaOf(p), TableOf(p)).rows;
  }

  lemma KeyColumnPaths(server: Server, search: Search)
    requires search.leaf.EachTable?
    ensures FlatMap(VisitedTables(server, search), KeyColumnsIn(server))
            == Map(Filter(Extend(VisitedTables(server, search), ColumnsIn(server, "")), IsKeyColumn(server)), LastRow)
  {
    var tables := VisitedTables(server, search);
    TablePathsLong(server, search);
    forall p | p in tables
      ensures KeyColumnsIn(server)(p) == Filter(ColumnsIn(server, "")(p), Accepting(IsKeyColumn(server), p))
    {
      forall r: Row ensures OfKey(PrimaryKeysIn(server)(p))(r) == Accepting(IsKeyColumn(server), p)(r) {
        BelowTable(p, r);
      }
      FilterEqual(ColumnsIn(server, "")(p), OfKey(PrimaryKeysIn(server)(p)), Accepting(IsKeyColumn(server), p));
    }
    FilterExtendEach(tables, ColumnsIn(server, ""), IsKeyColumn(server), KeyColumnsIn(server));
    LastRows(tables, KeyColumnsIn(server));
  }

  lemma BelowTable(p: Path, r: Row)
    requires |p.rows| == 2
    ensures var q := Below(p, r);
            q.catalog == p.catalog && SchemaOf(q) == SchemaOf(p) && TableOf(q) == TableOf(p)
            && ColumnOf(q) == NameOf(r, ColumnName)
  {
  }

  lemma TablePathsLong(server: Server, search: Search)
    requires search.leaf.EachTable?
    ensures forall p :: p in VisitedTables(server, search) ==> |p.rows| == 2
  {
    SchemaPathsShort(server, search);
    ExtendDeeper(VisitedSchemas(server, search), RowsOf(TableLists(server, search.leaf.exact, search.leaf.name)), 1);
  }

  /** Table by table: a table without a key contributes nothing, and the names are those of the key wherever the key
      is among the columns. */
  lemma KeyColumnNames(server: Server, p: Path)
    ensures var keys, columns := PrimaryKeysIn(server)(p), ColumnsIn(server, "")(p);
            && (keys == [] ==> KeyColumnsIn(server)(p) == [])
            && ColumnNames(KeyColumnsIn(server)(p)) == ColumnNames(keys) * ColumnNames(columns)
            && (ColumnNames(keys) <= ColumnNames(columns) ==>
                 ColumnNames(KeyColumnsIn(server)(p)) == ColumnNames(keys))
  {
    hide Listing;
    var keys, columns := PrimaryKeysIn(server)(p), ColumnsIn(server, "")(p);
    var inKey := OfKey(keys);
    if keys == [] {
      FilterNone(columns, inKey);
    }
    forall r: Row ensures r in Filter(columns, inKey) <==> r in columns && inKey(r) {
      FilterMembers(columns, inKey, r);
    }
  }

  /** Where the given names are listed once, these are the key columns of the catalogue's tables with these names. */
  lemma SpecialColumnsInCatalogue(server: Server, catalog: string, schema: string, table: string, single: bool)
    requires HonoursLike(server) && Named(server)
    requires var search := NamedSearch(catalog, schema, table, SpecialColumnsOf, single);
             CatalogOnce(server, search) && SchemaOnce(server, search) && TableOnce(server, search)
    ensures var search := NamedSearch(catalog, schema, table, SpecialColumnsOf, single);
            SearchOutcome(server, search)
            == Outcome(FlatMap(Filter(AllTables(server), MatchingTable(catalog, schema, table, single, server.current)),
                               KeyColumnsIn(server)), true)
  {
    hide SearchOutcome, VisitedTables, AllNamed, HonoursLike, CatalogOnce, SchemaOnce, TableOnce, TableScope;
    var search := NamedSearch(catalog, schema, table, SpecialColumnsOf, single);
    SpecialColumnsYield(server, catalog, schema, table, single);
    CurrentNamed(server);
    CatalogsSelected(server, search);
    VisitedAreNamed(server, search);
    TablesSelected(server, search);
    SameFlatMap(VisitedTables(server, search), Filter(AllTables(server), TableScope(search, server.current)), 2,
                KeyColumnsIn(server));
    MatchingScope(catalog, schema, table, SpecialColumnsOf, single, server.current, AllTables(server));
  }

  // ---- Column privileges ----

  /** The grants of one table whose column is in the LIKE language of the pattern; an empty pattern takes all. */
  function MatchingGrants(server: Server, p: Path, pattern: string): seq<Row> {
    Filter(Listing(server, ColumnGrants(p.catalog, SchemaOf(p), TableOf(p))), RowLike(ColumnName, pattern))
  }

  /** A pattern that the compiled matcher decides for every name, or for these. */
  ghost predicate Decided(pattern: string, rows: seq<Row>) {
    && !LikeToRegex.Dangling(pattern)
    && (LikeToRegex.OnlyPercent(pattern) && pattern != "" ==>
        forall row :: row in rows ==> !Regex.HasLineTerminator(NameOf(row, ColumnName)))
  }

  function ColumnGrantsAt(server: Server, pattern: string): Path -> seq<Row> {
    RowsOf(TableLeafAt(server, ColumnGrantsOf(pattern)))
  }

  /** `sqlColumnPrivileges` succeeds exactly when the catalogs can be listed and nothing visited is without a name. It
      then appends, for each visited table in order, its grants on the columns that match the pattern, each once and
      sorted by privilege. */
  lemma ColumnPrivilegesYield(server: Server, catalog: string, schema: string, table: string, pattern: string,
                              single: bool)
    requires Conforms(server)
    ensures var search := NamedSearch(catalog, schema, table, ColumnGrantsOf(pattern), single);
            var result := SearchOutcome(server, search);
            && (result.ok <==> CatalogsVisited(server, search).ok && AllNamed(server, search))
            && (result.ok ==>
                && result.rows == FlatMap(VisitedTables(server, search), ColumnGrantsAt(server, pattern))
                && forall p :: p in VisitedTables(server, search) ==> GrantsMatch(server, p, pattern))
  {
    hide SearchOutcome, VisitedTables, AllNamed, Conforms, GrantsMatch;
    var search := NamedSearch(catalog, schema, table, ColumnGrantsOf(pattern), single);
    TableSearchOkIff(server, search);
    if AllNamed(server, search) {
      VisitedTablesNamed(server, search);
      forall p | p in VisitedTables(server, search) ensures GrantsMatch(server, p, pattern) {
        GrantsMatchAt(server, p, pattern);
      }
    }
  }

  /** What one table contributes. */
  ghost predicate GrantsMatch(server: Server, p: Path, pattern: string) {
    var rows := ColumnGrantsAt(server, pattern)(p);
    && PrivilegesAscend(rows)
    && (Decided(pattern, Listing(server, ColumnGrants(p.catalog, SchemaOf(p), TableOf(p)))) ==>
        multiset(rows) == multiset(MatchingGrants(server, p, pattern)))
  }

  lemma GrantsMatchAt(server: Server, p: Path, pattern: string)
    requires Conforms(server) && p.catalog != "" && SchemaOf(p) != "" && TableOf(p) != ""
    ensures GrantsMatch(server, p, pattern)
  {
    hide Filter, Listing, Conforms, PrivilegeLess, PrivilegesAscend, InsertionSort;
    GrantsAreSorted(server, ColumnGrantsOf(pattern), p.catalog, SchemaOf(p), TableOf(p));
    if Decided(pattern, Listing(server, ColumnGrants(p.catalog, SchemaOf(p), TableOf(p)))) {
      ColumnGrantsMatchAndAreSorted(server, p.catalog, SchemaOf(p), TableOf(p), pattern);
    }
  }
}
