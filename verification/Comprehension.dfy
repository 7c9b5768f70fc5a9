/** The nested enumerations as comprehensions over the server's catalogue: filter all paths from a
    catalog down to a row, in server order. */
module Comprehension {
  import opened ServerModel
  import opened StatementHandle
  import opened Outcomes
  import opened Sequences
  import opened ShowRequests
  import opened ShowOutcomes
  import opened SearchOutcomes
  import opened LikePattern

  /** A catalog and the rows below it: a schema, a table of it, a column of that. */
  datatype Path = Path(catalog: string, rows: seq<Row>)

  function Below(p: Path, r: Row): Path {
    Path(p.catalog, p.rows + [r])
  }

  function Children(p: Path, rows: seq<Row>): (paths: seq<Path>)
    ensures |paths| == |rows| && forall i :: 0 <= i < |rows| ==> paths[i] == Below(p, rows[i])
  {
    seq(|rows|, i requires 0 <= i < |rows| => Below(p, rows[i]))
  }

  /** Every path, extended by every row below it. */
  function Extend(paths: seq<Path>, g: Path -> seq<Row>): seq<Path> {
    if paths == [] then []
    else Extend(paths[..|paths| - 1], g) + Children(paths[|paths| - 1], g(paths[|paths| - 1]))
  }

  function CatalogPaths(catalogs: seq<Catalog>): (paths: seq<Path>)
    ensures |paths| == |catalogs| && forall i :: 0 <= i < |catalogs| ==> paths[i] == Path(catalogs[i].name, [])
  {
    seq(|catalogs|, i requires 0 <= i < |catalogs| => Path(catalogs[i].name, []))
  }

  // ---- The catalogue ----

  function AllCatalogs(server: Server): seq<Catalog> {
    DatabaseNames(Answer(server, Request.Databases("")))
  }

  function SchemaOf(p: Path): string {
    if |p.rows| > 0 then NameOf(p.rows[0], SchemaName) else ""
  }

  function TableOf(p: Path): string {
    if |p.rows| > 1 then NameOf(p.rows[1], TableName) else ""
  }

  function ColumnOf(p: Path): string {
    if |p.rows| > 2 then NameOf(p.rows[2], ColumnName) else ""
  }

  function SchemasIn(server: Server, pattern: string): Path -> seq<Row> {
    (p: Path) => Listing(server, Schemas(p.catalog, pattern))
  }

  function TablesIn(server: Server, pattern: string): Path -> seq<Row> {
    (p: Path) => Listing(server, Tables(p.catalog, SchemaOf(p), pattern))
  }

  function ColumnsIn(server: Server, pattern: string): Path -> seq<Row> {
    (p: Path) => Listing(server, Columns(p.catalog, SchemaOf(p), TableOf(p), pattern))
  }

  function AllSchemas(server: Server): seq<Path> {
    Extend(CatalogPaths(AllCatalogs(server)), SchemasIn(server, ""))
  }

  function AllTables(server: Server): seq<Path> {
    Extend(AllSchemas(server), TablesIn(server, ""))
  }

  function AllColumns(server: Server): seq<Path> {
    Extend(AllTables(server), ColumnsIn(server, ""))
  }

  /** The row at the end of a path. */
  function LastRow(p: Path): Row {
    if p.rows == [] then map[] else p.rows[|p.rows| - 1]
  }

  // ---- Patterns ----

  /** The empty pattern matches everything; any other is a LIKE pattern. */
  predicate Like(name: string, pattern: string) {
    pattern == "" || Accepts(Tokens(pattern), name)
  }

  function CatalogLike(pattern: string): Catalog -> bool {
    (c: Catalog) => Like(c.name, pattern)
  }

  function RowLike(column: Column, pattern: string): Row -> bool {
    (r: Row) => Like(NameOf(r, column), pattern)
  }

  /** SHOW with a LIKE clause lists what SHOW without it lists, less the names that do not match. */
  ghost predicate HonoursLike(server: Server) {
    && (forall p: string {:trigger Request.Databases(p)} :: p != "" ==>
         DatabaseNames(Answer(server, Request.Databases(p))) == Filter(AllCatalogs(server), CatalogLike(p)))
    && (forall c: string, p: string :: Listing(server, Schemas(c, p))
         == Filter(Listing(server, Schemas(c, "")), RowLike(SchemaName, p)))
    && (forall c: string, s: string, p: string :: Listing(server, Tables(c, s, p))
         == Filter(Listing(server, Tables(c, s, "")), RowLike(TableName, p)))
    && (forall c: string, s: string, t: string, p: string :: Listing(server, Columns(c, s, t, p))
         == Filter(Listing(server, Columns(c, s, t, "")), RowLike(ColumnName, p)))
  }

  /** No catalog, schema or table without a name, and a connection with a current database. */
  ghost predicate Named(server: Server) {
    && server.current != ""
    && (forall c :: c in AllCatalogs(server) ==> c.name != "")
    && (forall p :: p in AllSchemas(server) ==> SchemaOf(p) != "")
    && (forall p :: p in AllTables(server) ==> TableOf(p) != "")
  }

  // ---- Filtering and extending ----

  lemma {:induction false} FilterChildren(p: Path, rows: seq<Row>, m: Path -> bool, keep: bool, q: Row -> bool)
    requires forall r :: m(Below(p, r)) == (keep && q(r))
    ensures Filter(Children(p, rows), m) == if keep then Children(p, Filter(rows, q)) else []
  {
    if rows != [] {
      var n := |rows| - 1;
      FilterChildren(p, rows[..n], m, keep, q);
      assert Children(p, rows)[..n] == Children(p, rows[..n]);
      if keep && q(rows[n]) {
        assert Children(p, Filter(rows[..n], q)) + [Below(p, rows[n])] == Children(p, Filter(rows[..n], q) + [rows[n]]);
      }
    }
  }

  /** Filtering the extensions of paths by a condition on the path and one on the new row. */
  lemma {:induction false} FilterExtend(paths: seq<Path>, g: Path -> seq<Row>, m: Path -> bool, m': Path -> bool,
                                        q: Row -> bool, g': Path -> seq<Row>)
    requires forall p, r :: p in paths ==> m(Below(p, r)) == (m'(p) && q(r))
    requires forall p :: p in paths ==> g'(p) == Filter(g(p), q)
    ensures Filter(Extend(paths, g), m) == Extend(Filter(paths, m'), g')
  {
    if paths != [] {
      var n := |paths| - 1;
      var last := paths[n];
      assert last in paths;
      FilterExtend(paths[..n], g, m, m', q, g');
      FilterConcat(Extend(paths[..n], g), Children(last, g(last)), m);
      FilterChildren(last, g(last), m, m'(last), q);
      ExtendKept(Filter(paths[..n], m'), last, m'(last), g');
    }
  }

  lemma ExtendKept(paths: seq<Path>, last: Path, keep: bool, g: Path -> seq<Row>)
    ensures Extend(paths + (if keep then [last] else []), g)
            == Extend(paths, g) + if keep then Children(last, g(last)) else []
  {
    if keep {
      assert (paths + [last])[..|paths|] == paths;
    } else {
      assert paths + [] == paths && Extend(paths, g) + [] == Extend(paths, g);
    }
  }

  /** The last rows of extended paths. */
  lemma {:induction false} LastRows(paths: seq<Path>, g: Path -> seq<Row>)
    ensures Map(Extend(paths, g), LastRow) == FlatMap(paths, g)
  {
    if paths != [] {
      var n := |paths| - 1;
      LastRows(paths[..n], g);
      assert Map(Extend(paths, g), LastRow)
             == Map(Extend(paths[..n], g), LastRow) + Map(Children(paths[n], g(paths[n])), LastRow);
      assert Map(Children(paths[n], g(paths[n])), LastRow) == g(paths[n]);
    }
  }

  /** What `h` says of the paths just below `p`. */
  function Under<T>(p: Path, h: Path -> seq<T>): Row -> seq<T> {
    (r: Row) => h(Below(p, r))
  }

  lemma {:induction false} FlatMapChildren<T>(p: Path, rows: seq<Row>, h: Path -> seq<T>)
    ensures FlatMap(Children(p, rows), h) == FlatMap(rows, Under(p, h))
  {
    if rows != [] {
      var n := |rows| - 1;
      FlatMapChildren(p, rows[..n], h);
      assert Children(p, rows)[..n] == Children(p, rows[..n]);
    }
  }

  /** Flattening over extended paths is flattening over the paths and then over their rows. */
  lemma {:induction false} FlatMapExtend<T>(paths: seq<Path>, g: Path -> seq<Row>, h: Path -> seq<T>, k: Path -> seq<T>)
    requires forall p :: p in paths ==> k(p) == FlatMap(g(p), Under(p, h))
    ensures FlatMap(Extend(paths, g), h) == FlatMap(paths, k)
  {
    if paths != [] {
      var n := |paths| - 1;
      assert paths[n] in paths;
      FlatMapExtend(paths[..n], g, h, k);
      FlatMapConcat(Extend(paths[..n], g), Children(paths[n], g(paths[n])), h);
      FlatMapChildren(paths[n], g(paths[n]), h);
    }
  }

  lemma {:induction false} FilterCatalogPaths(catalogs: seq<Catalog>, p: Catalog -> bool, m: Path -> bool)
    requires forall c :: c in catalogs ==> m(Path(c.name, [])) == p(c)
    ensures Filter(CatalogPaths(catalogs), m) == CatalogPaths(Filter(catalogs, p))
  {
    if catalogs != [] {
      var n := |catalogs| - 1;
      assert catalogs[n] in catalogs;
      FilterCatalogPaths(catalogs[..n], p, m);
      assert CatalogPaths(catalogs)[..n] == CatalogPaths(catalogs[..n]);
      if p(catalogs[n]) {
        assert CatalogPaths(Filter(catalogs[..n], p)) + [Path(catalogs[n].name, [])]
               == CatalogPaths(Filter(catalogs[..n], p) + [catalogs[n]]);
      }
    }
  }

  /** A loop in which nothing is rejected flattens. */
  lemma {:induction false} ForEachFlattens<S, T>(xs: seq<S>, f: S -> Outcome<T>, g: S -> seq<T>)
    requires forall x :: x in xs ==> f(x) == Outcome(g(x), true)
    ensures ForEach(xs, f) == Outcome(FlatMap(xs, g), true)
  {
    if xs != [] {
      var n := |xs| - 1;
      assert xs[n] in xs;
      ForEachFlattens(xs[..n], f, g);
    }
  }

  // ---- Catalogs in scope ----

  /** The catalog matches the pattern and, in single-database mode, is the current one. */
  function CatalogInScope(pattern: string, single: bool, current: string): Catalog -> bool {
    (c: Catalog) => Like(c.name, pattern) && (single ==> c.name == current)
  }

  lemma {:induction false} FilterOnce(catalogs: seq<Catalog>, c: Catalog, p: Catalog -> bool)
    requires forall x :: p(x) <==> x == c
    ensures |Filter(catalogs, p)| == multiset(catalogs)[c]
    ensures forall k :: 0 <= k < |Filter(catalogs, p)| ==> Filter(catalogs, p)[k] == c
  {
    if catalogs != [] {
      var n := |catalogs| - 1;
      FilterOnce(catalogs[..n], c, p);
      assert catalogs == catalogs[..n] + [catalogs[n]];
    }
  }

  /** The database helper lists the catalogs in scope. In single-database mode this needs the current
      database to be listed once. */
  lemma CatalogsInScope(server: Server, pattern: string, single: bool)
    requires HonoursLike(server) && server.current != ""
    requires single ==> multiset(AllCatalogs(server))[Catalog(server.current)] == 1
    ensures CatalogsOutcome(server, pattern, single)
            == Outcome(Filter(AllCatalogs(server), CatalogInScope(pattern, single, server.current)), true)
  {
    var all, current := AllCatalogs(server), Catalog(server.current);
    var scope := CatalogInScope(pattern, single, server.current);
    if !single {
      if pattern == "" { FilterAll(all, scope); } else { FilterEqual(all, CatalogLike(pattern), scope); }
    } else {
      var isCurrent := (c: Catalog) => c == current;
      FilterOnce(all, current, isCurrent);
      assert Filter(all, isCurrent) == [current];
      if Like(current.name, pattern) {
        FilterEqual(all, scope, isCurrent);
        FilterMembers(all, CatalogLike(pattern), current);
        FilterMembers(all, isCurrent, current);
      } else {
        FilterNone(all, scope);
        FilterMembers(all, CatalogLike(pattern), current);
      }
    }
  }

  // ---- The search as a comprehension over schemas ----

  /** The path's catalog is in scope and its schema matches. */
  function SchemaInScope(catalog: string, schema: string, single: bool, current: string): Path -> bool {
    (p: Path) => Like(p.catalog, catalog) && (single ==> p.catalog == current) && Like(SchemaOf(p), schema)
  }

  lemma CatalogPathsMember(catalogs: seq<Catalog>, c: Catalog)
    requires c in catalogs
    ensures Path(c.name, []) in CatalogPaths(catalogs)
  {
    var i :| 0 <= i < |catalogs| && catalogs[i] == c;
    assert CatalogPaths(catalogs)[i] == Path(c.name, []);
  }

  lemma {:induction false} ExtendMember(paths: seq<Path>, g: Path -> seq<Row>, p: Path, r: Row)
    requires p in paths && r in g(p)
    ensures Below(p, r) in Extend(paths, g)
  {
    var n := |paths| - 1;
    if p == paths[n] {
      var i :| 0 <= i < |g(p)| && g(p)[i] == r;
      assert Children(p, g(p))[i] == Below(p, r);
    } else {
      assert paths == paths[..n] + [paths[n]];
      ExtendMember(paths[..n], g, p, r);
    }
  }

  // ---- SQLTables and SQLColumns ----

  function TableInScope(catalog: string, schema: string, table: string, single: bool, current: string): Path -> bool {
    (p: Path) => SchemaInScope(catalog, schema, single, current)(p) && Like(TableOf(p), table)
  }

  function ColumnInScope(catalog: string, schema: string, table: string, column: string, single: bool, current: string)
    : Path -> bool
  {
    (p: Path) => TableInScope(catalog, schema, table, single, current)(p) && Like(ColumnOf(p), column)
  }

  /** Paths of `n` rows in named catalogs. */
  ghost predicate Regular(paths: seq<Path>, n: nat) {
    forall k :: 0 <= k < |paths| ==> |paths[k].rows| == n && paths[k].catalog != ""
  }

  lemma {:induction false} ExtendRegular(paths: seq<Path>, g: Path -> seq<Row>, n: nat)
    requires Regular(paths, n)
    ensures Regular(Extend(paths, g), n + 1)
  {
    if paths != [] { ExtendRegular(paths[..|paths| - 1], g, n); }
  }

  lemma CatalogueRegular(server: Server)
    requires Named(server)
    ensures Regular(AllSchemas(server), 1) && Regular(AllTables(server), 2)
  {
    assert Regular(CatalogPaths(AllCatalogs(server)), 0);
    ExtendRegular(CatalogPaths(AllCatalogs(server)), SchemasIn(server, ""), 0);
    ExtendRegular(AllSchemas(server), TablesIn(server, ""), 1);
  }

  lemma TablesLike(server: Server, p: Path, table: string)
    requires HonoursLike(server)
    ensures TablesIn(server, table)(p) == Filter(TablesIn(server, "")(p), RowLike(TableName, table))
  {
  }

  lemma ColumnsLike(server: Server, p: Path, column: string)
    requires HonoursLike(server)
    ensures ColumnsIn(server, column)(p) == Filter(ColumnsIn(server, "")(p), RowLike(ColumnName, column))
  {
  }

  /** The table paths in scope are the paths that the three loops visit. */
  lemma TablesInScope(server: Server, catalog: string, schema: string, table: string, single: bool)
    requires HonoursLike(server) && Regular(AllSchemas(server), 1)
    ensures Filter(AllTables(server), TableInScope(catalog, schema, table, single, server.current))
            == Extend(Filter(AllSchemas(server), SchemaInScope(catalog, schema, single, server.current)),
                      TablesIn(server, table))
  {
    forall p | p in AllSchemas(server)
      ensures TablesIn(server, table)(p) == Filter(TablesIn(server, "")(p), RowLike(TableName, table))
    {
      TablesLike(server, p, table);
    }
    TableScopeSplits(AllSchemas(server), catalog, schema, table, single, server.current);
    FilterExtend(AllSchemas(server), TablesIn(server, ""), TableInScope(catalog, schema, table, single, server.current),
                 SchemaInScope(catalog, schema, single, server.current), RowLike(TableName, table),
                 TablesIn(server, table));
  }

  lemma TableScopeSplits(schemas: seq<Path>, catalog: string, schema: string, table: string, single: bool,
                         current: string)
    requires Regular(schemas, 1)
    ensures forall p, r :: p in schemas ==>
              TableInScope(catalog, schema, table, single, current)(Below(p, r))
              == (SchemaInScope(catalog, schema, single, current)(p) && RowLike(TableName, table)(r))
  {
    forall p, r | p in schemas
      ensures TableInScope(catalog, schema, table, single, current)(Below(p, r))
              == (SchemaInScope(catalog, schema, single, current)(p) && RowLike(TableName, table)(r))
    {
      var q := Below(p, r);
      assert SchemaOf(q) == SchemaOf(p) && TableOf(q) == NameOf(r, TableName);
    }
  }

  lemma ColumnScopeSplits(tables: seq<Path>, catalog: string, schema: string, table: string, column: string,
                          single: bool, current: string)
    requires Regular(tables, 2)
    ensures forall p, r :: p in tables ==>
              ColumnInScope(catalog, schema, table, column, single, current)(Below(p, r))
              == (TableInScope(catalog, schema, table, single, current)(p) && RowLike(ColumnName, column)(r))
  {
    forall p, r | p in tables
      ensures ColumnInScope(catalog, schema, table, column, single, current)(Below(p, r))
              == (TableInScope(catalog, schema, table, single, current)(p) && RowLike(ColumnName, column)(r))
    {
      var q := Below(p, r);
      assert SchemaOf(q) == SchemaOf(p) && TableOf(q) == TableOf(p) && ColumnOf(q) == NameOf(r, ColumnName);
      assert SchemaInScope(catalog, schema, single, current)(q) == SchemaInScope(catalog, schema, single, current)(p);
    }
  }

  lemma ColumnsInScope(server: Server, catalog: string, schema: string, table: string, column: string, single: bool)
    requires HonoursLike(server) && Regular(AllTables(server), 2)
    ensures Filter(AllColumns(server), ColumnInScope(catalog, schema, table, column, single, server.current))
            == Extend(Filter(AllTables(server), TableInScope(catalog, schema, table, single, server.current)),
                      ColumnsIn(server, column))
  {
    forall p | p in AllTables(server)
      ensures ColumnsIn(server, column)(p) == Filter(ColumnsIn(server, "")(p), RowLike(ColumnName, column))
    {
      ColumnsLike(server, p, column);
    }
    ColumnScopeSplits(AllTables(server), catalog, schema, table, column, single, server.current);
    FilterExtend(AllTables(server), ColumnsIn(server, ""),
                 ColumnInScope(catalog, schema, table, column, single, server.current),
                 TableInScope(catalog, schema, table, single, server.current), RowLike(ColumnName, column),
                 ColumnsIn(server, column));
  }

  lemma {:induction false} ExtendParent(paths: seq<Path>, g: Path -> seq<Row>, p: Path) returns (q: Path)
    requires p in Extend(paths, g)
    ensures q in paths && p.rows != [] && p == Below(q, p.rows[|p.rows| - 1])
  {
    var n := |paths| - 1;
    if p in Extend(paths[..n], g) {
      q := ExtendParent(paths[..n], g, p);
    } else {
      q := paths[n];
      assert p in Children(q, g(q));
    }
  }

  /** The path belongs to the given catalog. */
  function InCatalog(catalog: string): Path -> bool {
    (p: Path) => p.catalog == catalog
  }

  lemma TablesRestrict(server: Server, catalog: string, schema: string, table: string)
    ensures Filter(Filter(AllTables(server), TableInScope(catalog, schema, table, false, server.current)),
                   InCatalog(server.current))
            == Filter(AllTables(server), TableInScope(catalog, schema, table, true, server.current))
  {
    ScopeRestricts(catalog, schema, table, "", server.current);
    FilterTwice(AllTables(server), TableInScope(catalog, schema, table, false, server.current),
                InCatalog(server.current),
                TableInScope(catalog, schema, table, true, server.current));
  }

  lemma ColumnsRestrict(server: Server, catalog: string, schema: string, table: string, column: string)
    ensures Filter(Filter(AllColumns(server), ColumnInScope(catalog, schema, table, column, false, server.current)),
                   InCatalog(server.current))
            == Filter(AllColumns(server), ColumnInScope(catalog, schema, table, column, true, server.current))
  {
    ScopeRestricts(catalog, schema, table, column, server.current);
    FilterTwice(AllColumns(server), ColumnInScope(catalog, schema, table, column, false, server.current),
                InCatalog(server.current), ColumnInScope(catalog, schema, table, column, true, server.current));
  }

  lemma ScopeRestricts(catalog: string, schema: string, table: string, column: string, current: string)
    ensures forall p :: TableInScope(catalog, schema, table, true, current)(p)
                        == (TableInScope(catalog, schema, table, false, current)(p) && InCatalog(current)(p))
    ensures forall p :: ColumnInScope(catalog, schema, table, column, true, current)(p)
                        == (ColumnInScope(catalog, schema, table, column, false, current)(p) && InCatalog(current)(p))
  {
    forall p: Path
      ensures SchemaInScope(catalog, schema, true, current)(p)
              == (SchemaInScope(catalog, schema, false, current)(p) && InCatalog(current)(p))
      ensures TableInScope(catalog, schema, table, true, current)(p)
              == (TableInScope(catalog, schema, table, false, current)(p) && InCatalog(current)(p))
      ensures ColumnInScope(catalog, schema, table, column, true, current)(p)
              == (ColumnInScope(catalog, schema, table, column, false, current)(p) && InCatalog(current)(p))
    {
    }
  }

  lemma {:induction false} FilterTwice<T>(xs: seq<T>, p: T -> bool, q: T -> bool, both: T -> bool)
    requires forall x :: both(x) == (p(x) && q(x))
    ensures Filter(Filter(xs, p), q) == Filter(xs, both)
  {
    if xs != [] {
      var n := |xs| - 1;
      FilterTwice(xs[..n], p, q, both);
      FilterConcat(Filter(xs[..n], p), if p(xs[n]) then [xs[n]] else [], q);
    }
  }
}
