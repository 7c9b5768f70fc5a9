/** Which paths an enumeration visits, for any mixture of given names and patterns, and what it yields there. */
module Visits {
  import opened ServerModel
  import opened StatementHandle
  import opened Outcomes
  import opened Sequences
  import opened ShowRequests
  import opened ShowOutcomes
  import opened SearchOutcomes
  import opened Comprehension

  function RowsOf<S, T>(f: S -> Outcome<T>): S -> seq<T> {
    (x: S) => f(x).rows
  }

  /** A loop succeeds exactly when every round does, and then it flattens. */
  lemma {:induction false} ForEachOkIff<S, T>(xs: seq<S>, f: S -> Outcome<T>)
    ensures ForEach(xs, f).ok <==> forall x :: x in xs ==> f(x).ok
    ensures ForEach(xs, f).ok ==> ForEach(xs, f).rows == FlatMap(xs, RowsOf(f))
  {
    if xs != [] {
      var n := |xs| - 1;
      ForEachOkIff(xs[..n], f);
      assert xs == xs[..n] + [xs[n]];
    }
  }

  // ---- Nested loops ----

  /** What `leaf` yields just below `p`. */
  function LeafBelow(leaf: Path -> Outcome<Row>, p: Path): Row -> Outcome<Row> {
    (r: Row) => leaf(Below(p, r))
  }

  /** The loop over the rows that are listed below a path, with `leaf` inside. */
  function Nested(list: Path -> Outcome<Row>, leaf: Path -> Outcome<Row>): Path -> Outcome<Row> {
    (p: Path) => Over(list(p), LeafBelow(leaf, p))
  }

  ghost predicate IsBelow(paths: seq<Path>, g: Path -> seq<Row>, p: Path) {
    exists q, r :: q in paths && r in g(q) && p == Below(q, r)
  }

  lemma ChildrenMembers(q: Path, rows: seq<Row>, p: Path)
    ensures p in Children(q, rows) <==> exists r :: r in rows && p == Below(q, r)
  {
    if r :| r in rows && p == Below(q, r) {
      var i :| 0 <= i < |rows| && rows[i] == r;
      assert Children(q, rows)[i] == p;
    }
  }

  lemma {:induction false} ExtendMembers(paths: seq<Path>, g: Path -> seq<Row>, p: Path)
    ensures p in Extend(paths, g) <==> IsBelow(paths, g, p)
  {
    if paths != [] {
      var n := |paths| - 1;
      ExtendMembers(paths[..n], g, p);
      ChildrenMembers(paths[n], g(paths[n]), p);
      assert paths == paths[..n] + [paths[n]];
    }
  }

  lemma NestedOkIff(list: Path -> Outcome<Row>, leaf: Path -> Outcome<Row>, p: Path)
    ensures Nested(list, leaf)(p).ok <==> list(p).ok && forall r :: r in list(p).rows ==> leaf(Below(p, r)).ok
    ensures Nested(list, leaf)(p).ok ==> Nested(list, leaf)(p).rows == FlatMap(list(p).rows, Under(p, RowsOf(leaf)))
  {
    var f := LeafBelow(leaf, p);
    ForEachOkIff(list(p).rows, f);
    FlatMapEqual(list(p).rows, RowsOf(f), Under(p, RowsOf(leaf)));
  }

  /** Nested loops over paths succeed exactly when every list can be obtained and the leaf succeeds at every
      extended path; then they flatten over the extended paths. */
  lemma LoopsOkIff(paths: seq<Path>, list: Path -> Outcome<Row>, leaf: Path -> Outcome<Row>)
    ensures var below := Extend(paths, RowsOf(list));
            && ((forall p :: p in paths ==> Nested(list, leaf)(p).ok) <==>
                (forall p :: p in paths ==> list(p).ok) && (forall q :: q in below ==> leaf(q).ok))
            && ((forall p :: p in paths ==> Nested(list, leaf)(p).ok) ==>
                FlatMap(paths, RowsOf(Nested(list, leaf))) == FlatMap(below, RowsOf(leaf)))
  {
    var nested := Nested(list, leaf);
    var below := Extend(paths, RowsOf(list));
    forall p | p in paths
      ensures nested(p).ok <==> list(p).ok && forall r :: r in RowsOf(list)(p) ==> leaf(Below(p, r)).ok
      ensures nested(p).ok ==> nested(p).rows == FlatMap(list(p).rows, Under(p, RowsOf(leaf)))
    {
      NestedOkIff(list, leaf, p);
    }
    if forall p :: p in paths ==> nested(p).ok {
      forall q | q in below ensures leaf(q).ok {
        ExtendMembers(paths, RowsOf(list), q);
      }
      FlatMapExtend(paths, RowsOf(list), RowsOf(leaf), RowsOf(nested));
    }
    if (forall p :: p in paths ==> list(p).ok) && (forall q :: q in below ==> leaf(q).ok) {
      forall p, r | p in paths && r in RowsOf(list)(p) ensures leaf(Below(p, r)).ok {
        ExtendMember(paths, RowsOf(list), p, r);
      }
    }
  }

  // ---- The visited paths ----

  function CatalogsVisited(server: Server, search: Search): Outcome<Catalog> {
    CatalogsToVisit(server, search.exactCatalog, search.catalog, search.single)
  }

  /** A given catalog is visited as it is. Any other search needs a current database; in single-database mode it visits
      at most that one, without a pattern even if it is not listed, and otherwise all that are listed for the
      pattern. */
  lemma CatalogsVisitedMean(server: Server, search: Search)
    ensures var given := search.exactCatalog && search.catalog != "";
            var visited := CatalogsVisited(server, search);
            && (visited.ok <==> given || server.current != "")
            && (given ==> visited.rows == [Catalog(search.catalog)])
            && (visited.ok && !given && search.single ==>
                 && |visited.rows| <= 1
                 && (forall c :: c in visited.rows ==> c.name == server.current)
                 && (visited.rows != [] <==>
                     || search.catalog == ""
                     || Catalog(server.current) in DatabaseNames(Answer(server, Request.Databases(search.catalog)))))
            && (visited.ok && !given && !search.single ==>
                 visited.rows == DatabaseNames(Answer(server, Request.Databases(search.catalog))))
  {
    hide DatabaseNames, Answer;
  }

  function SchemaLists(server: Server, search: Search): Path -> Outcome<Row> {
    (p: Path) => SchemasToVisit(server, p.catalog, search.exactSchema, search.schema)
  }

  function TableLists(server: Server, exact: bool, name: string): Path -> Outcome<Row> {
    (p: Path) => TablesToVisit(server, p.catalog, SchemaOf(p), exact, name)
  }

  /** The given catalog or those listed, each with the given schema or those listed. */
  function VisitedSchemas(server: Server, search: Search): seq<Path> {
    Extend(CatalogPaths(CatalogsVisited(server, search).rows), RowsOf(SchemaLists(server, search)))
  }

  /** Each visited schema with the given table or those listed. */
  function VisitedTables(server: Server, search: Search): seq<Path>
    requires search.leaf.EachTable?
  {
    Extend(VisitedSchemas(server, search), RowsOf(TableLists(server, search.leaf.exact, search.leaf.name)))
  }

  function SchemaLeafAt(server: Server, leaf: SchemaLeaf): Path -> Outcome<Row> {
    (p: Path) => SchemaLeafOutcome(server, leaf, p.catalog, SchemaOf(p))
  }

  function TableLeafAt(server: Server, leaf: TableLeaf): Path -> Outcome<Row> {
    (p: Path) => TableLeafOutcome(server, leaf, p.catalog, SchemaOf(p), TableOf(p))
  }

  // ---- Success and rows, schema by schema ----

  lemma {:induction false} ForEachEqual<S, T>(xs: seq<S>, f: S -> Outcome<T>, g: S -> Outcome<T>)
    requires forall x :: x in xs ==> f(x) == g(x)
    ensures ForEach(xs, f) == ForEach(xs, g)
  {
    if xs != [] {
      ForEachEqual(xs[..|xs| - 1], f, g);
    }
  }

  lemma AtCatalogIsNested(server: Server, search: Search, c: Catalog)
    ensures AtCatalog(server, search.exactSchema, search.schema, search.leaf)(c)
            == Nested(SchemaLists(server, search), SchemaLeafAt(server, search.leaf))(Path(c.name, []))
  {
    hide SchemaLeafOutcome;
    var here := Path(c.name, []);
    var leaf := SchemaLeafAt(server, search.leaf);
    forall r: Row ensures AtSchema(server, search.leaf, c.name)(r) == leaf(Below(here, r)) {
      assert SchemaOf(Below(here, r)) == NameOf(r, SchemaName);
    }
    var lists := SchemasToVisit(server, c.name, search.exactSchema, search.schema);
    ForEachEqual(lists.rows, AtSchema(server, search.leaf, c.name), LeafBelow(leaf, here));
    assert SchemaLists(server, search)(here) == lists;
    assert Over(lists, AtSchema(server, search.leaf, c.name)) == Over(lists, LeafBelow(leaf, here));
  }

  lemma CatalogLoop(server: Server, search: Search)
    ensures var catalogs := CatalogsVisited(server, search);
            var nested := Nested(SchemaLists(server, search), SchemaLeafAt(server, search.leaf));
            var paths := CatalogPaths(catalogs.rows);
            var result := SearchOutcome(server, search);
            && (result.ok <==> catalogs.ok && forall p :: p in paths ==> nested(p).ok)
            && (result.ok ==> result.rows == FlatMap(paths, RowsOf(nested)))
  {
    hide SchemaLeafOutcome, CatalogsToVisit, SchemasToVisit;
    var catalogs := CatalogsVisited(server, search);
    var nested := Nested(SchemaLists(server, search), SchemaLeafAt(server, search.leaf));
    var f := AtCatalog(server, search.exactSchema, search.schema, search.leaf);
    forall c: Catalog ensures f(c) == nested(Path(c.name, [])) {
      AtCatalogIsNested(server, search, c);
    }
    CatalogPathLoop(catalogs.rows, f, nested);
  }

  lemma {:induction false} CatalogPathLoop(catalogs: seq<Catalog>, f: Catalog -> Outcome<Row>,
                                           nested: Path -> Outcome<Row>)
    requires forall c: Catalog :: f(c) == nested(Path(c.name, []))
    ensures var paths := CatalogPaths(catalogs);
            && (ForEach(catalogs, f).ok <==> forall p :: p in paths ==> nested(p).ok)
            && (ForEach(catalogs, f).ok ==> ForEach(catalogs, f).rows == FlatMap(paths, RowsOf(nested)))
  {
    if catalogs != [] {
      var n := |catalogs| - 1;
      CatalogPathLoop(catalogs[..n], f, nested);
      assert CatalogPaths(catalogs) == CatalogPaths(catalogs[..n]) + [Path(catalogs[n].name, [])];
    }
  }

  /** A search succeeds exactly when its lists can be obtained and its innermost part succeeds at every visited
      schema; it then yields what the innermost part yields there, in the order of the visits. */
  lemma SearchOkIff(server: Server, search: Search)
    ensures var catalogs := CatalogsVisited(server, search);
            var leaf := SchemaLeafAt(server, search.leaf);
            var result := SearchOutcome(server, search);
            && (result.ok <==>
                && catalogs.ok
                && (forall p :: p in CatalogPaths(catalogs.rows) ==> SchemaLists(server, search)(p).ok)
                && (forall p :: p in VisitedSchemas(server, search) ==> leaf(p).ok))
            && (result.ok ==> result.rows == FlatMap(VisitedSchemas(server, search), RowsOf(leaf)))
  {
    hide SchemaLeafOutcome, CatalogsToVisit, SchemasToVisit, SearchOutcome;
    CatalogLoop(server, search);
    LoopsOkIff(CatalogPaths(CatalogsVisited(server, search).rows), SchemaLists(server, search),
               SchemaLeafAt(server, search.leaf));
  }

  // ---- Success and rows, table by table ----

  lemma EachTableIsNested(server: Server, leaf: SchemaLeaf, p: Path)
    requires leaf.EachTable? && |p.rows| == 1
    ensures SchemaLeafAt(server, leaf)(p)
            == Nested(TableLists(server, leaf.exact, leaf.name), TableLeafAt(server, leaf.leaf))(p)
  {
    var f := AtTable(server, leaf.leaf, p.catalog, SchemaOf(p));
    var g := LeafBelow(TableLeafAt(server, leaf.leaf), p);
    forall r: Row ensures f(r) == g(r) {
      assert SchemaOf(Below(p, r)) == SchemaOf(p) && TableOf(Below(p, r)) == NameOf(r, TableName);
    }
    ForEachEqual(TablesToVisit(server, p.catalog, SchemaOf(p), leaf.exact, leaf.name).rows, f, g);
  }

  lemma {:induction false} ExtendDeeper(paths: seq<Path>, g: Path -> seq<Row>, n: nat)
    requires forall p :: p in paths ==> |p.rows| == n
    ensures forall p :: p in Extend(paths, g) ==> |p.rows| == n + 1
  {
    forall p | p in Extend(paths, g) ensures |p.rows| == n + 1 {
      ExtendMembers(paths, g, p);
    }
  }

  /** Every visited path has a name at each level. */
  ghost predicate AllNamed(server: Server, search: Search)
    requires search.leaf.EachTable?
  {
    && (forall c :: c in CatalogsVisited(server, search).rows ==> c.name != "")
    && (forall p :: p in VisitedSchemas(server, search) ==> SchemaOf(p) != "")
    && (forall p :: p in VisitedTables(server, search) ==> TableOf(p) != "")
  }

  lemma SchemaPathsShort(server: Server, search: Search)
    ensures forall p :: p in VisitedSchemas(server, search) ==> |p.rows| == 1
  {
    ExtendDeeper(CatalogPaths(CatalogsVisited(server, search).rows), RowsOf(SchemaLists(server, search)), 0);
  }

  lemma EachTableLoops(server: Server, search: Search)
    requires search.leaf.EachTable?
    ensures var paths := VisitedSchemas(server, search);
            var leaf := SchemaLeafAt(server, search.leaf);
            var lists := TableLists(server, search.leaf.exact, search.leaf.name);
            var inner := TableLeafAt(server, search.leaf.leaf);
            && ((forall p :: p in paths ==> leaf(p).ok) <==>
                (forall p :: p in paths ==> lists(p).ok)
                && forall q :: q in VisitedTables(server, search) ==> inner(q).ok)
            && ((forall p :: p in paths ==> leaf(p).ok) ==>
                FlatMap(paths, RowsOf(leaf)) == FlatMap(VisitedTables(server, search), RowsOf(inner)))
  {
    hide SchemaLeafAt, TableLists, TableLeafAt;
    var paths := VisitedSchemas(server, search);
    var leaf := SchemaLeafAt(server, search.leaf);
    var nested := Nested(TableLists(server, search.leaf.exact, search.leaf.name),
                         TableLeafAt(server, search.leaf.leaf));
    SchemaPathsShort(server, search);
    forall p | p in paths ensures leaf(p) == nested(p) {
      EachTableIsNested(server, search.leaf, p);
    }
    FlatMapEqual(paths, RowsOf(leaf), RowsOf(nested));
    LoopsOkIff(paths, TableLists(server, search.leaf.exact, search.leaf.name),
               TableLeafAt(server, search.leaf.leaf));
  }

  lemma LeafOkIff(server: Server, leaf: TableLeaf, q: Path)
    ensures TableLeafAt(server, leaf)(q).ok <==> q.catalog != "" && SchemaOf(q) != "" && TableOf(q) != ""
  {
  }

  /** The schema above a visited table, and the catalog above a visited schema. */
  lemma TableParent(server: Server, search: Search, q: Path) returns (p: Path)
    requires search.leaf.EachTable? && q in VisitedTables(server, search)
    ensures p in VisitedSchemas(server, search) && p.catalog == q.catalog && SchemaOf(p) == SchemaOf(q)
  {
    var g := RowsOf(TableLists(server, search.leaf.exact, search.leaf.name));
    ExtendMembers(VisitedSchemas(server, search), g, q);
    var r: Row;
    p, r :| p in VisitedSchemas(server, search) && r in g(p) && q == Below(p, r);
    SchemaPathsShort(server, search);
  }

  lemma SchemaParent(server: Server, search: Search, p: Path) returns (c: Catalog)
    requires p in VisitedSchemas(server, search)
    ensures c in CatalogsVisited(server, search).rows && c.name == p.catalog
  {
    var catalogs := CatalogsVisited(server, search).rows;
    var g := RowsOf(SchemaLists(server, search));
    ExtendMembers(CatalogPaths(catalogs), g, p);
    var q, r :| q in CatalogPaths(catalogs) && r in g(q) && p == Below(q, r);
    var i :| 0 <= i < |catalogs| && CatalogPaths(catalogs)[i] == q;
    c := catalogs[i];
  }

  /** A given table is visited below every visited schema. */
  lemma GivenTableVisited(server: Server, search: Search, p: Path) returns (q: Path)
    requires search.leaf.EachTable? && search.leaf.exact && search.leaf.name != ""
    requires p in VisitedSchemas(server, search)
    ensures q in VisitedTables(server, search) && q.catalog == p.catalog && SchemaOf(q) == SchemaOf(p)
  {
    var r: Row := map[TableName := Text(search.leaf.name)];
    var g := RowsOf(TableLists(server, search.leaf.exact, search.leaf.name));
    assert g(p) == [r];
    q := Below(p, r);
    ExtendMember(VisitedSchemas(server, search), g, p, r);
    SchemaPathsShort(server, search);
  }

  lemma GivenSchemaVisited(server: Server, search: Search, c: Catalog) returns (p: Path)
    requires search.exactSchema && search.schema != "" && c in CatalogsVisited(server, search).rows
    ensures p in VisitedSchemas(server, search) && p.catalog == c.name
  {
    var catalogs := CatalogsVisited(server, search).rows;
    var r: Row := map[SchemaName := Text(search.schema)];
    var g := RowsOf(SchemaLists(server, search));
    var here := Path(c.name, []);
    assert g(here) == [r];
    p := Below(here, r);
    CatalogPathsMember(catalogs, c);
    ExtendMember(CatalogPaths(catalogs), g, here, r);
  }

  /** Where lists and leaves succeed, nothing visited is without a name. */
  lemma SucceedingIsNamed(server: Server, search: Search)
    requires search.leaf.EachTable?
    requires forall p :: p in CatalogPaths(CatalogsVisited(server, search).rows) ==> SchemaLists(server, search)(p).ok
    requires forall p :: p in VisitedSchemas(server, search) ==>
               TableLists(server, search.leaf.exact, search.leaf.name)(p).ok
    requires forall q :: q in VisitedTables(server, search) ==> TableLeafAt(server, search.leaf.leaf)(q).ok
    ensures AllNamed(server, search)
  {
    forall p | p in VisitedSchemas(server, search) ensures p.catalog != "" && SchemaOf(p) != "" {
      NamedByTables(server, search, p);
    }
    forall c | c in CatalogsVisited(server, search).rows ensures c.name != "" {
      CatalogPathsMember(CatalogsVisited(server, search).rows, c);
      assert SchemaLists(server, search)(Path(c.name, [])).ok;
      if search.exactSchema && search.schema != "" {
        var p := GivenSchemaVisited(server, search, c);
      }
    }
    forall q | q in VisitedTables(server, search) ensures TableOf(q) != "" {
      LeafOkIff(server, search.leaf.leaf, q);
    }
  }

  lemma NamedByTables(server: Server, search: Search, p: Path)
    requires search.leaf.EachTable? && p in VisitedSchemas(server, search)
    requires TableLists(server, search.leaf.exact, search.leaf.name)(p).ok
    requires forall q :: q in VisitedTables(server, search) ==> TableLeafAt(server, search.leaf.leaf)(q).ok
    ensures p.catalog != "" && SchemaOf(p) != ""
  {
    if search.leaf.exact && search.leaf.name != "" {
      var q := GivenTableVisited(server, search, p);
      LeafOkIff(server, search.leaf.leaf, q);
    }
  }

  lemma NamedSucceeds(server: Server, search: Search)
    requires search.leaf.EachTable? && AllNamed(server, search)
    ensures forall p :: p in CatalogPaths(CatalogsVisited(server, search).rows) ==> SchemaLists(server, search)(p).ok
    ensures forall p :: p in VisitedSchemas(server, search) ==>
              TableLists(server, search.leaf.exact, search.leaf.name)(p).ok
    ensures forall q :: q in VisitedTables(server, search) ==> TableLeafAt(server, search.leaf.leaf)(q).ok
  {
    forall p | p in VisitedSchemas(server, search) ensures p.catalog != "" {
      var c := SchemaParent(server, search, p);
    }
    forall q | q in VisitedTables(server, search) ensures TableLeafAt(server, search.leaf.leaf)(q).ok {
      var p := TableParent(server, search, q);
      LeafOkIff(server, search.leaf.leaf, q);
    }
  }

  /** For any mixture of given names and patterns, a search over tables succeeds exactly when the catalogs can be
      listed and everything visited has a name; it then yields what is asked at every visited table, in order. */
  lemma TableSearchOkIff(server: Server, search: Search)
    requires search.leaf.EachTable?
    ensures var result := SearchOutcome(server, search);
            && (result.ok <==> CatalogsVisited(server, search).ok && AllNamed(server, search))
            && (result.ok ==>
                result.rows == FlatMap(VisitedTables(server, search), RowsOf(TableLeafAt(server, search.leaf.leaf))))
  {
    hide SearchOutcome, CatalogsVisited, SchemaLeafAt, TableLeafAt, SchemaLists, TableLists, AllNamed;
    SearchOkIff(server, search);
    EachTableLoops(server, search);
    if AllNamed(server, search) {
      NamedSucceeds(server, search);
    }
    if SearchOutcome(server, search).ok {
      SucceedingIsNamed(server, search);
    }
  }
}
