/** Sorted blocks: procedures with functions, and grants. */
module RoutineTheorems {
  import opened Wrappers
  import opened ServerModel
  import opened StatementHandle
  import opened Outcomes
  import opened Sequences
  import opened Ordering
  import opened ShowRequests
  import opened ShowOutcomes
  import opened SearchOutcomes
  import opened Comprehension
  import opened Visits
  import opened Selections
  import opened LikePattern
  import LikeToRegex
  import Regex

  /** The procedures and then the functions of a schema, as they are listed. */
  function RoutinesIn(server: Server, c: string, s: string, pattern: string): seq<Row> {
    Tagged(Listing(server, Routines(c, s, pattern, true)), true)
    + Tagged(Listing(server, Routines(c, s, pattern, false)), false)
  }

  /** The names of a block, in lower case and in order, as they follow from what the server lists. */
  function BlockNames(server: Server, c: string, s: string, pattern: string): seq<Option<string>> {
    Map(InsertionSort(RoutineLess, RoutinesIn(server, c, s, pattern)), RoutineKey)
  }

  /** The block of a schema holds its procedures and its functions, no more and no less, ordered by
      case-insensitive name; the sequence of these names does not depend on how equal names are placed. */
  lemma BlockIsSorted(server: Server, c: string, s: string, pattern: string)
    requires Conforms(server) && c != "" && s != ""
    ensures var block := RoutineBlock(server, c, s, pattern);
            && block.ok
            && RoutineNamesAscend(block.rows)
            && multiset(block.rows) == multiset(RoutinesIn(server, c, s, pattern))
            && Map(block.rows, RoutineKey) == BlockNames(server, c, s, pattern)
  {
    ComparisonsAreWeakOrders();
    SortedMeans(RoutineBlock(server, c, s, pattern).rows);
    KeysDetermined(server.byRoutineName, RoutineLess, RoutineKey, RoutinesIn(server, c, s, pattern));
  }

  /** A row of SHOW PROCEDURES, or one of SHOW FUNCTIONS. */
  datatype Routine = Procedure(row: Row) | Function(row: Row)

  function ListedRoutines(server: Server, c: string, s: string, pattern: string): seq<Routine> {
    Map(Listing(server, Routines(c, s, pattern, true)), (row: Row) => Procedure(row))
    + Map(Listing(server, Routines(c, s, pattern, false)), (row: Row) => Function(row))
  }

  /** The row as it is collected: with 1 in its type column for a procedure, and 2 for a function. */
  ghost predicate IsTagged(routine: Routine, tagged: Row) {
    && Get(tagged, ObjectType) == Num(if routine.Procedure? then 1 else 2)
    && forall c :: c != ObjectType ==> Get(tagged, c) == Get(routine.row, c)
  }

  /** The rows of a block are the routines that are listed, in some order, each marked with its kind. */
  ghost predicate ShowsRoutines(server: Server, c: string, s: string, pattern: string, order: seq<Routine>,
                                block: seq<Row>)
  {
    && multiset(order) == multiset(ListedRoutines(server, c, s, pattern))
    && |order| == |block|
    && forall i :: 0 <= i < |order| ==> IsTagged(order[i], block[i])
  }

  lemma TaggedEach(server: Server, c: string, s: string, pattern: string, order: seq<Routine>, block: seq<Row>)
    requires ShowsRoutines(server, c, s, pattern, order, block)
    ensures |order| == |block| && forall i :: 0 <= i < |order| ==> IsTagged(order[i], block[i])
  {
  }

  function Untagged(row: Row): Routine {
    if IsProcedure(row) then Procedure(row - {ObjectType}) else Function(row - {ObjectType})
  }

  lemma {:induction false} RecordHasFields(bindings: seq<ColumnBinding>, row: Row, c: Column)
    ensures c in Record(bindings, row) <==> exists i :: 0 <= i < |bindings| && bindings[i].field == c
  {
    if bindings != [] {
      var n := |bindings| - 1;
      RecordHasFields(bindings[..n], row, c);
      assert forall i :: 0 <= i < n ==> bindings[..n][i] == bindings[i];
    }
  }

  lemma UntaggedListing(server: Server, c: string, s: string, pattern: string, procedures: bool)
    ensures var rows := Listing(server, Routines(c, s, pattern, procedures));
            && |Tagged(rows, procedures)| == |rows|
            && forall i :: 0 <= i < |rows| ==>
                 && Untagged(Tagged(rows, procedures)[i])
                    == (if procedures then Procedure(rows[i]) else Function(rows[i]))
                 && IsTagged(Untagged(Tagged(rows, procedures)[i]), Tagged(rows, procedures)[i])
  {
    var r := Routines(c, s, pattern, procedures);
    var rows := Listing(server, r);
    forall i | 0 <= i < |rows| ensures ObjectType !in rows[i] {
      NoTypeColumn(r, Answer(server, r)[i]);
    }
    hide Listing, Untagged, IsTagged, RoutineKind;
    forall i | 0 <= i < |rows|
      ensures Untagged(Tagged(rows, procedures)[i]) == (if procedures then Procedure(rows[i]) else Function(rows[i]))
      ensures IsTagged(Untagged(Tagged(rows, procedures)[i]), Tagged(rows, procedures)[i])
    {
      UntaggedRow(rows[i], procedures);
    }
  }

  lemma NoTypeColumn(r: Request, row: Row)
    requires r.Routines?
    ensures ObjectType !in Record(Bindings(r), row)
  {
    RecordHasFields(Bindings(r), row, ObjectType);
  }

  lemma UntaggedRow(row: Row, procedures: bool)
    requires ObjectType !in row
    ensures var tagged := row[ObjectType := Num(RoutineKind(procedures))];
            && Untagged(tagged) == (if procedures then Procedure(row) else Function(row))
            && IsTagged(Untagged(tagged), tagged)
  {
    assert row[ObjectType := Num(RoutineKind(procedures))] - {ObjectType} == row;
  }

  lemma UntaggedRoutines(server: Server, c: string, s: string, pattern: string)
    ensures Map(RoutinesIn(server, c, s, pattern), Untagged) == ListedRoutines(server, c, s, pattern)
    ensures forall row :: row in RoutinesIn(server, c, s, pattern) ==> IsTagged(Untagged(row), row)
  {
    UntaggedListing(server, c, s, pattern, true);
    UntaggedListing(server, c, s, pattern, false);
    hide Listing, Tagged, Untagged, IsTagged;
  }

  /** Whatever the sort does, the block of a schema shows exactly the rows of SHOW PROCEDURES, marked 1, and those of
      SHOW FUNCTIONS, marked 2. */
  lemma BlockShowsRoutines(server: Server, c: string, s: string, pattern: string) returns (order: seq<Routine>)
    requires c != "" && s != ""
    ensures ShowsRoutines(server, c, s, pattern, order, RoutineBlock(server, c, s, pattern).rows)
  {
    var all, block := RoutinesIn(server, c, s, pattern), RoutineBlock(server, c, s, pattern).rows;
    assert multiset(block) == multiset(all);
    hide Listing, Tagged, Untagged, IsTagged, RoutineBlock, RoutinesIn;
    order := Map(block, Untagged);
    UntaggedRoutines(server, c, s, pattern);
    MapPermutes(block, all, Untagged);
    forall i | 0 <= i < |order| ensures IsTagged(order[i], block[i]) {
      assert block[i] in multiset(block);
    }
  }

  function BlockAt(server: Server, pattern: string): Path -> seq<Row> {
    (p: Path) => RoutineBlock(server, p.catalog, SchemaOf(p), pattern).rows
  }

  /** For any catalog, given or not, `sqlProcedures` succeeds exactly when the catalogs can be listed and every
      catalog and schema visited has a name; it then appends one block for each visited schema, in the order of the
      visits. */
  lemma ProceduresAreBlocks(server: Server, catalog: string, schema: string, pattern: string, single: bool)
    ensures var search := RoutinesSearch(catalog, schema, RoutinesOf(pattern), single);
            var result := SearchOutcome(server, search);
            && (result.ok <==>
                && CatalogsVisited(server, search).ok
                && (forall c :: c in CatalogsVisited(server, search).rows ==> c.name != "")
                && (forall p :: p in VisitedSchemas(server, search) ==> SchemaOf(p) != ""))
            && (result.ok ==> result.rows == FlatMap(VisitedSchemas(server, search), BlockAt(server, pattern)))
  {
    hide SearchOutcome, VisitedSchemas, CatalogsVisited;
    var search := RoutinesSearch(catalog, schema, RoutinesOf(pattern), single);
    var leaf := SchemaLeafAt(server, RoutinesOf(pattern));
    SearchOkIff(server, search);
    SchemaListsOkIff(server, search);
    forall p | p in VisitedSchemas(server, search) ensures leaf(p).ok <==> p.catalog != "" && SchemaOf(p) != "" {
    }
    forall p | p in VisitedSchemas(server, search)
      ensures exists c :: c in CatalogsVisited(server, search).rows && c.name == p.catalog
    {
      var c := SchemaParent(server, search, p);
    }
    FlatMapEqual(VisitedSchemas(server, search), RowsOf(leaf), BlockAt(server, pattern));
  }

  /** Where schemas are listed, a catalog needs a name. */
  lemma SchemaListsOkIff(server: Server, search: Search)
    requires !search.exactSchema
    ensures var catalogs := CatalogsVisited(server, search).rows;
            (forall p :: p in CatalogPaths(catalogs) ==> SchemaLists(server, search)(p).ok)
            <==> (forall c :: c in catalogs ==> c.name != "")
  {
    var catalogs := CatalogsVisited(server, search).rows;
    forall c | c in catalogs ensures Path(c.name, []) in CatalogPaths(catalogs) {
      CatalogPathsMember(catalogs, c);
    }
    forall p | p in CatalogPaths(catalogs) ensures exists c :: c in catalogs && p == Path(c.name, []) {
      var i :| 0 <= i < |catalogs| && CatalogPaths(catalogs)[i] == p;
      assert catalogs[i] in catalogs;
    }
    forall p | p in CatalogPaths(catalogs) ensures SchemaLists(server, search)(p).ok <==> p.catalog != "" {
    }
  }

  /** The schemas that match the pattern, of the given catalog, or else of all, in single-database mode of the current
      one. */
  function MatchingSchema(catalog: string, schema: string, single: bool, current: string): Path -> bool {
    (p: Path) =>
      && (catalog != "" ==> p.catalog == catalog)
      && (catalog == "" && single ==> p.catalog == current)
      && Comprehension.Like(SchemaOf(p), schema)
  }

  lemma RoutineScope(catalog: string, schema: string, leaf: SchemaLeaf, single: bool, current: string, paths: seq<Path>)
    ensures Filter(paths, SchemaScope(RoutinesSearch(catalog, schema, leaf, single), current))
            == Filter(paths, MatchingSchema(catalog, schema, single, current))
  {
    var search := RoutinesSearch(catalog, schema, leaf, single);
    forall p: Path ensures SchemaScope(search, current)(p) == MatchingSchema(catalog, schema, single, current)(p) {
      assert CatalogScope(search, current)(Catalog(p.catalog))
             == (NameInScope(p.catalog, true, catalog) && (single && catalog == "" ==> p.catalog == current));
    }
    FilterEqual(paths, SchemaScope(search, current), MatchingSchema(catalog, schema, single, current));
  }

  /** Over a catalogue whose names are listed once, these are the blocks of the schemas in scope. */
  lemma ProceduresInCatalogue(server: Server, catalog: string, schema: string, pattern: string, single: bool)
    requires HonoursLike(server) && Named(server)
    requires CatalogOnce(server, RoutinesSearch(catalog, schema, RoutinesOf(pattern), single))
    ensures var search := RoutinesSearch(catalog, schema, RoutinesOf(pattern), single);
            SearchOutcome(server, search)
            == Outcome(FlatMap(Filter(AllSchemas(server), MatchingSchema(catalog, schema, single, server.current)),
                               BlockAt(server, pattern)), true)
  {
    hide SearchOutcome, HonoursLike;
    RoutineScope(catalog, schema, RoutinesOf(pattern), single, server.current, AllSchemas(server));
    var search := RoutinesSearch(catalog, schema, RoutinesOf(pattern), single);
    var schemas := Filter(AllSchemas(server), SchemaScope(search, server.current));
    SchemaSearchSelects(server, search);
    CatalogueRegular(server);
    forall p | p in schemas
      ensures SchemaLeafAt(server, search.leaf)(p) == Outcome(BlockAt(server, pattern)(p), true)
    {
      FilterMembers(AllSchemas(server), SchemaScope(search, server.current), p);
    }
    FlatMapEqual(schemas, RowsOf(SchemaLeafAt(server, search.leaf)), BlockAt(server, pattern));
  }

  /** A given catalog is taken as it is: the schemas visited are those that the server lists for it. */
  lemma GivenCatalogSchemas(server: Server, search: Search)
    requires search.exactCatalog && search.catalog != "" && !search.exactSchema
    ensures VisitedSchemas(server, search)
            == Children(Path(search.catalog, []), Listing(server, Schemas(search.catalog, search.schema)))
  {
    var here := Path(search.catalog, []);
    var paths := CatalogPaths(CatalogsVisited(server, search).rows);
    assert paths == [here];
    assert paths[..0] == [];
    assert Extend(paths, RowsOf(SchemaLists(server, search)))
           == [] + Children(here, SchemaLists(server, search)(here).rows);
  }

  // ---- What a server's answers determine ----

  ghost predicate SameAnswers(a: Server, b: Server) {
    a.current == b.current && a.answer == b.answer
  }

  lemma {:induction false} ExtendEqual(paths: seq<Path>, g: Path -> seq<Row>, h: Path -> seq<Row>)
    requires forall p :: p in paths ==> g(p) == h(p)
    ensures Extend(paths, g) == Extend(paths, h)
  {
    if paths != [] {
      ExtendEqual(paths[..|paths| - 1], g, h);
    }
  }

  lemma SameVisits(a: Server, b: Server, search: Search)
    requires SameAnswers(a, b)
    ensures CatalogsVisited(a, search) == CatalogsVisited(b, search)
    ensures VisitedSchemas(a, search) == VisitedSchemas(b, search)
    ensures search.leaf.EachTable? ==> VisitedTables(a, search) == VisitedTables(b, search)
  {
    ExtendEqual(CatalogPaths(CatalogsVisited(a, search).rows), RowsOf(SchemaLists(a, search)),
                RowsOf(SchemaLists(b, search)));
    if search.leaf.EachTable? {
      ExtendEqual(VisitedSchemas(a, search), RowsOf(TableLists(a, search.leaf.exact, search.leaf.name)),
                  RowsOf(TableLists(b, search.leaf.exact, search.leaf.name)));
    }
  }

  /** The keys of what a function yields. */
  function KeysAt(f: Path -> seq<Row>, key: Row -> Option<string>): Path -> seq<Option<string>> {
    (p: Path) => Map(f(p), key)
  }

  lemma {:induction false} MapFlatMap(paths: seq<Path>, f: Path -> seq<Row>, key: Row -> Option<string>)
    ensures Map(FlatMap(paths, f), key) == FlatMap(paths, KeysAt(f, key))
  {
    if paths != [] {
      var n := |paths| - 1;
      MapFlatMap(paths[..n], f, key);
      assert Map(FlatMap(paths[..n], f) + f(paths[n]), key) == Map(FlatMap(paths[..n], f), key) + Map(f(paths[n]), key);
    }
  }

  /** Two runs that ask the same server but sort differently list the same names in the same places, in lower
      case: only equal names can change places. */
  lemma ProcedureNamesDetermined(a: Server, b: Server, catalog: string, schema: string, pattern: string, single: bool)
    requires SameAnswers(a, b) && Conforms(a) && Conforms(b)
    ensures var search := RoutinesSearch(catalog, schema, RoutinesOf(pattern), single);
            && SearchOutcome(a, search).ok == SearchOutcome(b, search).ok
            && (SearchOutcome(a, search).ok ==>
                Map(SearchOutcome(a, search).rows, RoutineKey) == Map(SearchOutcome(b, search).rows, RoutineKey))
  {
    hide SearchOutcome, VisitedSchemas, CatalogsVisited, Conforms;
    var search := RoutinesSearch(catalog, schema, RoutinesOf(pattern), single);
    var paths := VisitedSchemas(a, search);
    SameVisits(a, b, search);
    ProceduresAreBlocks(a, catalog, schema, pattern, single);
    ProceduresAreBlocks(b, catalog, schema, pattern, single);
    MapFlatMap(paths, BlockAt(a, pattern), RoutineKey);
    MapFlatMap(paths, BlockAt(b, pattern), RoutineKey);
    forall p | p in paths ensures Map(BlockAt(a, pattern)(p), RoutineKey) == Map(BlockAt(b, pattern)(p), RoutineKey) {
      SameBlockNames(a, b, pattern, p);
    }
    FlatMapEqual(paths, KeysAt(BlockAt(a, pattern), RoutineKey), KeysAt(BlockAt(b, pattern), RoutineKey));
  }

  lemma SameBlockNames(a: Server, b: Server, pattern: string, p: Path)
    requires SameAnswers(a, b) && Conforms(a) && Conforms(b)
    ensures Map(BlockAt(a, pattern)(p), RoutineKey) == Map(BlockAt(b, pattern)(p), RoutineKey)
  {
    if p.catalog != "" && SchemaOf(p) != "" {
      BlockIsSorted(a, p.catalog, SchemaOf(p), pattern);
      BlockIsSorted(b, p.catalog, SchemaOf(p), pattern);
    }
  }

  // ---- Grants ----

  /** The grants of one table that are to be sorted. */
  function UnsortedGrants(server: Server, leaf: TableLeaf, c: string, s: string, t: string): seq<Row>
    requires leaf.Blocks()
  {
    match leaf
    case TableGrantsOf => Listing(server, TableGrants(c, s, t))
    case ColumnGrantsOf(p) => Filter(Listing(server, ColumnGrants(c, s, t)), ColumnMatcher(p))
  }

  /** The grants of a table are the rows listed for it, sorted by privilege; the sequence of privileges does not
      depend on how equal privileges are placed. */
  lemma GrantsAreSorted(server: Server, leaf: TableLeaf, c: string, s: string, t: string)
    requires Conforms(server) && leaf.Blocks() && c != "" && s != "" && t != ""
    ensures var unsorted := UnsortedGrants(server, leaf, c, s, t);
            var grants := TableLeafOutcome(server, leaf, c, s, t);
            && grants.ok
            && SortedBy(PrivilegeLess, grants.rows)
            && PrivilegesAscend(grants.rows)
            && multiset(grants.rows) == multiset(unsorted)
            && Map(grants.rows, PrivilegeKey) == Map(InsertionSort(PrivilegeLess, unsorted), PrivilegeKey)
  {
    ComparisonsAreWeakOrders();
    SortedMeans(TableLeafOutcome(server, leaf, c, s, t).rows);
    KeysDetermined(server.byPrivilege, PrivilegeLess, PrivilegeKey, UnsortedGrants(server, leaf, c, s, t));
  }

  /** Whatever is asked for, two runs that sort differently give the same sequence of privileges. */
  lemma PrivilegesDetermined(a: Server, b: Server, search: Search)
    requires SameAnswers(a, b) && Conforms(a) && Conforms(b) && search.leaf.EachTable? && search.leaf.leaf.Blocks()
    ensures SearchOutcome(a, search).ok == SearchOutcome(b, search).ok
    ensures SearchOutcome(a, search).ok ==>
              Map(SearchOutcome(a, search).rows, PrivilegeKey) == Map(SearchOutcome(b, search).rows, PrivilegeKey)
  {
    hide SearchOutcome, VisitedSchemas, VisitedTables, CatalogsVisited, Conforms;
    var leaf, paths := search.leaf.leaf, VisitedTables(a, search);
    SameVisits(a, b, search);
    TableSearchOkIff(a, search);
    TableSearchOkIff(b, search);
    MapFlatMap(paths, RowsOf(TableLeafAt(a, leaf)), PrivilegeKey);
    MapFlatMap(paths, RowsOf(TableLeafAt(b, leaf)), PrivilegeKey);
    forall p | p in paths
      ensures Map(RowsOf(TableLeafAt(a, leaf))(p), PrivilegeKey) == Map(RowsOf(TableLeafAt(b, leaf))(p), PrivilegeKey)
    {
      SamePrivileges(a, b, leaf, p);
    }
    FlatMapEqual(paths, KeysAt(RowsOf(TableLeafAt(a, leaf)), PrivilegeKey),
                 KeysAt(RowsOf(TableLeafAt(b, leaf)), PrivilegeKey));
  }

  lemma SamePrivileges(a: Server, b: Server, leaf: TableLeaf, p: Path)
    requires SameAnswers(a, b) && Conforms(a) && Conforms(b) && leaf.Blocks()
    ensures Map(RowsOf(TableLeafAt(a, leaf))(p), PrivilegeKey) == Map(RowsOf(TableLeafAt(b, leaf))(p), PrivilegeKey)
  {
    if p.catalog != "" && SchemaOf(p) != "" && TableOf(p) != "" {
      GrantsAreSorted(a, leaf, p.catalog, SchemaOf(p), TableOf(p));
      GrantsAreSorted(b, leaf, p.catalog, SchemaOf(p), TableOf(p));
    }
  }

  predicate NoPrivilege(row: Row) {
    !Get(row, PrivilegeType).Text?
  }

  /** In a list sorted by privilege the rows without one come first: they take the first places, as many as there
      are such rows. */
  lemma {:induction false} NullsFirst(rows: seq<Row>)
    requires SortedBy(PrivilegeLess, rows)
    ensures |Filter(rows, NoPrivilege)| <= |rows|
    ensures forall i :: 0 <= i < |rows| ==> (NoPrivilege(rows[i]) <==> i < |Filter(rows, NoPrivilege)|)
  {
    if rows != [] {
      var n := |rows| - 1;
      NullsFirst(rows[..n]);
      forall i | 0 <= i < n && NoPrivilege(rows[n]) ensures NoPrivilege(rows[i]) {
        assert !PrivilegeLess(rows[n], rows[i]);
      }
      assert forall i :: 0 <= i < n ==> rows[..n][i] == rows[i];
      if NoPrivilege(rows[n]) {
        FilterAll(rows[..n], NoPrivilege);
      }
    }
  }

  lemma TableGrantsAreSorted(server: Server, c: string, s: string, t: string)
    requires Conforms(server) && c != "" && s != "" && t != ""
    ensures var all := Listing(server, TableGrants(c, s, t));
            var grants := TableGrantsOutcome(server, c, s, t);
            var nulls := |Filter(all, NoPrivilege)|;
            && grants.ok
            && PrivilegesAscend(grants.rows)
            && multiset(grants.rows) == multiset(all)
            && Map(grants.rows, PrivilegeKey) == Map(InsertionSort(PrivilegeLess, all), PrivilegeKey)
            && (forall i :: 0 <= i < |grants.rows| ==> (NoPrivilege(grants.rows[i]) <==> i < nulls))
  {
    var all, grants := Listing(server, TableGrants(c, s, t)), TableGrantsOutcome(server, c, s, t).rows;
    hide InsertionSort, PrivilegeLess, PrivilegesAscend, Conforms, NoPrivilege;
    GrantsAreSorted(server, TableGrantsOf, c, s, t);
    NullsFirst(grants);
    FilterLength(grants, all, NoPrivilege);
  }

  lemma FilterLength(xs: seq<Row>, ys: seq<Row>, p: Row -> bool)
    requires multiset(xs) == multiset(ys)
    ensures |Filter(xs, p)| == |Filter(ys, p)|
  {
    forall row: Row ensures multiset(Filter(xs, p))[row] == multiset(Filter(ys, p))[row] {
      FilterCount(xs, p, row);
      FilterCount(ys, p, row);
    }
    assert multiset(Filter(xs, p)) == multiset(Filter(ys, p));
    assert |multiset(Filter(xs, p))| == |Filter(xs, p)| && |multiset(Filter(ys, p))| == |Filter(ys, p)|;
  }

  /** The column grants are the grants whose column name is in the LIKE language of the pattern, sorted by
      privilege; an empty pattern takes all of them. The pattern is free of a dangling backslash, and
      either it is not all `%` or no column name contains a line terminator. */
  lemma ColumnGrantsMatchAndAreSorted(server: Server, c: string, s: string, t: string, pattern: string)
    requires Conforms(server) && c != "" && s != "" && t != ""
    requires !LikeToRegex.Dangling(pattern)
    requires LikeToRegex.OnlyPercent(pattern) && pattern != "" ==>
               forall row :: row in Listing(server, ColumnGrants(c, s, t)) ==>
                 !Regex.HasLineTerminator(NameOf(row, ColumnName))
    ensures var all := Listing(server, ColumnGrants(c, s, t));
            var grants := ColumnGrantsOutcome(server, c, s, t, pattern);
            && grants.ok
            && PrivilegesAscend(grants.rows)
            && multiset(grants.rows) == multiset(Filter(all, RowLike(ColumnName, pattern)))
            && Map(grants.rows, PrivilegeKey)
               == Map(InsertionSort(PrivilegeLess, Filter(all, RowLike(ColumnName, pattern))), PrivilegeKey)
            && forall row :: row in grants.rows <==>
                 row in all && (pattern == "" || InLanguage(Tokens(pattern), NameOf(row, ColumnName)))
  {
    var all := Listing(server, ColumnGrants(c, s, t));
    var like := RowLike(ColumnName, pattern);
    forall row | row in all ensures ColumnMatcher(pattern)(row) == like(row) {
      if pattern != "" {
        LikeToRegex.PatternMatchesIsLike(NameOf(row, ColumnName), pattern);
        AcceptsIffInLanguage(Tokens(pattern), NameOf(row, ColumnName));
      }
    }
    FilterEqual(all, ColumnMatcher(pattern), like);
    var grants := server.byPrivilege(Filter(all, like));
    ComparisonsAreWeakOrders();
    SortedMeans(grants);
    KeysDetermined(server.byPrivilege, PrivilegeLess, PrivilegeKey, Filter(all, like));
    assert multiset(grants) == multiset(Filter(all, like));
    forall row: Row
      ensures row in grants <==> row in all && (pattern == "" || InLanguage(Tokens(pattern), NameOf(row, ColumnName)))
    {
      assert row in grants <==> row in multiset(grants);
      assert row in Filter(all, like) <==> row in multiset(Filter(all, like));
      FilterMembers(all, like, row);
      AcceptsIffInLanguage(Tokens(pattern), NameOf(row, ColumnName));
    }
  }
}
