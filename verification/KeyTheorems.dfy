/** Foreign keys seen from both ends. */
module KeyTheorems {
  import opened ServerModel
  import opened StatementHandle
  import opened Outcomes
  import opened Sequences
  import opened ShowRequests
  import opened ShowOutcomes
  import opened SearchOutcomes
  import opened Comprehension

  /** The end of a foreign key that a listing is asked by: the referenced table for exported keys, the
      referencing table for imported keys. */
  function EndDatabase(key: Row, exported: bool): string {
    NameOf(key, if exported then PkDatabaseName else FkDatabaseName)
  }

  function EndSchema(key: Row, exported: bool): string {
    NameOf(key, if exported then PkSchemaName else FkSchemaName)
  }

  function EndTable(key: Row, exported: bool): string {
    NameOf(key, if exported then PkTableName else FkTableName)
  }

  /** The key ends at this table. */
  function EndsAt(exported: bool, c: string, s: string, t: string): Row -> bool {
    (key: Row) => EndDatabase(key, exported) == c && EndSchema(key, exported) == s && EndTable(key, exported) == t
  }

  /** The same with missing names matching everything. */
  function EndMatches(exported: bool, c: string, s: string, t: string): Row -> bool {
    (key: Row) =>
      && MatchesName(EndDatabase(key, exported), c)
      && MatchesName(EndSchema(key, exported), s)
      && MatchesName(EndTable(key, exported), t)
  }

  function CatalogNamed(name: string): Catalog -> bool {
    (c: Catalog) => c.name == name
  }

  function SchemaNamed(name: string): Row -> bool {
    (r: Row) => NameOf(r, SchemaName) == name
  }

  /** Imported and exported keys are two views of one relation, and each key ends in a schema and a
      catalog that the server lists once. */
  ghost predicate ViewsOf(server: Server, relation: seq<Row>) {
    && server.current != ""
    && (forall c :: c in AllCatalogs(server) ==> c.name != "")
    && (forall c: string, r :: r in Listing(server, Schemas(c, "")) ==> NameOf(r, SchemaName) != "")
    && (forall exported: bool, c: string, s: string, t: string, key: Row ::
         Lists(server, relation, exported, c, s, t, key))
    && (forall key, exported :: key in relation ==>
         ListedOnce(server, EndDatabase(key, exported), EndSchema(key, exported)))
  }

  /** The listing of a table holds the key as often as the relation does if the key ends there, and
      otherwise not at all. */
  ghost predicate Lists(server: Server, relation: seq<Row>, exported: bool, c: string, s: string, t: string, key: Row) {
    multiset(Listing(server, ForeignKeys(c, s, t, exported)))[key]
    == if EndsAt(exported, c, s, t)(key) then multiset(relation)[key] else 0
  }

  ghost predicate ListedOnce(server: Server, c: string, s: string) {
    && |Filter(AllCatalogs(server), CatalogNamed(c))| == 1
    && |Filter(Listing(server, Schemas(c, "")), SchemaNamed(s))| == 1
  }

  /** If only the elements that satisfy `hit` contribute copies of `x`, and each of them `n`, then the
      flattening holds `n` copies when there is one such element and none when there is none. */
  lemma {:induction false} CountSpread<S, T>(xs: seq<S>, f: S -> seq<T>, hit: S -> bool, x: T, n: nat)
    requires forall y :: y in xs ==> multiset(f(y))[x] == if hit(y) then n else 0
    requires |Filter(xs, hit)| <= 1
    ensures multiset(FlatMap(xs, f))[x] == if |Filter(xs, hit)| == 1 then n else 0
  {
    if xs != [] {
      var last := |xs| - 1;
      assert xs[last] in xs;
      CountSpread(xs[..last], f, hit, x, n);
    }
  }

  /** The keys of one named table. */
  lemma KeysAtSchema(server: Server, exported: bool, c: string, s: string, t: string)
    requires c != "" && s != "" && t != ""
    ensures SchemaLeafOutcome(server, EachTable(true, t, ForeignKeysOf(exported)), c, s)
            == Outcome(Listing(server, ForeignKeys(c, s, t, exported)), true)
  {
    hide ForEach, Listing;
    var row: Row := map[TableName := Text(t)];
    var f := AtTable(server, ForeignKeysOf(exported), c, s);
    ForEachOne(row, f);
    assert f(row) == Outcome(Listing(server, ForeignKeys(c, s, t, exported)), true);
  }

  function KeysBelow(server: Server, exported: bool, c: string, t: string): Row -> seq<Row> {
    (s: Row) => Listing(server, ForeignKeys(c, NameOf(s, SchemaName), t, exported))
  }

  function SchemaRows(server: Server, c: string, schema: string): seq<Row> {
    if schema != "" then [map[SchemaName := Text(schema)]] else Listing(server, Schemas(c, ""))
  }

  /** The keys below one catalog, counted. */
  lemma KeysAtCatalog(server: Server, relation: seq<Row>, exported: bool, c: string, schema: string, t: string)
    requires ViewsOf(server, relation) && c != "" && t != ""
    ensures Over(SchemasToVisit(server, c, true, schema),
                 AtSchema(server, EachTable(true, t, ForeignKeysOf(exported)), c))
            == Outcome(FlatMap(SchemaRows(server, c, schema), KeysBelow(server, exported, c, t)), true)
  {
    var f := AtSchema(server, EachTable(true, t, ForeignKeysOf(exported)), c);
    forall s | s in SchemaRows(server, c, schema)
      ensures f(s) == Outcome(KeysBelow(server, exported, c, t)(s), true)
    {
      KeysAtSchema(server, exported, c, NameOf(s, SchemaName), t);
    }
    ForEachFlattens(SchemaRows(server, c, schema), f, KeysBelow(server, exported, c, t));
  }

  /** How many copies of `key` are found below catalog `c`. */
  function CopiesBelow(relation: seq<Row>, exported: bool, c: string, schema: string, t: string, key: Row): nat {
    if EndMatches(exported, c, schema, t)(key) && EndDatabase(key, exported) == c && EndTable(key, exported) == t
    then multiset(relation)[key] else 0
  }

  lemma ListedKeys(server: Server, relation: seq<Row>, exported: bool, c: string, s: string, t: string, key: Row)
    requires ViewsOf(server, relation)
    ensures multiset(Listing(server, ForeignKeys(c, s, t, exported)))[key]
            == if EndsAt(exported, c, s, t)(key) then multiset(relation)[key] else 0
  {
    assert Lists(server, relation, exported, c, s, t, key);
  }

  lemma EndsAreListed(server: Server, relation: seq<Row>, exported: bool, key: Row)
    requires ViewsOf(server, relation) && key in relation
    ensures ListedOnce(server, EndDatabase(key, exported), EndSchema(key, exported))
  {
  }

  /** The schemas whose keys may include `key`, given how many copies there are to find. */
  function SchemaHit(exported: bool, key: Row, n: nat): Row -> bool {
    (s: Row) => n > 0 && NameOf(s, SchemaName) == EndSchema(key, exported)
  }

  lemma SchemasHit(server: Server, relation: seq<Row>, exported: bool, c: string, schema: string, t: string, key: Row)
    requires ViewsOf(server, relation)
    ensures var n := CopiesBelow(relation, exported, c, "", t, key);
            |Filter(SchemaRows(server, c, schema), SchemaHit(exported, key, n))|
            == if n > 0 && MatchesName(EndSchema(key, exported), schema) then 1 else 0
  {
    var n := CopiesBelow(relation, exported, c, "", t, key);
    if n > 0 {
      assert key in relation;
      EndsAreListed(server, relation, exported, key);
    }
    OnceListedHit(server, exported, c, schema, key, n);
  }

  lemma OnceListedHit(server: Server, exported: bool, c: string, schema: string, key: Row, n: nat)
    requires n > 0 ==> ListedOnce(server, c, EndSchema(key, exported))
    ensures |Filter(SchemaRows(server, c, schema), SchemaHit(exported, key, n))|
            == if n > 0 && MatchesName(EndSchema(key, exported), schema) then 1 else 0
  {
    var rows, hit := SchemaRows(server, c, schema), SchemaHit(exported, key, n);
    if n == 0 {
      FilterNone(rows, hit);
    } else if schema != "" {
      FilterOne(rows[0], hit);
    } else {
      FilterEqual(rows, hit, SchemaNamed(EndSchema(key, exported)));
    }
  }

  lemma SchemaContributes(server: Server, relation: seq<Row>, exported: bool, c: string, t: string, key: Row, s: Row)
    requires ViewsOf(server, relation)
    ensures var n := CopiesBelow(relation, exported, c, "", t, key);
            multiset(KeysBelow(server, exported, c, t)(s))[key] == if SchemaHit(exported, key, n)(s) then n else 0
  {
    ListedKeys(server, relation, exported, c, NameOf(s, SchemaName), t, key);
  }

  lemma CountAtCatalog(server: Server, relation: seq<Row>, exported: bool, c: string, schema: string, t: string,
                       key: Row)
    requires ViewsOf(server, relation)
    ensures multiset(FlatMap(SchemaRows(server, c, schema), KeysBelow(server, exported, c, t)))[key]
            == CopiesBelow(relation, exported, c, schema, t, key)
  {
    var rows := SchemaRows(server, c, schema);
    var n := CopiesBelow(relation, exported, c, "", t, key);
    var hit := SchemaHit(exported, key, n);
    SchemasHit(server, relation, exported, c, schema, t, key);
    forall s | s in rows ensures multiset(KeysBelow(server, exported, c, t)(s))[key] == if hit(s) then n else 0 {
      SchemaContributes(server, relation, exported, c, t, key, s);
    }
    CountSpread(rows, KeysBelow(server, exported, c, t), hit, key, n);
  }

  lemma FilterOne<T>(x: T, p: T -> bool)
    ensures Filter([x], p) == if p(x) then [x] else []
  {
    assert [x][..0] == [];
  }

  function CatalogRows(server: Server, catalog: string): seq<Catalog> {
    if catalog != "" then [Catalog(catalog)] else AllCatalogs(server)
  }

  function KeysInCatalog(server: Server, exported: bool, schema: string, t: string): Catalog -> seq<Row> {
    (c: Catalog) => FlatMap(SchemaRows(server, c.name, schema), KeysBelow(server, exported, c.name, t))
  }

  /** The enumeration of keys succeeds and flattens. */
  lemma KeysFlatten(server: Server, relation: seq<Row>, exported: bool, catalog: string, schema: string, t: string)
    requires ViewsOf(server, relation) && t != ""
    ensures SearchOutcome(server, KeysSearch(catalog, schema, t, ForeignKeysOf(exported), false))
            == Outcome(FlatMap(CatalogRows(server, catalog), KeysInCatalog(server, exported, schema, t)), true)
  {
    var f := AtCatalog(server, true, schema, EachTable(true, t, ForeignKeysOf(exported)));
    forall c | c in CatalogRows(server, catalog)
      ensures f(c) == Outcome(KeysInCatalog(server, exported, schema, t)(c), true)
    {
      KeysAtCatalog(server, relation, exported, c.name, schema, t);
    }
    ForEachFlattens(CatalogRows(server, catalog), f, KeysInCatalog(server, exported, schema, t));
  }

  lemma AllKeysAreSelection(server: Server, relation: seq<Row>, exported: bool, catalog: string, schema: string,
                            t: string)
    requires ViewsOf(server, relation) && t != ""
    ensures SearchOutcome(server, KeysSearch(catalog, schema, t, ForeignKeysOf(exported), false)).ok
    ensures multiset(SearchOutcome(server, KeysSearch(catalog, schema, t, ForeignKeysOf(exported), false)).rows)
            == multiset(Filter(relation, EndMatches(exported, catalog, schema, t)))
  {
    KeysFlatten(server, relation, exported, catalog, schema, t);
    var catalogs, f := CatalogRows(server, catalog), KeysInCatalog(server, exported, schema, t);
    forall key: Row
      ensures multiset(FlatMap(catalogs, f))[key]
              == multiset(Filter(relation, EndMatches(exported, catalog, schema, t)))[key]
    {
      CountOverCatalogs(server, relation, exported, catalog, schema, t, key);
      FilterCount(relation, EndMatches(exported, catalog, schema, t), key);
    }
  }

  function CatalogHit(exported: bool, key: Row, n: nat): Catalog -> bool {
    (c: Catalog) => n > 0 && c.name == EndDatabase(key, exported)
  }

  lemma CatalogsHit(server: Server, relation: seq<Row>, exported: bool, catalog: string, schema: string, t: string,
                    key: Row)
    requires ViewsOf(server, relation)
    ensures var n := CopiesBelow(relation, exported, EndDatabase(key, exported), schema, t, key);
            |Filter(CatalogRows(server, catalog), CatalogHit(exported, key, n))|
            == if n > 0 && MatchesName(EndDatabase(key, exported), catalog) then 1 else 0
  {
    var catalogs := CatalogRows(server, catalog);
    var n := CopiesBelow(relation, exported, EndDatabase(key, exported), schema, t, key);
    var hit := CatalogHit(exported, key, n);
    if n == 0 {
      FilterNone(catalogs, hit);
    } else if catalog != "" {
      FilterOne(catalogs[0], hit);
    } else {
      assert key in relation;
      EndsAreListed(server, relation, exported, key);
      FilterEqual(catalogs, hit, CatalogNamed(EndDatabase(key, exported)));
    }
  }

  lemma CountOverCatalogs(server: Server, relation: seq<Row>, exported: bool, catalog: string, schema: string,
                          t: string, key: Row)
    requires ViewsOf(server, relation) && t != ""
    ensures multiset(FlatMap(CatalogRows(server, catalog), KeysInCatalog(server, exported, schema, t)))[key]
            == if EndMatches(exported, catalog, schema, t)(key) then multiset(relation)[key] else 0
  {
    var catalogs, f := CatalogRows(server, catalog), KeysInCatalog(server, exported, schema, t);
    var n := CopiesBelow(relation, exported, EndDatabase(key, exported), schema, t, key);
    var hit := CatalogHit(exported, key, n);
    CatalogsHit(server, relation, exported, catalog, schema, t, key);
    forall c | c in catalogs ensures multiset(f(c))[key] == if hit(c) then n else 0 {
      CountAtCatalog(server, relation, exported, c.name, schema, t, key);
    }
    CountSpread(catalogs, f, hit, key, n);
  }

  // ---- Single-database mode ----

  /** The catalog that a search is limited to: a missing one is the current one in single-database mode. */
  function Effective(server: Server, catalog: string, single: bool): string {
    if catalog == "" && single then server.current else catalog
  }

  lemma SingleIsCurrent(server: Server, catalog: string, schema: string, t: string, leaf: TableLeaf, single: bool)
    requires server.current != ""
    ensures SearchOutcome(server, KeysSearch(catalog, schema, t, leaf, single))
            == SearchOutcome(server, KeysSearch(Effective(server, catalog, single), schema, t, leaf, false))
  {
    hide AtCatalog;
    assert CatalogsToVisit(server, true, catalog, single)
           == CatalogsToVisit(server, true, Effective(server, catalog, single), false);
  }

  /** Asked from either end, with any names missing and in either mode, the enumeration returns each key of the
      relation that ends there, as often as it occurs. */
  lemma KeysAreSelection(server: Server, relation: seq<Row>, exported: bool, catalog: string, schema: string, t: string,
                         single: bool)
    requires ViewsOf(server, relation) && t != ""
    ensures var result := SearchOutcome(server, KeysSearch(catalog, schema, t, ForeignKeysOf(exported), single));
            && result.ok
            && multiset(result.rows)
               == multiset(Filter(relation, EndMatches(exported, Effective(server, catalog, single), schema, t)))
  {
    hide SearchOutcome;
    SingleIsCurrent(server, catalog, schema, t, ForeignKeysOf(exported), single);
    AllKeysAreSelection(server, relation, exported, Effective(server, catalog, single), schema, t);
  }

  // ---- Both tables given ----

  /** The mode does not hide this end of the key. */
  predicate EndVisible(server: Server, key: Row, exported: bool, catalog: string, single: bool) {
    !single || catalog != "" || EndDatabase(key, exported) == server.current
  }

  /** For the keys between the two tables, the mode hides both ends or none. */
  ghost predicate SidesAgree(server: Server, relation: seq<Row>, pkCatalog: string, pkSchema: string, pkTable: string,
                             fkCatalog: string, fkSchema: string, fkTable: string, single: bool) {
    forall key :: key in relation
                  && EndMatches(true, pkCatalog, pkSchema, pkTable)(key)
                  && EndMatches(false, fkCatalog, fkSchema, fkTable)(key) ==>
                  (EndVisible(server, key, false, fkCatalog, single) <==>
                   EndVisible(server, key, true, pkCatalog, single))
  }

  lemma EffectiveMatches(server: Server, exported: bool, catalog: string, schema: string, t: string, single: bool,
                         key: Row)
    requires server.current != ""
    ensures EndMatches(exported, Effective(server, catalog, single), schema, t)(key) <==>
            EndMatches(exported, catalog, schema, t)(key) && EndVisible(server, key, exported, catalog, single)
  {
  }

  /** How often a key is among the imported, or the exported, keys that match the other side. */
  lemma KeyCounts(server: Server, relation: seq<Row>, exported: bool, catalog: string, schema: string, t: string,
                  single: bool, other: Row -> bool, key: Row)
    requires ViewsOf(server, relation) && t != ""
    ensures var rows := SearchOutcome(server, KeysSearch(catalog, schema, t, ForeignKeysOf(exported), single)).rows;
            multiset(Filter(rows, other))[key]
            == if EndMatches(exported, catalog, schema, t)(key) && EndVisible(server, key, exported, catalog, single)
                  && other(key)
               then multiset(relation)[key] else 0
  {
    hide SearchOutcome;
    var rows := SearchOutcome(server, KeysSearch(catalog, schema, t, ForeignKeysOf(exported), single)).rows;
    var matches := EndMatches(exported, Effective(server, catalog, single), schema, t);
    KeysAreSelection(server, relation, exported, catalog, schema, t, single);
    EffectiveMatches(server, exported, catalog, schema, t, single, key);
    FilterCount(rows, other, key);
    FilterCount(relation, matches, key);
  }

  /** The keys between the two tables of which the mode shows this end. */
  function Shown(server: Server, exported: bool, pkCatalog: string, pkSchema: string, pkTable: string,
                 fkCatalog: string, fkSchema: string, fkTable: string, single: bool): Row -> bool
  {
    (key: Row) =>
      && EndMatches(true, pkCatalog, pkSchema, pkTable)(key)
      && EndMatches(false, fkCatalog, fkSchema, fkTable)(key)
      && EndVisible(server, key, exported, if exported then pkCatalog else fkCatalog, single)
  }

  lemma EndsAgreeIff(server: Server, relation: seq<Row>, pkCatalog: string, pkSchema: string, pkTable: string,
                     fkCatalog: string, fkSchema: string, fkTable: string, single: bool)
    requires ViewsOf(server, relation) && pkTable != "" && fkTable != ""
    ensures var imported := ImportedKeys(server, fkCatalog, fkSchema, fkTable, single).rows;
            var exported := ExportedKeys(server, pkCatalog, pkSchema, pkTable, single).rows;
            multiset(Filter(imported, EndMatches(true, pkCatalog, pkSchema, pkTable)))
              == multiset(Filter(exported, EndMatches(false, fkCatalog, fkSchema, fkTable)))
            <==> SidesAgree(server, relation, pkCatalog, pkSchema, pkTable, fkCatalog, fkSchema, fkTable, single)
  {
    hide SearchOutcome, ViewsOf, EndMatches, EndVisible;
    var pkSide := EndMatches(true, pkCatalog, pkSchema, pkTable);
    var fkSide := EndMatches(false, fkCatalog, fkSchema, fkTable);
    var imported := Filter(ImportedKeys(server, fkCatalog, fkSchema, fkTable, single).rows, pkSide);
    var exported := Filter(ExportedKeys(server, pkCatalog, pkSchema, pkTable, single).rows, fkSide);
    var inX := Shown(server, false, pkCatalog, pkSchema, pkTable, fkCatalog, fkSchema, fkTable, single);
    var inY := Shown(server, true, pkCatalog, pkSchema, pkTable, fkCatalog, fkSchema, fkTable, single);
    forall key: Row
      ensures Counted(relation, imported, key, inX(key)) && Counted(relation, exported, key, inY(key))
    {
      KeyCounts(server, relation, false, fkCatalog, fkSchema, fkTable, single, pkSide, key);
      KeyCounts(server, relation, true, pkCatalog, pkSchema, pkTable, single, fkSide, key);
    }
    SelectionsAgreeIff(relation, imported, exported, inX, inY);
  }

  /** With both tables given, `sqlForeignKeys` returns the imported keys, in their order, that also match the
      primary-key side. As a multiset this is the exported keys that match the foreign-key side if and only if the
      mode hides both ends or none of every key between the two tables. */
  lemma ForeignKeysFromEitherEnd(server: Server, relation: seq<Row>, pkCatalog: string, pkSchema: string,
                                 pkTable: string, fkCatalog: string, fkSchema: string, fkTable: string, single: bool)
    requires ViewsOf(server, relation) && pkTable != "" && fkTable != ""
    requires AllShort([pkCatalog, pkSchema, pkTable, fkCatalog, fkSchema, fkTable])
    ensures var spec := ForeignKeysSpec(server, pkCatalog, pkSchema, pkTable, fkCatalog, fkSchema, fkTable, single);
            var imported := ImportedKeys(server, fkCatalog, fkSchema, fkTable, single).rows;
            var exported := ExportedKeys(server, pkCatalog, pkSchema, pkTable, single).rows;
            && spec.ok
            && spec.rows == Filter(imported, EndMatches(true, pkCatalog, pkSchema, pkTable))
            && (multiset(spec.rows) == multiset(Filter(exported, EndMatches(false, fkCatalog, fkSchema, fkTable))) <==>
                SidesAgree(server, relation, pkCatalog, pkSchema, pkTable, fkCatalog, fkSchema, fkTable, single))
  {
    hide SearchOutcome, ViewsOf, SidesAgree, Filter, AllShort;
    var imported := ImportedKeys(server, fkCatalog, fkSchema, fkTable, single).rows;
    KeysAreSelection(server, relation, false, fkCatalog, fkSchema, fkTable, single);
    FilterEqual(imported, PkMatcher(pkCatalog, pkSchema, pkTable), EndMatches(true, pkCatalog, pkSchema, pkTable));
    EndsAgreeIff(server, relation, pkCatalog, pkSchema, pkTable, fkCatalog, fkSchema, fkTable, single);
  }

  // ---- All cases ----

  /** The keys that `sqlForeignKeys` is asked for. Names of a side without a table are ignored, and so are the
      foreign-key names when no foreign-key table is given; the catalog of the side that is enumerated is the current
      one if it is missing in single-database mode. */
  predicate Wanted(server: Server, key: Row, pkCatalog: string, pkSchema: string, pkTable: string,
                   fkCatalog: string, fkSchema: string, fkTable: string, single: bool)
  {
    if fkTable != "" then
      && EndMatches(false, Effective(server, fkCatalog, single), fkSchema, fkTable)(key)
      && (pkTable != "" ==> EndMatches(true, pkCatalog, pkSchema, pkTable)(key))
    else
      EndMatches(true, Effective(server, pkCatalog, single), pkSchema, pkTable)(key)
  }

  function Wanting(server: Server, pkCatalog: string, pkSchema: string, pkTable: string,
                   fkCatalog: string, fkSchema: string, fkTable: string, single: bool): Row -> bool
  {
    (key: Row) => Wanted(server, key, pkCatalog, pkSchema, pkTable, fkCatalog, fkSchema, fkTable, single)
  }

  /** Whatever is given, `sqlForeignKeys` succeeds exactly when a table is given and no name is too long, and then
      returns the keys of the relation that are asked for, each as often as it occurs. */
  lemma ForeignKeysOverRelation(server: Server, relation: seq<Row>, pkCatalog: string, pkSchema: string,
                                pkTable: string, fkCatalog: string, fkSchema: string, fkTable: string, single: bool)
    requires ViewsOf(server, relation)
    ensures var spec := ForeignKeysSpec(server, pkCatalog, pkSchema, pkTable, fkCatalog, fkSchema, fkTable, single);
            && (spec.ok <==>
                 && (pkTable != "" || fkTable != "")
                 && (forall name :: name in {pkCatalog, pkSchema, pkTable, fkCatalog, fkSchema, fkTable} ==>
                      |name| <= 128))
            && (spec.ok ==>
                 multiset(spec.rows)
                 == multiset(Filter(relation, Wanting(server, pkCatalog, pkSchema, pkTable,
                                                      fkCatalog, fkSchema, fkTable, single))))
  {
    hide SearchOutcome, ViewsOf, Filter, AllShort, Wanted;
    ShortIff(pkCatalog, pkSchema, pkTable, fkCatalog, fkSchema, fkTable);
    if AllShort([pkCatalog, pkSchema, pkTable, fkCatalog, fkSchema, fkTable]) && (pkTable != "" || fkTable != "") {
      if fkTable == "" {
        KeysAreSelection(server, relation, true, pkCatalog, pkSchema, pkTable, single);
      } else {
        KeysAreSelection(server, relation, false, fkCatalog, fkSchema, fkTable, single);
      }
      if fkTable != "" && pkTable != "" {
        BothSidesWanted(server, relation, pkCatalog, pkSchema, pkTable, fkCatalog, fkSchema, fkTable, single);
      } else {
        OneSideWanted(server, relation, pkCatalog, pkSchema, pkTable, fkCatalog, fkSchema, fkTable, single);
      }
    }
  }

  lemma ShortIff(a: string, b: string, c: string, d: string, e: string, f: string)
    ensures AllShort([a, b, c, d, e, f]) <==> forall name :: name in {a, b, c, d, e, f} ==> |name| <= 128
  {
    var names := [a, b, c, d, e, f];
    assert names[0] == a && names[1] == b && names[2] == c && names[3] == d && names[4] == e && names[5] == f;
  }

  lemma OneSideWanted(server: Server, relation: seq<Row>, pkCatalog: string, pkSchema: string, pkTable: string,
                      fkCatalog: string, fkSchema: string, fkTable: string, single: bool)
    requires fkTable == "" || pkTable == ""
    ensures var wanting := Wanting(server, pkCatalog, pkSchema, pkTable, fkCatalog, fkSchema, fkTable, single);
            Filter(relation, wanting)
            == if fkTable == ""
               then Filter(relation, EndMatches(true, Effective(server, pkCatalog, single), pkSchema, pkTable))
               else Filter(relation, EndMatches(false, Effective(server, fkCatalog, single), fkSchema, fkTable))
  {
    hide MatchesName, EndDatabase, EndSchema, EndTable;
    var wanting := Wanting(server, pkCatalog, pkSchema, pkTable, fkCatalog, fkSchema, fkTable, single);
    if fkTable == "" {
      FilterEqual(relation, wanting, EndMatches(true, Effective(server, pkCatalog, single), pkSchema, pkTable));
    } else {
      FilterEqual(relation, wanting, EndMatches(false, Effective(server, fkCatalog, single), fkSchema, fkTable));
    }
  }

  /** Filtering the keys of one end by the other end. */
  lemma BothSidesWanted(server: Server, relation: seq<Row>, pkCatalog: string, pkSchema: string, pkTable: string,
                        fkCatalog: string, fkSchema: string, fkTable: string, single: bool)
    requires ViewsOf(server, relation) && pkTable != "" && fkTable != ""
    ensures var imported := ImportedKeys(server, fkCatalog, fkSchema, fkTable, single).rows;
            var wanting := Wanting(server, pkCatalog, pkSchema, pkTable, fkCatalog, fkSchema, fkTable, single);
            multiset(Filter(imported, PkMatcher(pkCatalog, pkSchema, pkTable))) == multiset(Filter(relation, wanting))
  {
    hide SearchOutcome, ViewsOf, MatchesName;
    var imported := ImportedKeys(server, fkCatalog, fkSchema, fkTable, single).rows;
    var pkSide, matcher := EndMatches(true, pkCatalog, pkSchema, pkTable), PkMatcher(pkCatalog, pkSchema, pkTable);
    var fkSide := EndMatches(false, Effective(server, fkCatalog, single), fkSchema, fkTable);
    var wanting := Wanting(server, pkCatalog, pkSchema, pkTable, fkCatalog, fkSchema, fkTable, single);
    KeysAreSelection(server, relation, false, fkCatalog, fkSchema, fkTable, single);
    forall key: Row
      ensures multiset(Filter(imported, matcher))[key] == multiset(Filter(relation, wanting))[key]
    {
      FilterCount(imported, matcher, key);
      FilterCount(relation, fkSide, key);
      FilterCount(relation, wanting, key);
      assert matcher(key) == pkSide(key);
    }
  }

  /** The rows hold the key as often as the relation does if it is selected, and otherwise not at all. */
  ghost predicate Counted(relation: seq<Row>, rows: seq<Row>, key: Row, selected: bool) {
    multiset(rows)[key] == if selected then multiset(relation)[key] else 0
  }

  /** Two selections from a relation are the same multiset exactly when they select the same of its members. */
  lemma SelectionsAgreeIff(relation: seq<Row>, xs: seq<Row>, ys: seq<Row>, inX: Row -> bool, inY: Row -> bool)
    requires forall key: Row :: Counted(relation, xs, key, inX(key)) && Counted(relation, ys, key, inY(key))
    ensures multiset(xs) == multiset(ys) <==> forall key :: key in relation ==> (inX(key) <==> inY(key))
  {
    if multiset(xs) == multiset(ys) {
      forall key | key in relation ensures inX(key) <==> inY(key) {
        assert Counted(relation, xs, key, inX(key)) && Counted(relation, ys, key, inY(key));
        assert multiset(relation)[key] > 0;
      }
    }
    if forall key :: key in relation ==> (inX(key) <==> inY(key)) {
      forall key: Row ensures multiset(xs)[key] == multiset(ys)[key] {
        assert Counted(relation, xs, key, inX(key)) && Counted(relation, ys, key, inY(key));
        if multiset(relation)[key] > 0 {
          assert key in relation;
        }
      }
    }
  }
}
