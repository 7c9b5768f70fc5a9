/** A server with two databases and a foreign key between them. It meets what the theorems ask of servers, and shows
    where single-database mode tells the two ends of a foreign key apart. */
module SampleServer {
  import opened ServerModel
  import opened StatementHandle
  import opened Outcomes
  import opened Sequences
  import opened ShowRequests
  import opened ShowOutcomes
  import opened SearchOutcomes
  import opened Comprehension
  import opened Visits
  import opened KeyTheorems

  const DATABASES: seq<Row> := [map[DatabaseName := Text("a")], map[DatabaseName := Text("b")]]
  const SCHEMAS: seq<Row> := [map[SchemaName := Text("s")]]
  const TABLES: seq<Row> := [map[TableName := Text("t")]]
  const COLUMNS: seq<Row> := [map[ColumnName := Text("k")]]

  /** Table `a.s.p` is referenced by table `b.s.f`. */
  const FOREIGN_KEY: Row := map[
    PkDatabaseName := Text("a"), PkSchemaName := Text("s"), PkTableName := Text("p"),
    FkDatabaseName := Text("b"), FkSchemaName := Text("s"), FkTableName := Text("f")
  ]

  function Matching(rows: seq<Row>, column: Column, pattern: string): seq<Row> {
    Filter(rows, RowLike(column, pattern))
  }

  function KeysEnding(exported: bool, values: seq<string>): seq<Row>
    requires |values| == 3
  {
    if EndsAt(exported, values[0], values[1], values[2])(FOREIGN_KEY) then [FOREIGN_KEY] else []
  }

  function SampleAnswer(text: string, values: seq<string>): seq<Row> {
    if text == SHOW_DATABASES then DATABASES
    else if text == SHOW_DATABASES_LIKE && |values| == 1 then Matching(DATABASES, DatabaseName, values[0])
    else if text == SHOW_SCHEMAS then SCHEMAS
    else if text == SHOW_SCHEMAS_LIKE && |values| == 2 then Matching(SCHEMAS, SchemaName, values[1])
    else if text == SHOW_TABLES then TABLES
    else if text == SHOW_TABLES_LIKE && |values| == 3 then Matching(TABLES, TableName, values[2])
    else if text == SHOW_COLUMNS then COLUMNS
    else if text == SHOW_COLUMNS_LIKE && |values| == 4 then Matching(COLUMNS, ColumnName, values[3])
    else if text == SHOW_FOREIGN_KEYS && |values| == 3 then KeysEnding(false, values)
    else if text == SHOW_EXPORTED_KEYS && |values| == 3 then KeysEnding(true, values)
    else []
  }

  function Sample(): Server {
    var same := (rows: seq<Row>) => rows;
    assert Permutes(same);
    Server("a", SampleAnswer, same, same)
  }

  // ---- What it answers ----

  lemma TextLengths()
    ensures |SHOW_DATABASES| == 15 && |SHOW_DATABASES_LIKE| == 22
    ensures |SHOW_SCHEMAS| == 29 && |SHOW_SCHEMAS_LIKE| == 36
    ensures |SHOW_TABLES| == 28 && |SHOW_TABLES_LIKE| == 35
    ensures |SHOW_COLUMNS| == 30 && |SHOW_COLUMNS_LIKE| == 37
    ensures |SHOW_FOREIGN_KEYS| == 47 && |SHOW_EXPORTED_KEYS| == 56
  {
  }

  lemma EverythingLike(rows: seq<Row>, column: Column)
    ensures Matching(rows, column, "") == rows
  {
    FilterAll(rows, RowLike(column, ""));
  }

  lemma AnswersDatabases(p: string)
    ensures Answer(Sample(), Request.Databases(p)) == Matching(DATABASES, DatabaseName, p)
  {
    TextLengths();
    EverythingLike(DATABASES, DatabaseName);
    hide Matching;
  }

  lemma AnswersSchemas(c: string, p: string)
    ensures Answer(Sample(), Schemas(c, p)) == Matching(SCHEMAS, SchemaName, p)
  {
    TextLengths();
    EverythingLike(SCHEMAS, SchemaName);
    hide Matching;
  }

  lemma AnswersTables(c: string, s: string, p: string)
    ensures Answer(Sample(), Tables(c, s, p)) == Matching(TABLES, TableName, p)
  {
    TextLengths();
    EverythingLike(TABLES, TableName);
    hide Matching;
  }

  lemma AnswersColumns(c: string, s: string, t: string, p: string)
    ensures Answer(Sample(), Columns(c, s, t, p)) == Matching(COLUMNS, ColumnName, p)
  {
    TextLengths();
    EverythingLike(COLUMNS, ColumnName);
    hide Matching;
  }

  lemma AnswersForeignKeys(c: string, s: string, t: string, exported: bool)
    ensures Answer(Sample(), ForeignKeys(c, s, t, exported))
            == if EndsAt(exported, c, s, t)(FOREIGN_KEY) then [FOREIGN_KEY] else []
  {
    TextLengths();
    hide Matching;
  }

  // ---- What its listings hold ----

  /** A column that is bound to the field of its own name. */
  ghost predicate Plain(bindings: seq<ColumnBinding>, c: Column) {
    && (forall i :: 0 <= i < |bindings| ==> bindings[i].field == bindings[i].source)
    && (exists i :: 0 <= i < |bindings| && bindings[i].field == c)
  }

  lemma {:induction false} RecordKeeps(bindings: seq<ColumnBinding>, row: Row, c: Column)
    requires Plain(bindings, c)
    ensures Get(Record(bindings, row), c) == Get(row, c)
  {
    var n := |bindings| - 1;
    if bindings[n].field != c {
      var i :| 0 <= i < |bindings| && bindings[i].field == c;
      assert bindings[..n][i].field == c;
      RecordKeeps(bindings[..n], row, c);
    }
  }

  lemma {:induction false} RecordsLike(bindings: seq<ColumnBinding>, rows: seq<Row>, c: Column, p: string)
    requires Plain(bindings, c)
    ensures Records(bindings, Matching(rows, c, p)) == Filter(Records(bindings, rows), RowLike(c, p))
  {
    hide Record, Plain, Comprehension.Like;
    if rows != [] {
      var n := |rows| - 1;
      RecordsLike(bindings, rows[..n], c, p);
      RecordKeeps(bindings, rows[n], c);
      assert Records(bindings, rows)[..n] == Records(bindings, rows[..n]);
    }
  }

  lemma PlainBindings()
    ensures Plain(Bindings(Schemas("", "")), SchemaName)
    ensures Plain(Bindings(Tables("", "", "")), TableName)
    ensures Plain(Bindings(Columns("", "", "", "")), ColumnName)
  {
    assert Bindings(Schemas("", ""))[1].field == SchemaName;
    assert Bindings(Tables("", "", ""))[2].field == TableName;
    assert Bindings(Columns("", "", "", ""))[3].field == ColumnName;
  }

  /** The columns that a helper binds do not depend on the names it is given. */
  lemma SameBindings(c: string, s: string, t: string, p: string)
    ensures Bindings(Schemas(c, p)) == Bindings(Schemas("", ""))
    ensures Bindings(Tables(c, s, p)) == Bindings(Tables("", "", ""))
    ensures Bindings(Columns(c, s, t, p)) == Bindings(Columns("", "", "", ""))
  {
  }

  lemma ListsSchemas(c: string, p: string)
    ensures Listing(Sample(), Schemas(c, p))
            == Filter(Records(Bindings(Schemas("", "")), SCHEMAS), RowLike(SchemaName, p))
  {
    SameBindings(c, "", "", p);
    hide Records, Matching, SampleAnswer, Filter, Bindings, Sample, Answer;
    AnswersSchemas(c, p);
    PlainBindings();
    RecordsLike(Bindings(Schemas("", "")), SCHEMAS, SchemaName, p);
  }

  lemma ListsTables(c: string, s: string, p: string)
    ensures Listing(Sample(), Tables(c, s, p))
            == Filter(Records(Bindings(Tables("", "", "")), TABLES), RowLike(TableName, p))
  {
    SameBindings(c, s, "", p);
    hide Records, Matching, SampleAnswer, Filter, Bindings, Sample, Answer;
    AnswersTables(c, s, p);
    PlainBindings();
    RecordsLike(Bindings(Tables("", "", "")), TABLES, TableName, p);
  }

  lemma ListsColumns(c: string, s: string, t: string, p: string)
    ensures Listing(Sample(), Columns(c, s, t, p))
            == Filter(Records(Bindings(Columns("", "", "", "")), COLUMNS), RowLike(ColumnName, p))
  {
    SameBindings(c, s, t, p);
    hide Records, Matching, SampleAnswer, Filter, Bindings, Sample, Answer;
    AnswersColumns(c, s, t, p);
    PlainBindings();
    RecordsLike(Bindings(Columns("", "", "", "")), COLUMNS, ColumnName, p);
  }

  function CatalogOf(r: Row): Catalog {
    Catalog(NameOf(r, DatabaseName))
  }

  ghost predicate ShortlyNamed(rows: seq<Row>) {
    forall r :: r in rows ==> Get(r, DatabaseName).Text? && |NameOf(r, DatabaseName)| < MAX_IDEN_LEN
  }

  /** Short names come through the buffer of the database helper as they are. */
  lemma {:induction false} ShortNames(rows: seq<Row>)
    requires ShortlyNamed(rows)
    ensures DatabaseNames(rows) == Map(rows, CatalogOf)
  {
    if rows != [] {
      var n := |rows| - 1;
      assert rows[n] in rows;
      ShortNames(rows[..n]);
    }
  }

  lemma MatchingNames(rows: seq<Row>, p: string)
    requires ShortlyNamed(rows)
    ensures DatabaseNames(Matching(rows, DatabaseName, p)) == Filter(DatabaseNames(rows), CatalogLike(p))
  {
    var matching := Matching(rows, DatabaseName, p);
    forall r | r in matching ensures r in rows {
      FilterMembers(rows, RowLike(DatabaseName, p), r);
    }
    ShortNames(rows);
    ShortNames(matching);
    FilterMap(rows, CatalogOf, RowLike(DatabaseName, p), CatalogLike(p));
  }

  lemma DatabaseRows()
    ensures ShortlyNamed(DATABASES)
    ensures DatabaseNames(DATABASES) == [Catalog("a"), Catalog("b")]
  {
    ShortNames(DATABASES);
  }

  lemma ListsCatalogs()
    ensures AllCatalogs(Sample()) == [Catalog("a"), Catalog("b")]
  {
    AnswersDatabases("");
    EverythingLike(DATABASES, DatabaseName);
    DatabaseRows();
  }

  // ---- It is a server as the theorems ask for ----

  lemma SampleHonoursLike()
    ensures HonoursLike(Sample())
  {
    forall p: string | p != ""
      ensures DatabaseNames(Answer(Sample(), Request.Databases(p))) == Filter(AllCatalogs(Sample()), CatalogLike(p))
    {
      AnswersDatabases(p);
      DatabaseRows();
      MatchingNames(DATABASES, p);
      ListsCatalogs();
    }
    forall c: string, p: string
      ensures Listing(Sample(), Schemas(c, p)) == Filter(Listing(Sample(), Schemas(c, "")), RowLike(SchemaName, p))
    {
      ListsSchemas(c, p);
      ListsSchemas(c, "");
      FilterAll(Records(Bindings(Schemas("", "")), SCHEMAS), RowLike(SchemaName, ""));
    }
    forall c: string, s: string, p: string
      ensures Listing(Sample(), Tables(c, s, p)) == Filter(Listing(Sample(), Tables(c, s, "")), RowLike(TableName, p))
    {
      ListsTables(c, s, p);
      ListsTables(c, s, "");
      FilterAll(Records(Bindings(Tables("", "", "")), TABLES), RowLike(TableName, ""));
    }
    forall c: string, s: string, t: string, p: string
      ensures Listing(Sample(), Columns(c, s, t, p))
              == Filter(Listing(Sample(), Columns(c, s, t, "")), RowLike(ColumnName, p))
    {
      ListsColumns(c, s, t, p);
      ListsColumns(c, s, t, "");
      FilterAll(Records(Bindings(Columns("", "", "", "")), COLUMNS), RowLike(ColumnName, ""));
    }
  }

  lemma SchemaNames(c: string)
    ensures |Listing(Sample(), Schemas(c, ""))| == 1
    ensures forall r :: r in Listing(Sample(), Schemas(c, "")) ==> NameOf(r, SchemaName) == "s"
  {
    hide Listing, Filter, Sample, Record, Plain, Bindings;
    ListsSchemas(c, "");
    PlainBindings();
    FilterAll(Records(Bindings(Schemas("", "")), SCHEMAS), RowLike(SchemaName, ""));
    RecordKeeps(Bindings(Schemas("", "")), SCHEMAS[0], SchemaName);
  }

  lemma TableNames(c: string, s: string)
    ensures |Listing(Sample(), Tables(c, s, ""))| == 1
    ensures forall r :: r in Listing(Sample(), Tables(c, s, "")) ==> NameOf(r, TableName) == "t"
  {
    hide Listing, Filter, Sample, Record, Plain, Bindings;
    ListsTables(c, s, "");
    PlainBindings();
    FilterAll(Records(Bindings(Tables("", "", "")), TABLES), RowLike(TableName, ""));
    RecordKeeps(Bindings(Tables("", "", "")), TABLES[0], TableName);
  }

  /** The sample honours LIKE, everything it lists has a name, and it lists tables. */
  lemma SampleIsNamed()
    ensures HonoursLike(Sample()) && Named(Sample())
    ensures exists p :: p in AllTables(Sample())
  {
    hide Sample, AllSchemas, AllTables, AllCatalogs, HonoursLike, Extend;
    SampleCurrent();
    SampleHonoursLike();
    ListsCatalogs();
    SampleSchemas();
    SampleTables();
  }

  lemma SampleCurrent()
    ensures Sample().current == "a"
  {
  }

  lemma SampleSchemas()
    ensures forall p :: p in AllSchemas(Sample()) ==> SchemaOf(p) == "s" && |p.rows| == 1
    ensures exists p :: p in AllSchemas(Sample())
  {
    hide Sample, Extend, Children, AllCatalogs;
    var catalogs := CatalogPaths(AllCatalogs(Sample()));
    ListsCatalogs();
    forall p | p in AllSchemas(Sample()) ensures SchemaOf(p) == "s" && |p.rows| == 1 {
      ExtendMembers(catalogs, SchemasIn(Sample(), ""), p);
      var q, r :| q in catalogs && r in SchemasIn(Sample(), "")(q) && p == Below(q, r);
      SchemaNames(q.catalog);
    }
    SchemaNames("a");
    var row := Listing(Sample(), Schemas("a", ""))[0];
    assert catalogs[0] == Path("a", []);
    ExtendMember(catalogs, SchemasIn(Sample(), ""), Path("a", []), row);
  }

  lemma SampleTables()
    ensures forall p :: p in AllTables(Sample()) ==> TableOf(p) == "t"
    ensures exists p :: p in AllTables(Sample())
  {
    hide Sample, AllSchemas, Extend, Children, Listing;
    var schemas, tables := AllSchemas(Sample()), TablesIn(Sample(), "");
    SampleSchemas();
    forall p | p in AllTables(Sample()) ensures TableOf(p) == "t" {
      ExtendMembers(schemas, tables, p);
      var q, r :| q in schemas && r in tables(q) && p == Below(q, r);
      TableNames(q.catalog, SchemaOf(q));
    }
    var q :| q in schemas;
    TableNames(q.catalog, SchemaOf(q));
    ExtendMember(schemas, tables, q, tables(q)[0]);
    assert Below(q, tables(q)[0]) in AllTables(Sample());
  }

  // ---- Its foreign key ----

  function KeyBindings(): seq<ColumnBinding> {
    Bindings(ForeignKeys("", "", "", false))
  }

  /** The relation of its one foreign key, as the driver records it. */
  function Relation(): seq<Row> {
    [Record(KeyBindings(), FOREIGN_KEY)]
  }

  predicate SameEnd(r: Row, k: Row, exported: bool) {
    && EndDatabase(r, exported) == EndDatabase(k, exported)
    && EndSchema(r, exported) == EndSchema(k, exported)
    && EndTable(r, exported) == EndTable(k, exported)
  }

  lemma KeyBindingsSame()
    ensures |KeyBindings()| == 14
    ensures KeyBindings()[..7] == [Name(PkDatabaseName), Name(PkSchemaName), Name(PkTableName), Name(PkColumnName),
                                   Name(FkDatabaseName), Name(FkSchemaName), Name(FkTableName)]
    ensures forall i :: 0 <= i < |KeyBindings()| ==> KeyBindings()[i].field == KeyBindings()[i].source
  {
  }

  lemma KeyBindingsPlain(c: Column)
    requires c in {PkDatabaseName, PkSchemaName, PkTableName, FkDatabaseName, FkSchemaName, FkTableName}
    ensures Plain(KeyBindings(), c)
  {
    var b := KeyBindings();
    KeyBindingsSame();
    hide KeyBindings;
    assert b == b[..7] + b[7..];
    assert b[0].field == PkDatabaseName && b[1].field == PkSchemaName && b[2].field == PkTableName;
    assert b[4].field == FkDatabaseName && b[5].field == FkSchemaName && b[6].field == FkTableName;
  }

  lemma KeyNames(exported: bool)
    ensures SameEnd(Relation()[0], FOREIGN_KEY, exported)
  {
    hide Record, KeyBindings, Plain;
    forall c | c in {PkDatabaseName, PkSchemaName, PkTableName, FkDatabaseName, FkSchemaName, FkTableName}
      ensures Get(Relation()[0], c) == Get(FOREIGN_KEY, c)
    {
      KeyBindingsPlain(c);
      RecordKeeps(KeyBindings(), FOREIGN_KEY, c);
    }
  }

  lemma ListsKeys(c: string, s: string, t: string, exported: bool)
    ensures Listing(Sample(), ForeignKeys(c, s, t, exported))
            == if EndsAt(exported, c, s, t)(Relation()[0]) then Relation() else []
  {
    AnswersForeignKeys(c, s, t, exported);
    KeyNames(exported);
    hide SampleAnswer, Record;
    var rows := Answer(Sample(), ForeignKeys(c, s, t, exported));
    assert Bindings(ForeignKeys(c, s, t, exported)) == KeyBindings();
    assert Listing(Sample(), ForeignKeys(c, s, t, exported)) == Records(KeyBindings(), rows);
  }

  /** Both ends of the key are listed once, and both listings show the key. */
  lemma SampleHasViews()
    ensures ViewsOf(Sample(), Relation())
  {
    hide Sample, AllCatalogs, Relation, Listing, ListedOnce, Lists, EndDatabase, EndSchema;
    SampleCurrent();
    ListsCatalogs();
    forall c: string, r | r in Listing(Sample(), Schemas(c, "")) ensures NameOf(r, SchemaName) != "" {
      SchemaNames(c);
    }
    forall exported: bool, c: string, s: string, t: string, k: Row
      ensures Lists(Sample(), Relation(), exported, c, s, t, k)
    {
      KeyListed(exported, c, s, t, k);
    }
    forall k, exported | k in Relation()
      ensures ListedOnce(Sample(), EndDatabase(k, exported), EndSchema(k, exported))
    {
      KeyEndsListedOnce(k, exported);
    }
  }

  lemma KeyListed(exported: bool, c: string, s: string, t: string, k: Row)
    ensures Lists(Sample(), Relation(), exported, c, s, t, k)
  {
    hide Sample, Record, Listing;
    ListsKeys(c, s, t, exported);
  }

  lemma KeyEndsListedOnce(k: Row, exported: bool)
    requires k in Relation()
    ensures ListedOnce(Sample(), EndDatabase(k, exported), EndSchema(k, exported))
  {
    hide Sample, Record, ListedOnce;
    KeyNames(exported);
    EndsListedOnce();
  }

  lemma EndsListedOnce()
    ensures ListedOnce(Sample(), "a", "s") && ListedOnce(Sample(), "b", "s")
  {
    ListsCatalogs();
    OneOfTwo("a");
    OneOfTwo("b");
    forall c | c in {"a", "b"} ensures |Filter(Listing(Sample(), Schemas(c, "")), KeyTheorems.SchemaNamed("s"))| == 1 {
      SchemaNames(c);
      FilterAll(Listing(Sample(), Schemas(c, "")), KeyTheorems.SchemaNamed("s"));
    }
  }

  lemma OneOfTwo(name: string)
    requires name == "a" || name == "b"
    ensures |Filter([Catalog("a"), Catalog("b")], CatalogNamed(name))| == 1
  {
    var all := [Catalog("a"), Catalog("b")];
    assert all[..1] == [Catalog("a")] && all[..1][..0] == [];
  }

  /** The mode hides the referencing end of the key and shows the referenced one. */
  lemma SampleSidesDiffer()
    ensures !SidesAgree(Sample(), Relation(), "", "", "p", "", "", "f", true)
  {
    hide Sample, Record;
    SampleCurrent();
    KeyNames(true);
    KeyNames(false);
    var key := Relation()[0];
    assert key in Relation();
    assert EndMatches(true, "", "", "p")(key) && EndMatches(false, "", "", "f")(key);
    assert EndVisible(Sample(), key, true, "", true) && !EndVisible(Sample(), key, false, "", true);
  }

  lemma SampleNamesShort()
    ensures AllShort(["", "", "p", "", "", "f"])
  {
  }

  /** In single-database mode the two ends can differ: asked for the keys between `p` and `f` without naming
      catalogs, `sqlForeignKeys` looks for `f` in the current database only and finds nothing, while the exported
      keys of `p` include the key. */
  lemma SingleModeSeparatesEnds()
    ensures ViewsOf(Sample(), Relation())
    ensures var spec := ForeignKeysSpec(Sample(), "", "", "p", "", "", "f", true);
            var exported := ExportedKeys(Sample(), "", "", "p", true).rows;
            spec.ok && multiset(spec.rows) != multiset(Filter(exported, EndMatches(false, "", "", "f")))
  {
    hide ForeignKeysSpec, ExportedKeys, ImportedKeys, Filter, Sample, ViewsOf, Relation, SidesAgree, AllShort;
    SampleHasViews();
    SampleNamesShort();
    SampleSidesDiffer();
    ForeignKeysFromEitherEnd(Sample(), Relation(), "", "", "p", "", "", "f", true);
  }

  // ---- Its texts fit ----

  ghost predicate Tiny(rows: seq<Row>) {
    forall r, c :: r in rows ==> |NameOf(r, c)| <= 1
  }

  lemma MatchingTiny(rows: seq<Row>, column: Column, pattern: string)
    requires Tiny(rows)
    ensures Tiny(Matching(rows, column, pattern))
  {
    forall r | r in Matching(rows, column, pattern) ensures r in rows {
      FilterMembers(rows, RowLike(column, pattern), r);
    }
  }

  lemma RowsAreTiny()
    ensures Tiny(DATABASES) && Tiny(SCHEMAS) && Tiny(TABLES) && Tiny(COLUMNS) && Tiny([FOREIGN_KEY])
  {
  }

  lemma AnswersAreTiny(text: string, values: seq<string>)
    ensures Tiny(SampleAnswer(text, values))
  {
    hide Tiny, Matching, EndsAt;
    RowsAreTiny();
    NoRowsTiny();
    if |values| > 0 {
      MatchingTiny(DATABASES, DatabaseName, values[|values| - 1]);
      MatchingTiny(SCHEMAS, SchemaName, values[|values| - 1]);
      MatchingTiny(TABLES, TableName, values[|values| - 1]);
      MatchingTiny(COLUMNS, ColumnName, values[|values| - 1]);
    }
  }

  lemma NoRowsTiny()
    ensures Tiny([])
  {
  }

  lemma BuffersHoldOne(r: Request)
    ensures forall i :: 0 <= i < |Bindings(r)| ==> Bindings(r)[i].capacity > 1
  {
  }

  lemma SampleFits()
    ensures AllFit(Sample())
  {
    forall r: Request ensures RowsFit(Bindings(r), Answer(Sample(), r)) {
      AnswersAreTiny(ShowRequests.Text(r), Values(r));
      BuffersHoldOne(r);
      hide SampleAnswer, ShowRequests.Text, Values, Bindings;
    }
  }
}
