/** The filter clause of the local table query: its text in fixed buffers, when that text reads back, and which rows it
    lets through. */
module TableClause {
  import opened Wrappers
  import opened SqlConditions
  import opened CatalogFilters
  import opened CutFilters
  import opened CStrings
  import opened TableTypes
  import LikePattern

  /** `getTableFilterClause` for the local query: the catalog, the schema, the table and the types. */
  method GetTableFilterClause(buffer: array<char>, single: bool, metadataId: bool,
                              catalog: array?<char>, cbCatalog: int, schema: array?<char>, cbSchema: int,
                              table: array?<char>, cbTable: int, types: array?<char>, cbTypes: int)
    requires buffer.Length > 0 && buffer !in {catalog, schema, table, types}
    requires catalog != null ==> ProperValue(catalog[..], cbCatalog)
    requires schema != null ==> ProperValue(schema[..], cbSchema)
    requires table != null ==> ProperValue(table[..], cbTable)
    requires types != null ==> ProperList(types[..], cbTypes)
    modifies buffer
    ensures Terminated(buffer[..])
    ensures CString(buffer[..]) ==
            Fitted(ClauseText(ValueText(catalog), if metadataId then Equal else Like, ValueText(schema),
                              ValueText(table), GivenList(types, cbTypes)), buffer.Length)
    ensures buffer.Length >= MAX_LARGE_TEMP_BUF_LEN && |Escape(ValueText(catalog))| <= 991
            && |ClauseText(ValueText(catalog), if metadataId then Equal else Like, ValueText(schema), ValueText(table),
                           GivenList(types, cbTypes))| <= buffer.Length ==>
              SelectsWhatIsAsked(CString(buffer[..]), metadataId, ValueText(catalog), ValueText(schema),
                                 ValueText(table), GivenList(types, cbTypes))
  {
    hide ChainText, ValueFilter, GivenFilter, GivenCatalog, ProperValue, Fitted, ClauseText, Escape, SelectsWhatIsAsked;
    var catalogFilter := new char[MAX_LARGE_TEMP_BUF_LEN];
    buffer[0] := '\0';
    CStringIs(buffer[..], "");
    GetCatalogFilterCondition(catalogFilter, single, catalog, cbCatalog, true, None);
    AppendFirst(buffer, CString(catalogFilter[..]));
    AddNames(buffer, CString(catalogFilter[..]), metadataId, schema, cbSchema, table, cbTable);
    AddTypesBehind(buffer, CString(catalogFilter[..])
                           + ChainText(ValueFilter("TABLE_SCHEM", if metadataId then Equal else Like, schema))
                           + ChainText(ValueFilter("TABLE_NAME", if metadataId then Equal else Like, table)),
                   types, cbTypes);
    FiltersOfTexts(catalog, if metadataId then Equal else Like, schema, table);
    ClauseByParts(ValueText(catalog), if metadataId then Equal else Like, ValueText(schema), ValueText(table),
                  GivenList(types, cbTypes));
    ClauseTextSelects(ValueText(catalog), metadataId, ValueText(schema), ValueText(table), GivenList(types, cbTypes),
                      buffer.Length);
  }

  /** The text of a value; a missing one is empty. */
  function ValueText(value: array?<char>): string
    reads value
  {
    if value == null then "" else CString(value[..])
  }

  lemma FiltersOfTexts(catalog: array?<char>, op: Comparison, schema: array?<char>, table: array?<char>)
    ensures GivenCatalog(true, None, catalog) == CatalogFilter(true, "", ValueText(catalog))
    ensures ValueFilter("TABLE_SCHEM", op, schema) == Filter("TABLE_SCHEM", op, ValueText(schema))
    ensures ValueFilter("TABLE_NAME", op, table) == Filter("TABLE_NAME", op, ValueText(table))
  {
  }

  method AddTypesBehind(buffer: array<char>, ghost before: string, types: array?<char>, cbTypes: int)
    requires Terminated(buffer[..]) && CString(buffer[..]) == Fitted(before, buffer.Length) && buffer != types
    requires types != null ==> ProperList(types[..], cbTypes)
    modifies buffer
    ensures Terminated(buffer[..])
    ensures CString(buffer[..]) == Fitted(before + GivenFilter(GivenList(types, cbTypes)), buffer.Length)
  {
    FittedTwice(before, CString(buffer[..]), GivenFilter(GivenList(types, cbTypes)), buffer.Length);
    AddTableTypeFilterCondition(buffer, types, cbTypes);
  }

  /** The conditions on the schema and the table. */
  method AddNames(buffer: array<char>, ghost before: string, metadataId: bool,
                  schema: array?<char>, cbSchema: int, table: array?<char>, cbTable: int)
    requires Terminated(buffer[..]) && CString(buffer[..]) == Fitted(before, buffer.Length)
    requires buffer !in {schema, table}
    requires schema != null ==> ProperValue(schema[..], cbSchema)
    requires table != null ==> ProperValue(table[..], cbTable)
    modifies buffer
    ensures Terminated(buffer[..])
    ensures CString(buffer[..]) ==
            Fitted(before
                   + ChainText(ValueFilter("TABLE_SCHEM", if metadataId then Equal else Like, schema))
                   + ChainText(ValueFilter("TABLE_NAME", if metadataId then Equal else Like, table)), buffer.Length)
  {
    hide ChainText, ValueFilter, ProperValue, Fitted;
    ghost var first := ChainText(ValueFilter("TABLE_SCHEM", if metadataId then Equal else Like, schema));
    ghost var second := ChainText(ValueFilter("TABLE_NAME", if metadataId then Equal else Like, table));
    TableColumns();
    FittedTwice(before, CString(buffer[..]), first, buffer.Length);
    AddLikeOrEqualFilterCondition(buffer, metadataId, "TABLE_SCHEM", schema, cbSchema);
    FittedTwice(before + first, CString(buffer[..]), second, buffer.Length);
    AddLikeOrEqualFilterCondition(buffer, metadataId, "TABLE_NAME", table, cbTable);
  }

  lemma TableColumns()
    ensures IsColumn("TABLE_SCHEM") && IsColumn("TABLE_NAME")
  {
  }

  /** The condition that a list of types adds. */
  function TypeChain(list: Option<string>): Chain {
    if list.None? then [] else [AnyOf(Conditions(Listed(list.value)))]
  }

  lemma TypesReadBack(chain: Chain, list: Option<string>)
    requires forall a :: a in chain ==> AtomOk(a)
    ensures Read(ChainText(chain) + GivenFilter(list)) == Some(chain + TypeChain(list))
  {
    if list.Some? {
      ConditionsOk(Listed(list.value));
      FilterReadsBack(chain, Conditions(Listed(list.value)));
    } else {
      ChainReadsBack(chain);
      assert ChainText(chain) + "" == ChainText(chain);
      assert chain + [] == chain;
    }
  }

  /** Text that adds one condition, in front of text that reads as a chain. */
  lemma ReadsBehind(text: string, a: Atom, rest: string, chain: Chain)
    requires Lex(text + rest) == Prepend([Word("AND")] + AtomTokens(a), Lex(rest)) && AtomOk(a)
    requires Read(rest) == Some(chain)
    ensures Read(text + rest) == Some([a] + chain)
  {
    hide ParseAtom;
    var ts := Lex(rest).value;
    ParsesAtom(a, ts);
    assert ([Word("AND")] + AtomTokens(a) + ts)[1..] == AtomTokens(a) + ts;
  }

  /** The text of one condition, with or without its last blank, in front of the rest of the clause. */
  lemma FirstReadsBack(a: Atom, blank: string, rest: string, chain: Chain)
    requires AtomOk(a) && Boundary(rest) && Read(rest) == Some(chain) && blank in {"", " "}
    ensures Read(" AND " + AtomText(a) + blank + rest) == Some([a] + chain)
  {
    hide Read, AtomText, Lex, AtomOk;
    ThreeParts(" AND ", AtomText(a), blank, rest);
    TwoParts(AtomText(a), blank, rest);
    if blank == " " {
      LexChar(' ', rest);
    } else {
      assert "" + rest == rest;
    }
    LexAtom(a, blank + rest);
    LexAnd(AtomText(a) + (blank + rest));
    PrependTwice(AtomTokens(a), [], Lex(rest));
    assert AtomTokens(a) + [] == AtomTokens(a);
    PrependTwice([Word("AND")], AtomTokens(a), Lex(rest));
    ReadsBehind(" AND " + AtomText(a) + blank, a, rest, chain);
  }

  /** The part of the clause behind the catalog. */
  function TableText(second: Chain, third: Chain, list: Option<string>): string {
    ChainText(second) + ChainText(third) + GivenFilter(list)
  }

  lemma StartsWithBlank(chain: Chain)
    ensures Boundary(ChainText(chain))
  {
  }

  lemma TableTextReadsBack(op: Comparison, schema: string, table: string, list: Option<string>)
    ensures var second, third := Filter("TABLE_SCHEM", op, schema), Filter("TABLE_NAME", op, table);
            && Read(TableText(second, third, list)) == Some(second + third + TypeChain(list))
            && Boundary(TableText(second, third, list))
  {
    hide Read, ChainText, GivenFilter, IsColumn, Conditions;
    TableColumns();
    var second, third := Filter("TABLE_SCHEM", op, schema), Filter("TABLE_NAME", op, table);
    ChainTextConcat(second, third);
    assert forall a :: a in second + third ==> AtomOk(a);
    TypesReadBack(second + third, list);
    StartsWithBlank(second + third);
    BlankFirst(list);
  }

  lemma BlankFirst(list: Option<string>)
    ensures Boundary(GivenFilter(list))
  {
  }

  /** The text of the catalog condition, cut to its buffer, is whole or lacks its last blank. */
  lemma CatalogCut(catalog: string)
    requires catalog != "" && |Escape(catalog)| <= 991
    ensures exists blank :: blank in {"", " "} &&
              Fitted(ChainText(CatalogFilter(true, "", catalog)), MAX_LARGE_TEMP_BUF_LEN)
              == " AND " + AtomText(CurrentDatabase(Like, catalog)) + blank
  {
    hide Escape, DatabaseHead;
    CatalogText(catalog);
    var bare := " AND " + AtomText(CurrentDatabase(Like, catalog));
    assert bare + "" == bare;
    assert ChainText([CurrentDatabase(Like, catalog)]) == bare + " ";
  }

  /** The clause before it is cut to its own buffer. */
  function ClauseText(catalog: string, op: Comparison, schema: string, table: string, list: Option<string>): string {
    Fitted(ChainText(CatalogFilter(true, "", catalog)), MAX_LARGE_TEMP_BUF_LEN)
    + ChainText(Filter("TABLE_SCHEM", op, schema)) + ChainText(Filter("TABLE_NAME", op, table)) + GivenFilter(list)
  }

  /** The conditions that the arguments ask for. */
  function ClauseChain(catalog: string, op: Comparison, schema: string, table: string, list: Option<string>): Chain {
    CatalogFilter(true, "", catalog) + Filter("TABLE_SCHEM", op, schema) + Filter("TABLE_NAME", op, table)
    + TypeChain(list)
  }

  lemma ClauseParts(catalog: string, op: Comparison, schema: string, table: string, list: Option<string>)
    ensures var second, third := Filter("TABLE_SCHEM", op, schema), Filter("TABLE_NAME", op, table);
            var first, text := CatalogFilter(true, "", catalog), ClauseText(catalog, op, schema, table, list);
            && text == Fitted(ChainText(first), MAX_LARGE_TEMP_BUF_LEN) + TableText(second, third, list)
            && ClauseChain(catalog, op, schema, table, list) == first + (second + third + TypeChain(list))
  {
    hide ChainText, Filter, GivenFilter, TypeChain, CatalogFilter, Fitted;
  }

  lemma WholeClauseReadsBack(catalog: string, op: Comparison, schema: string, table: string, list: Option<string>)
    requires |Escape(catalog)| <= 991
    ensures Read(ClauseText(catalog, op, schema, table, list)) == Some(ClauseChain(catalog, op, schema, table, list))
  {
    hide Read, ChainText, GivenFilter, Escape, AtomText, Conditions, TableText, ClauseText, ClauseChain, TypeChain;
    var second, third := Filter("TABLE_SCHEM", op, schema), Filter("TABLE_NAME", op, table);
    var rest, chain := TableText(second, third, list), second + third + TypeChain(list);
    var start := Fitted(ChainText(CatalogFilter(true, "", catalog)), MAX_LARGE_TEMP_BUF_LEN);
    ClauseParts(catalog, op, schema, table, list);
    TableTextReadsBack(op, schema, table, list);
    if catalog != "" {
      var a := CurrentDatabase(Like, catalog);
      CatalogCut(catalog);
      var blank :| blank in {"", " "} && start == " AND " + AtomText(a) + blank;
      FirstReadsBack(a, blank, rest, chain);
    } else {
      NoConditions();
      assert "" + rest == rest && [] + chain == chain;
    }
  }

  lemma NoConditions()
    ensures ChainText([]) == ""
  {
  }

  /** The text ends in one blank. */
  predicate OneBlank(s: string) {
    |s| >= 2 && s[|s| - 1] == ' ' && s[|s| - 2] != ' '
  }

  lemma FilterEndsInBlank(column: string, op: Comparison, v: string)
    ensures v != "" ==> OneBlank(ChainText(Filter(column, op, v)))
    ensures v == "" ==> ChainText(Filter(column, op, v)) == ""
  {
    hide Escape, OpText;
    if v != "" {
      ClauseIsChainText(column, op, v);
    }
  }

  lemma TypesEndInBlank(list: Option<string>)
    ensures GivenFilter(list) == "" || OneBlank(GivenFilter(list))
  {
  }

  lemma TableTextEndsInBlank(op: Comparison, schema: string, table: string, list: Option<string>)
    ensures var rest := TableText(Filter("TABLE_SCHEM", op, schema), Filter("TABLE_NAME", op, table), list);
            rest == "" || OneBlank(rest)
  {
    hide ChainText, GivenFilter, Filter;
    FilterEndsInBlank("TABLE_SCHEM", op, schema);
    FilterEndsInBlank("TABLE_NAME", op, table);
    TypesEndInBlank(list);
  }

  /** Behind a catalog condition that was cut inside its literal, the clause says something else, cut or not. */
  lemma CutClauseDiffers(catalog: string, op: Comparison, schema: string, table: string, list: Option<string>,
                         capacity: nat)
    requires capacity >= MAX_LARGE_TEMP_BUF_LEN && |Escape(catalog)| > 991
    ensures Read(Fitted(ClauseText(catalog, op, schema, table, list), capacity))
            != Some(ClauseChain(catalog, op, schema, table, list))
  {
    hide Read, ChainText, GivenFilter, Escape, Conditions, TableText, ClauseText, ClauseChain, TypeChain, DatabaseHead;
    var second, third := Filter("TABLE_SCHEM", op, schema), Filter("TABLE_NAME", op, table);
    var rest, chain := TableText(second, third, list), second + third + TypeChain(list);
    var e, text := Escape(catalog), ClauseText(catalog, op, schema, table, list);
    ClauseParts(catalog, op, schema, table, list);
    TableTextReadsBack(op, schema, table, list);
    NothingEscaped();
    CatalogText(catalog);
    var start := " AND " + (DatabaseHead(Like) + ("'" + e[..992]));
    assert text == start + rest;
    var n := if |text| < capacity then |rest| else capacity - 1 - |start|;
    assert Fitted(text, capacity) == start + rest[..n];
    assert start + rest[..n] == " AND " + (DatabaseHead(Like) + ("'" + (e[..992] + rest[..n])));
    CutLiteral(catalog, 992, rest, n, chain);
  }

  lemma NothingEscaped()
    ensures Escape("") == ""
  {
  }

  lemma CutWholeClause(catalog: string, op: Comparison, schema: string, table: string, list: Option<string>,
                       capacity: nat)
    requires capacity >= MAX_LARGE_TEMP_BUF_LEN && |Escape(catalog)| <= 991
    ensures var text := ClauseText(catalog, op, schema, table, list);
            var chain := ClauseChain(catalog, op, schema, table, list);
            Read(Fitted(text, capacity)) == Some(chain) <==> |text| <= capacity
  {
    hide Read, ChainText, GivenFilter, Escape, Conditions, TableText, ClauseText, ClauseChain, TypeChain;
    var text, chain := ClauseText(catalog, op, schema, table, list), ClauseChain(catalog, op, schema, table, list);
    WholeClauseReadsBack(catalog, op, schema, table, list);
    if |text| >= capacity {
      var n := capacity - 1;
      ClauseParts(catalog, op, schema, table, list);
      TableTextEndsInBlank(op, schema, table, list);
      assert OneBlank(text);
      CutReadsBackIff(text, n, chain);
      if |text| > capacity {
        assert text[n..][|text| - 2 - n] != ' ';
      }
    }
  }

  /** The clause reads back as the conditions asked for, on the connected database, the schema, the table and the
      types, whatever the names are, if and only if the escaped catalog name has at most 991 characters and the
      clause is cut by no more than its last blank. */
  lemma TableClauseReadsBackIff(catalog: string, op: Comparison, schema: string, table: string, list: Option<string>,
                                capacity: nat)
    requires capacity >= MAX_LARGE_TEMP_BUF_LEN
    ensures var text := ClauseText(catalog, op, schema, table, list);
            var chain := ClauseChain(catalog, op, schema, table, list);
            Read(Fitted(text, capacity)) == Some(chain) <==> |Escape(catalog)| <= 991 && |text| <= capacity
  {
    hide Read, Escape, ClauseText, ClauseChain;
    if |Escape(catalog)| > 991 {
      CutClauseDiffers(catalog, op, schema, table, list, capacity);
    } else {
      CutWholeClause(catalog, op, schema, table, list, capacity);
    }
  }

  // Which rows pass

  /** The row has the columns that the clause looks at. */
  predicate HasColumns(row: Columns) {
    {CURRENT_DATABASE, "TABLE_SCHEM", "TABLE_NAME", "c.relkind", "n.nspname"} <= row.Keys
  }

  /** What the caller asked for: the connected database in the LIKE language of the catalog, the schema and the table in
      theirs, or equal with the attribute set, and one of the listed types, if any list is given. */
  ghost predicate RowPasses(row: Columns, metadataId: bool, catalog: string, schema: string, table: string,
                            list: Option<string>)
    requires HasColumns(row)
  {
    && NamePasses(row[CURRENT_DATABASE], catalog, false)
    && NamePasses(row["TABLE_SCHEM"], schema, metadataId)
    && NamePasses(row["TABLE_NAME"], table, metadataId)
    && (list.Some? ==> exists t :: NamesType(list.value, t) && Selects(t, row["c.relkind"], row["n.nspname"]))
  }

  lemma ChainHoldsConcat(first: Chain, second: Chain, row: Columns)
    ensures ChainHolds(first + second, row) <==> ChainHolds(first, row) && ChainHolds(second, row)
  {
  }

  lemma CatalogHolds(catalog: string, row: Columns)
    requires CURRENT_DATABASE in row
    ensures ChainHolds(CatalogFilter(true, "", catalog), row) <==> NamePasses(row[CURRENT_DATABASE], catalog, false)
  {
    var chain := CatalogFilter(true, "", catalog);
    LikePattern.AcceptsIffInLanguage(LikePattern.Tokens(catalog), row[CURRENT_DATABASE]);
    assert catalog != "" ==> chain[0] in chain;
  }

  lemma TypesHold(list: Option<string>, row: Columns)
    requires "c.relkind" in row && "n.nspname" in row
    ensures ChainHolds(TypeChain(list), row) <==>
            (list.Some? ==> exists t :: NamesType(list.value, t) && Selects(t, row["c.relkind"], row["n.nspname"]))
  {
    if list.Some? {
      var k, n := row["c.relkind"], row["n.nspname"];
      var choice := AnyOf(Conditions(Listed(list.value)));
      FilterSelects([], list.value, k, n);
      ChoiceColumns(Listed(list.value));
      AtomLooksAt(choice, Row(k, n), row);
      assert TypeChain(list)[0] == choice;
      hide AtomHolds;
      assert ChainHolds(TypeChain(list), row) <==> AtomHolds(choice, row);
    }
  }

  lemma ChoiceColumns(types: seq<TableType>)
    ensures AtomColumns(AnyOf(Conditions(types))) <= {"c.relkind", "n.nspname"}
  {
    var cs := Conditions(types);
    forall i | 0 <= i < |cs| ensures ConjunctionColumns(cs[i]) <= {"c.relkind", "n.nspname"} {
      ConditionColumns(types[i]);
    }
    assert ConjunctionColumns(One(False)) == AtomColumns(False) == {};
    if cs != [] {
      AlternativeColumns(cs, {"c.relkind", "n.nspname"});
      assert AtomColumns(AnyOf(cs)) == DisjunctionColumns(Either(One(False), Alternatives(cs)));
    } else {
      assert AtomColumns(AnyOf(cs)) == DisjunctionColumns(Just(One(False)));
    }
  }

  lemma {:induction false} AlternativeColumns(cs: seq<Conjunction>, columns: set<string>)
    requires cs != [] && forall i :: 0 <= i < |cs| ==> ConjunctionColumns(cs[i]) <= columns
    ensures DisjunctionColumns(Alternatives(cs)) <= columns
  {
    var first := Group(Just(cs[0]));
    assert ConjunctionColumns(One(first)) == AtomColumns(first) == DisjunctionColumns(Just(cs[0]));
    assert DisjunctionColumns(Just(cs[0])) == ConjunctionColumns(cs[0]);
    if |cs| > 1 {
      AlternativeColumns(cs[1..], columns);
      assert Alternatives(cs) == Either(One(first), Alternatives(cs[1..]));
    } else {
      assert Alternatives(cs) == Just(One(first));
    }
  }

  lemma ConditionColumns(t: TableType)
    ensures ConjunctionColumns(Condition(t)) <= {"c.relkind", "n.nspname"}
  {
  }

  /** The conditions of the clause let exactly those rows through that the caller asked for. */
  lemma ClauseSelects(catalog: string, metadataId: bool, schema: string, table: string, list: Option<string>,
                      row: Columns)
    requires HasColumns(row)
    ensures ChainHolds(ClauseChain(catalog, if metadataId then Equal else Like, schema, table, list), row) <==>
            RowPasses(row, metadataId, catalog, schema, table, list)
  {
    hide ChainHolds, NamePasses, CatalogFilter, Filter, TypeChain, NamesType, Selects, CURRENT_DATABASE;
    var op := if metadataId then Equal else Like;
    var first := CatalogFilter(true, "", catalog);
    var second, third := Filter("TABLE_SCHEM", op, schema), Filter("TABLE_NAME", op, table);
    CatalogHolds(catalog, row);
    FilterHolds("TABLE_SCHEM", metadataId, schema, row);
    FilterHolds("TABLE_NAME", metadataId, table, row);
    TypesHold(list, row);
    ChainHoldsConcat(first, second, row);
    ChainHoldsConcat(first + second, third, row);
    ChainHoldsConcat(first + second + third, TypeChain(list), row);
  }

  /** The text reads as conditions that let exactly those rows through that the caller asked for. */
  ghost predicate SelectsWhatIsAsked(text: string, metadataId: bool, catalog: string, schema: string, table: string,
                                     list: Option<string>)
  {
    && Read(text).Some?
    && forall row: Columns :: HasColumns(row) ==>
         (ChainHolds(Read(text).value, row) <==> RowPasses(row, metadataId, catalog, schema, table, list))
  }

  /** A clause that reads back lets exactly those rows through that the caller asked for. */
  lemma ClauseTextSelects(catalog: string, metadataId: bool, schema: string, table: string, list: Option<string>,
                          capacity: nat)
    ensures var text := ClauseText(catalog, if metadataId then Equal else Like, schema, table, list);
            capacity >= MAX_LARGE_TEMP_BUF_LEN && |Escape(catalog)| <= 991 && |text| <= capacity ==>
              SelectsWhatIsAsked(Fitted(text, capacity), metadataId, catalog, schema, table, list)
  {
    hide Read, ClauseText, ClauseChain, ChainHolds, RowPasses, Escape;
    if capacity >= MAX_LARGE_TEMP_BUF_LEN {
      TableClauseReadsBackIff(catalog, if metadataId then Equal else Like, schema, table, list, capacity);
    }
    forall row: Columns | HasColumns(row)
      ensures ChainHolds(ClauseChain(catalog, if metadataId then Equal else Like, schema, table, list), row) <==>
              RowPasses(row, metadataId, catalog, schema, table, list)
    {
      ClauseSelects(catalog, metadataId, schema, table, list, row);
    }
  }

  lemma ClauseByParts(catalog: string, op: Comparison, schema: string, table: string, list: Option<string>)
    ensures ClauseText(catalog, op, schema, table, list)
            == Fitted(ChainText(CatalogFilter(true, "", catalog)), MAX_LARGE_TEMP_BUF_LEN)
               + ChainText(Filter("TABLE_SCHEM", op, schema)) + ChainText(Filter("TABLE_NAME", op, table))
               + GivenFilter(list)
  {
  }
}
