/** What `sqlProcedureColumns` yields: the parameters of procedures and functions. */
module ParameterTheorems {
  import opened Wrappers
  import opened ServerModel
  import opened StatementHandle
  import opened Outcomes
  import opened Sequences
  import opened Ordering
  import opened ShowRequests
  import opened ShowOutcomes
  import opened SearchOutcomes
  import opened Comprehension
  import opened Visits
  import opened RoutineTheorems
  import Arguments = ArgumentList
  import DataTypeNames
  import Placeholders

  // ---- When a routine can be asked ----

  /** An argument list that names valid types, each written out. */
  ghost predicate IsTypeList(list: string, args: seq<string>) {
    && Arguments.Clean(args)
    && (list == Placeholders.Join(args) || (args != [] && list == Placeholders.Join(args) + ", "))
    && forall k :: 0 <= k < |args| ==> DataTypeNames.IsValidType(args[k])
  }

  ghost predicate HasTypeList(list: string) {
    exists args: seq<string> :: IsTypeList(list, args)
  }

  lemma TypeListIff(list: string, base: string, pattern: string)
    ensures Arguments.Parameterized(list, base, pattern).Ok? <==> HasTypeList(list)
  {
    hide DataTypeNames.IsValidType;
    if Arguments.Parameterized(list, base, pattern).Ok? {
      var (q, args) := Arguments.Parameterized(list, base, pattern).value;
      Arguments.AcceptedList(list, base, pattern, q, args);
      Arguments.AcceptedIff(list, base, pattern, args);
      assert IsTypeList(list, args);
    }
    forall args: seq<string> | IsTypeList(list, args) ensures Arguments.Parameterized(list, base, pattern).Ok? {
      Arguments.AcceptedIff(list, base, pattern, args);
    }
  }

  /** The routine can be asked for its parameters. */
  ghost predicate RoutineAnswers(routine: Row) {
    NameOf(routine, RoutineName) != "" && HasTypeList(NameOf(routine, ArgumentList))
  }

  lemma RoutineOkIff(server: Server, c: string, s: string, routine: Row, pattern: string)
    requires c != "" && s != ""
    ensures RoutineColumns(server, c, s, routine, pattern).ok <==> RoutineAnswers(routine)
  {
    hide Arguments.Parameterized, Listing, HasTypeList;
    TypeListIff(NameOf(routine, ArgumentList), RoutineBase(IsProcedure(routine)), pattern);
  }

  function ParametersAt(server: Server, pattern: string, columnPattern: string): Path -> seq<Row> {
    (p: Path) => FlatMap(BlockAt(server, pattern)(p), RowsOf(AtRoutine(server, p.catalog, SchemaOf(p), columnPattern)))
  }

  /** All routines of the schema can be asked. */
  ghost predicate SchemaAnswers(server: Server, p: Path, pattern: string) {
    forall routine :: routine in RoutinesIn(server, p.catalog, SchemaOf(p), pattern) ==> RoutineAnswers(routine)
  }

  lemma SchemaOkIff(server: Server, p: Path, pattern: string, columnPattern: string)
    ensures var leaf := SchemaLeafAt(server, RoutineColumnsOf(pattern, columnPattern))(p);
            && (leaf.ok <==> p.catalog != "" && SchemaOf(p) != "" && SchemaAnswers(server, p, pattern))
            && (leaf.ok ==> leaf.rows == ParametersAt(server, pattern, columnPattern)(p))
  {
    hide *;
    LeafIsRoutineLoop(server, p, pattern, columnPattern);
    if p.catalog != "" && SchemaOf(p) != "" {
      RoutineLoop(server, p.catalog, SchemaOf(p), pattern, columnPattern);
      AnswersByBlock(server, p, pattern);
    }
  }

  lemma LeafIsRoutineLoop(server: Server, p: Path, pattern: string, columnPattern: string)
    ensures var block := RoutineBlock(server, p.catalog, SchemaOf(p), pattern);
            var f := AtRoutine(server, p.catalog, SchemaOf(p), columnPattern);
            && SchemaLeafAt(server, RoutineColumnsOf(pattern, columnPattern))(p) == Over(block, f)
            && (p.catalog == "" || SchemaOf(p) == "" ==> !Over(block, f).ok)
            && ParametersAt(server, pattern, columnPattern)(p) == FlatMap(block.rows, RowsOf(f))
  {
    hide *;
    LoopByDefinition(server, p, pattern, columnPattern);
    RowsByDefinition(server, p, pattern, columnPattern);
    if p.catalog == "" || SchemaOf(p) == "" {
      NoBlock(server, p.catalog, SchemaOf(p), pattern, AtRoutine(server, p.catalog, SchemaOf(p), columnPattern));
    }
  }

  lemma LoopByDefinition(server: Server, p: Path, pattern: string, columnPattern: string)
    ensures SchemaLeafAt(server, RoutineColumnsOf(pattern, columnPattern))(p)
            == Over(RoutineBlock(server, p.catalog, SchemaOf(p), pattern),
                    AtRoutine(server, p.catalog, SchemaOf(p), columnPattern))
  {
    hide RoutineBlock, AtRoutine, Over, ForEach, FlatMap;
  }

  lemma RowsByDefinition(server: Server, p: Path, pattern: string, columnPattern: string)
    ensures ParametersAt(server, pattern, columnPattern)(p)
            == FlatMap(RoutineBlock(server, p.catalog, SchemaOf(p), pattern).rows,
                       RowsOf(AtRoutine(server, p.catalog, SchemaOf(p), columnPattern)))
  {
    assert BlockAt(server, pattern)(p) == RoutineBlock(server, p.catalog, SchemaOf(p), pattern).rows;
  }

  /** Only named catalogs and schemas have routines. */
  lemma NoBlock(server: Server, c: string, s: string, pattern: string, f: Row -> Outcome<Row>)
    requires c == "" || s == ""
    ensures !Over(RoutineBlock(server, c, s, pattern), f).ok
  {
    hide Listing, Tagged, ForEach;
  }

  lemma AnswersByBlock(server: Server, p: Path, pattern: string)
    requires p.catalog != "" && SchemaOf(p) != ""
    ensures SchemaAnswers(server, p, pattern) <==>
            forall r :: r in RoutineBlock(server, p.catalog, SchemaOf(p), pattern).rows ==> RoutineAnswers(r)
  {
    hide RoutineAnswers, RoutineBlock, RoutinesIn;
    BlockMembers(server, p.catalog, SchemaOf(p), pattern);
  }

  lemma RoutineLoop(server: Server, c: string, s: string, pattern: string, columnPattern: string)
    requires c != "" && s != ""
    ensures var block := RoutineBlock(server, c, s, pattern);
            var f := AtRoutine(server, c, s, columnPattern);
            && (Over(block, f).ok <==> forall r :: r in block.rows ==> RoutineAnswers(r))
            && (Over(block, f).ok ==> Over(block, f).rows == FlatMap(block.rows, RowsOf(f)))
  {
    hide RoutineAnswers;
    var block := RoutineBlock(server, c, s, pattern);
    var f := AtRoutine(server, c, s, columnPattern);
    assert block.ok;
    ForEachOkIff(block.rows, f);
    forall routine: Row ensures f(routine).ok <==> RoutineAnswers(routine) {
      RoutineOkIff(server, c, s, routine, columnPattern);
    }
  }

  lemma BlockMembers(server: Server, c: string, s: string, pattern: string)
    requires c != "" && s != ""
    ensures forall r :: r in RoutineBlock(server, c, s, pattern).rows <==> r in RoutinesIn(server, c, s, pattern)
  {
    hide Listing, Tagged;
    var all := RoutinesIn(server, c, s, pattern);
    var block := server.byRoutineName(all);
    assert multiset(block) == multiset(all);
    forall r: Row ensures r in block <==> r in all {
      assert r in block <==> r in multiset(block);
      assert r in all <==> r in multiset(all);
    }
  }

  // ---- What is asked about each routine ----

  lemma OneTypeList(list: string, a: seq<string>, b: seq<string>)
    requires IsTypeList(list, a) && IsTypeList(list, b)
    ensures a == b
  {
    hide DataTypeNames.IsValidType;
    Arguments.SplitIffJoin(list, a);
    Arguments.SplitIffJoin(list, b);
  }

  /** The rows are the answer to SHOW PARAMETERS of this procedure, or of this function, with the types of its argument
      list. */
  ghost predicate AnswersFor(server: Server, c: string, s: string, routine: Routine, columnPattern: string,
                             rows: seq<Row>)
  {
    exists args: seq<string> ::
      && IsTypeList(NameOf(routine.row, ArgumentList), args)
      && rows == Listing(server, Parameters(c, s, NameOf(routine.row, RoutineName), args, columnPattern,
                                            routine.Procedure?))
  }

  /** There is one answer for a routine. */
  lemma OneAnswer(server: Server, c: string, s: string, routine: Routine, columnPattern: string, rows: seq<Row>,
                  others: seq<Row>)
    requires AnswersFor(server, c, s, routine, columnPattern, rows)
    requires AnswersFor(server, c, s, routine, columnPattern, others)
    ensures rows == others
  {
    hide IsTypeList, Listing;
    forall a: seq<string>, b: seq<string> |
      IsTypeList(NameOf(routine.row, ArgumentList), a) && IsTypeList(NameOf(routine.row, ArgumentList), b)
      ensures a == b
    {
      OneTypeList(NameOf(routine.row, ArgumentList), a, b);
    }
  }

  lemma RoutineIsAsked(server: Server, c: string, s: string, routine: Routine, tagged: Row, columnPattern: string)
    requires c != "" && s != "" && RoutineAnswers(tagged) && IsTagged(routine, tagged)
    ensures AnswersFor(server, c, s, routine, columnPattern, RoutineColumns(server, c, s, tagged, columnPattern).rows)
  {
    hide Listing, DataTypeNames.IsValidType, RoutineBase;
    var list := NameOf(tagged, ArgumentList);
    assert list == NameOf(routine.row, ArgumentList) && NameOf(tagged, RoutineName) == NameOf(routine.row, RoutineName);
    assert IsProcedure(tagged) == routine.Procedure?;
    var base := RoutineBase(routine.Procedure?);
    var args: seq<string> :| IsTypeList(list, args);
    Arguments.AcceptedIff(list, base, columnPattern, args);
  }

  function Concatenation(parts: seq<seq<Row>>): seq<Row> {
    if parts == [] then [] else Concatenation(parts[..|parts| - 1]) + parts[|parts| - 1]
  }

  lemma {:induction false} ConcatenationOfMap(rows: seq<Row>, f: Row -> seq<Row>)
    ensures Concatenation(Map(rows, f)) == FlatMap(rows, f)
  {
    if rows != [] {
      var n := |rows| - 1;
      ConcatenationOfMap(rows[..n], f);
      assert Map(rows, f)[..n] == Map(rows[..n], f);
    }
  }

  /** The answers for exactly the routines that SHOW PROCEDURES and SHOW FUNCTIONS list, one after the other in the
      order of the block. */
  ghost predicate ListsParameters(server: Server, p: Path, pattern: string, columnPattern: string, rows: seq<Row>) {
    exists order: seq<Routine>, parts: seq<seq<Row>> ::
      && ShowsRoutines(server, p.catalog, SchemaOf(p), pattern, order, BlockAt(server, pattern)(p))
      && AllAnswered(server, p.catalog, SchemaOf(p), order, columnPattern, parts)
      && rows == Concatenation(parts)
  }

  ghost predicate AllAnswered(server: Server, c: string, s: string, order: seq<Routine>, columnPattern: string,
                              parts: seq<seq<Row>>)
  {
    |parts| == |order| && forall i :: 0 <= i < |order| ==> AnswersFor(server, c, s, order[i], columnPattern, parts[i])
  }

  lemma ParametersAreListed(server: Server, p: Path, pattern: string, columnPattern: string)
    requires p.catalog != "" && SchemaOf(p) != "" && SchemaAnswers(server, p, pattern)
    ensures ListsParameters(server, p, pattern, columnPattern, ParametersAt(server, pattern, columnPattern)(p))
  {
    hide RoutineAnswers, RoutinesIn, AnswersFor, ShowsRoutines, RoutineBlock, RoutineColumns, SchemaAnswers, IsTagged;
    var c, s := p.catalog, SchemaOf(p);
    var block := RoutineBlock(server, c, s, pattern).rows;
    var f := RowsOf(AtRoutine(server, c, s, columnPattern));
    AnswersByBlock(server, p, pattern);
    var order := BlockShowsRoutines(server, c, s, pattern);
    TaggedEach(server, c, s, pattern, order, block);
    forall i | 0 <= i < |order| ensures AnswersFor(server, c, s, order[i], columnPattern, Map(block, f)[i]) {
      RoutineIsAsked(server, c, s, order[i], block[i], columnPattern);
    }
    RowsByDefinition(server, p, pattern, columnPattern);
    ConcatenationOfMap(block, f);
    assert BlockAt(server, pattern)(p) == block;
    assert AllAnswered(server, c, s, order, columnPattern, Map(block, f));
  }

  /** `sqlProcedureColumns` succeeds exactly when the catalogs can be listed, nothing visited is without a name, and
      every routine listed on the way has a name and an argument list of valid types. It then appends, schema by schema
      and in the order of the sorted blocks, the answer to SHOW PARAMETERS OF PROCEDURE for each row of SHOW
      PROCEDURES and to SHOW PARAMETERS OF FUNCTION for each row of SHOW FUNCTIONS. */
  lemma ProcedureColumnsYield(server: Server, catalog: string, schema: string, pattern: string, columnPattern: string,
                              single: bool)
    ensures var search := RoutinesSearch(catalog, schema, RoutineColumnsOf(pattern, columnPattern), single);
            var result := SearchOutcome(server, search);
            && (result.ok <==>
                && CatalogsVisited(server, search).ok
                && (forall c :: c in CatalogsVisited(server, search).rows ==> c.name != "")
                && (forall p :: p in VisitedSchemas(server, search) ==>
                     SchemaOf(p) != "" && SchemaAnswers(server, p, pattern)))
            && (result.ok ==>
                && result.rows == FlatMap(VisitedSchemas(server, search), ParametersAt(server, pattern, columnPattern))
                && forall p :: p in VisitedSchemas(server, search) ==>
                     ListsParameters(server, p, pattern, columnPattern,
                                     ParametersAt(server, pattern, columnPattern)(p)))
  {
    hide SearchOutcome, VisitedSchemas, CatalogsVisited, SchemaAnswers, SchemaLeafAt, ParametersAt, ListsParameters;
    var search := RoutinesSearch(catalog, schema, RoutineColumnsOf(pattern, columnPattern), single);
    var leaf := SchemaLeafAt(server, search.leaf);
    SearchOkIff(server, search);
    SchemaListsOkIff(server, search);
    forall p | p in VisitedSchemas(server, search)
      ensures exists c :: c in CatalogsVisited(server, search).rows && c.name == p.catalog
      ensures leaf(p).ok <==> p.catalog != "" && SchemaOf(p) != "" && SchemaAnswers(server, p, pattern)
      ensures leaf(p).ok ==> RowsOf(leaf)(p) == ParametersAt(server, pattern, columnPattern)(p)
    {
      var c := SchemaParent(server, search, p);
      SchemaOkIff(server, p, pattern, columnPattern);
    }
    if SearchOutcome(server, search).ok {
      FlatMapEqual(VisitedSchemas(server, search), RowsOf(leaf), ParametersAt(server, pattern, columnPattern));
      forall p | p in VisitedSchemas(server, search)
        ensures ListsParameters(server, p, pattern, columnPattern, ParametersAt(server, pattern, columnPattern)(p))
      {
        ParametersAreListed(server, p, pattern, columnPattern);
      }
    }
  }
}
