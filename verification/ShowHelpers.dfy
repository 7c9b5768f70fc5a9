/** The Show helpers: each makes one request on the shared handle and turns the result rows into records. */
module ShowHelpers {
  import opened Wrappers
  import opened ServerModel
  import opened StatementHandle
  import opened Outcomes
  import opened ShowRequests
  import opened Sequences
  import opened ShowOutcomes
  import opened Ordering
  import LikeToRegex
  import ArgumentList
  import Placeholders

  /** A growing list that callers pass by reference. */
  class Vector<T> {
    var items: seq<T>

    constructor ()
      ensures items == []
    {
      items := [];
    }

    method Clear()
      modifies this
      ensures items == []
    {
      items := [];
    }
  }

  /** An execution that binds exactly the parameters of some request, 1 to n in order, and no column. */
  ghost predicate Proper(e: Execution) {
    exists r: Request :: e == Execution(ShowRequests.Text(r), Numbered(Values(r)), {})
  }

  ghost predicate AllProper(log: seq<Execution>) {
    log == [] || (AllProper(log[..|log| - 1]) && Proper(log[|log| - 1]))
  }

  /** The handle between two runs: no column is bound, and every execution so far was proper. */
  ghost predicate Idle(stmt: Statement)
    reads stmt
  {
    stmt.Valid() && stmt.bound == map[] && AllProper(stmt.log)
  }

  /** What every use of the handle keeps, whatever fails: an idle handle is idle again, and columns are bound
      at the end only if the same columns were bound at the start; nothing is cut on a server whose texts
      fit their buffers. */
  twostate predicate Keeps(stmt: Statement)
    reads stmt
  {
    && stmt.Valid()
    && (stmt.bound == map[] || stmt.bound == old(stmt.bound))
    && (old(Idle(stmt)) ==> Idle(stmt))
    && old(stmt.failures) <= stmt.failures
    && old(stmt.lost) <= stmt.lost
    && (AllFit(stmt.server) ==> stmt.lost == old(stmt.lost))
  }

  /** A run on `out`: a failure is reported, and unless a text was cut the run is compared with what it
      yields without failures. */
  twostate predicate RunOf<T>(stmt: Statement, out: Vector<T>, spec: Outcome<T>, blocks: bool, rc: ReturnCode)
    reads stmt, out
  {
    && Keeps(stmt)
    && (stmt.failures > old(stmt.failures) ==> !rc.Succeeded())
    && (stmt.lost == old(stmt.lost) ==>
        Refines(spec, blocks, old(out.items), out.items, rc, stmt.failures > old(stmt.failures)))
  }

  /** The column is bound in the list, with this capacity. */
  predicate Binds(bindings: seq<ColumnBinding>, c: Column, capacity: pos) {
    exists i :: 0 <= i < |bindings| && bindings[i].source == c && bindings[i].capacity == capacity
  }

  /** The columns of `bindings` are bound, to buffers of the size asked for. */
  ghost predicate AllBound(stmt: Statement, bindings: seq<ColumnBinding>)
    reads stmt
  {
    && stmt.Valid()
    && (forall i :: 0 <= i < |bindings| ==> bindings[i].source in stmt.bound)
    && (forall c :: c in stmt.bound ==> Binds(bindings, c, stmt.bound[c].capacity))
  }

  /** `columnBindingHelper`, over buffers of its caller. */
  method BindColumns(stmt: Statement, bindings: seq<ColumnBinding>) returns (rc: ReturnCode)
    requires stmt.Valid() && stmt.bound == map[]
    modifies stmt`bound, stmt`failures
    ensures stmt.Valid()
    ensures forall c :: c in stmt.bound ==> fresh(stmt.bound[c])
    ensures rc.Succeeded() <==> stmt.failures == old(stmt.failures)
    ensures stmt.failures >= old(stmt.failures)
    ensures rc.Succeeded() ==> AllBound(stmt, bindings)
  {
    rc := Success;
    for i := 0 to |bindings|
      invariant rc.Succeeded() && stmt.failures == old(stmt.failures)
      invariant AllBound(stmt, bindings[..i])
      invariant forall c :: c in stmt.bound ==> fresh(stmt.bound[c])
    {
      var buffer := new Buffer(bindings[i].source, bindings[i].capacity);
      rc := stmt.BindCol(buffer);
      if !rc.Succeeded() {
        return rc;
      }
      assert forall k :: 0 <= k < i ==> bindings[..i][k] == bindings[k];
      BindsMore(bindings, i);
    }
    assert bindings[..|bindings|] == bindings;
  }

  lemma BindsMore(bindings: seq<ColumnBinding>, i: nat)
    requires i < |bindings|
    ensures forall c, capacity :: Binds(bindings[..i], c, capacity) ==> Binds(bindings[..i + 1], c, capacity)
    ensures Binds(bindings[..i + 1], bindings[i].source, bindings[i].capacity)
  {
    var more := bindings[..i + 1];
    assert more[i] == bindings[i];
    forall c, capacity | Binds(bindings[..i], c, capacity) ensures Binds(more, c, capacity) {
      var k :| 0 <= k < i && bindings[..i][k].source == c && bindings[..i][k].capacity == capacity;
      assert more[k] == bindings[..i][k];
    }
  }

  /** Reads the bound buffers into one record. */
  method ReadRecord(stmt: Statement, bindings: seq<ColumnBinding>) returns (row: Row)
    requires AllBound(stmt, bindings)
    requires forall c :: c in stmt.bound ==> stmt.bound[c].Holds(stmt.currentRow)
    modifies stmt`lost
    ensures stmt.lost >= old(stmt.lost)
    ensures stmt.lost == old(stmt.lost) ==> row == Record(bindings, stmt.currentRow)
    ensures RowFits(bindings, stmt.currentRow) ==> stmt.lost == old(stmt.lost)
  {
    row := map[];
    for i := 0 to |bindings|
      invariant stmt.lost >= old(stmt.lost)
      invariant RowFits(bindings, stmt.currentRow) ==> stmt.lost == old(stmt.lost)
      invariant stmt.lost == old(stmt.lost) ==> row == Record(bindings[..i], stmt.currentRow)
    {
      var v := stmt.ReadField(stmt.bound[bindings[i].source]);
      row := row[bindings[i].field := v];
      assert bindings[..i + 1][..i] == bindings[..i];
    }
    assert bindings[..|bindings|] == bindings;
  }

  /** The fetch loop: one record for each row, until the rows run out or a fetch fails. */
  method FetchAll(stmt: Statement, bindings: seq<ColumnBinding>, out: Vector<Row>) returns (rc: ReturnCode)
    requires AllBound(stmt, bindings)
    modifies stmt, stmt.bound.Values, out
    ensures stmt.Valid() && stmt.log == old(stmt.log)
    ensures stmt.failures >= old(stmt.failures) && stmt.lost >= old(stmt.lost)
    ensures RowsFit(bindings, old(stmt.pending)) ==> stmt.lost == old(stmt.lost)
    ensures stmt.failures > old(stmt.failures) ==> !rc.Succeeded()
    ensures stmt.lost == old(stmt.lost) ==>
            Refines(Outcome(Records(bindings, old(stmt.pending)), true), false, old(out.items), out.items, rc,
                    stmt.failures > old(stmt.failures))
  {
    hide Record, RowFits, Refines;
    ghost var rows := stmt.pending;
    ghost var k := 0;
    while true
      invariant AllBound(stmt, bindings) && stmt.bound == old(stmt.bound)
      invariant RowsFit(bindings, rows) ==> stmt.lost == old(stmt.lost)
      invariant stmt.failures == old(stmt.failures) && stmt.lost >= old(stmt.lost) && stmt.log == old(stmt.log)
      invariant k <= |rows| && stmt.pending == rows[k..]
      invariant stmt.lost == old(stmt.lost) ==> out.items == old(out.items) + Records(bindings, rows)[..k]
      decreases |rows| - k
    {
      rc := stmt.Fetch();
      if !rc.Succeeded() {
        break;
      }
      var cur := ReadRecord(stmt, bindings);
      out.items := out.items + [cur];
      k := k + 1;
    }
    if rc.NoData? {
      rc := Success;
    }
    if stmt.lost == old(stmt.lost) {
      StopsAfter(Records(bindings, rows), k, old(out.items), out.items, rc, stmt.failures > old(stmt.failures));
    }
  }

  /** The part that every helper shares: prepare, bind, execute, then, under the cleanup guard, bind the
      columns and fetch. */
  method RunQuery(stmt: Statement, query: string, params: seq<string>, bindings: seq<ColumnBinding>, out: Vector<Row>)
    returns (rc: ReturnCode)
    requires stmt.Valid() && query != ""
    modifies stmt, out
    ensures stmt.Valid() && (stmt.bound == map[] || stmt.bound == old(stmt.bound))
    ensures stmt.log == old(stmt.log)
            || stmt.log == old(stmt.log) + [Execution(query, Numbered(params), old(stmt.bound).Keys)]
    ensures stmt.failures >= old(stmt.failures) && stmt.lost >= old(stmt.lost)
    ensures RowsFit(bindings, stmt.server.answer(query, params)) ==> stmt.lost == old(stmt.lost)
    ensures stmt.failures > old(stmt.failures) ==> !rc.Succeeded()
    ensures stmt.lost == old(stmt.lost) ==>
            Refines(Outcome(Records(bindings, stmt.server.answer(query, params)), true), false,
                    old(out.items), out.items, rc, stmt.failures > old(stmt.failures))
  {
    ghost var spec := Outcome(Records(bindings, stmt.server.answer(query, params)), true);
    rc := stmt.PrepareBindAndExecuteQuery(query, params);
    if !rc.Succeeded() {
      NothingAppended(spec, false, out.items, rc);
      return rc;
    }
    stmt.Unbind();
    rc := BindColumns(stmt, bindings);
    if rc.Succeeded() {
      rc := FetchAll(stmt, bindings, out);
    } else {
      NothingAppended(spec, false, out.items, rc);
    }
    stmt.Unbind();
  }

  /** One request, with the text and the values that a helper has put together for it. */
  method RunRequest(stmt: Statement, ghost r: Request, query: string, params: seq<string>,
                    bindings: seq<ColumnBinding>, out: Vector<Row>)
    returns (rc: ReturnCode)
    requires stmt.Valid()
    requires query == ShowRequests.Text(r) && params == Values(r) && bindings == Bindings(r)
    modifies stmt, out
    ensures RunOf(stmt, out, Outcome(Listing(stmt.server, r), true), false, rc)
  {
    TextNotEmpty(r);
    hide Bindings, ShowRequests.Text, Values, Records;
    rc := RunQuery(stmt, query, params, bindings, out);
    if old(Idle(stmt)) { ProperSnoc(old(stmt.log), r); }
  }

  lemma TextNotEmpty(r: Request)
    ensures ShowRequests.Text(r) != ""
  {
  }

  lemma ProperSnoc(log: seq<Execution>, r: Request)
    requires AllProper(log)
    ensures AllProper(log + [Execution(ShowRequests.Text(r), Numbered(Values(r)), {})])
  {
    var e := Execution(ShowRequests.Text(r), Numbered(Values(r)), {});
    assert (log + [e])[..|log|] == log && Proper(e);
  }

  /** A proper execution has one parameter for each marker of its text, numbered from 1, and its markers
      filled in order give the statement of some request; no column is bound. */
  lemma ProperMeans(e: Execution)
    requires Proper(e)
    ensures Placeholders.Marks(e.text) == |e.params|
    ensures forall i: nat :: i in e.params <==> 1 <= i <= |e.params|
    ensures exists r: Request :: Placeholders.Substitute(e.text, InOrder(e.params)) == Meaning(r)
    ensures e.columns == {}
  {
    var r: Request :| e == Execution(ShowRequests.Text(r), Numbered(Values(r)), {});
    NumberedEntries(Values(r));
    InOrderNumbered(Values(r));
    BindsIntendedValues(r);
  }

  lemma {:induction false} ProperAt(log: seq<Execution>, k: nat)
    requires AllProper(log) && k < |log|
    ensures Proper(log[k])
  {
    if k < |log| - 1 {
      ProperAt(log[..|log| - 1], k);
    }
  }

  // ---- The helpers ----

  /** `ShowDatabasesHelper::execute`. */
  method ShowDatabases(stmt: Statement, pattern: string, single: bool, out: Vector<Catalog>) returns (rc: ReturnCode)
    requires stmt.Valid()
    modifies stmt, out
    ensures RunOf(stmt, out, CatalogsOutcome(stmt.server, pattern, single), false, rc)
  {
    var current := stmt.server.current;
    if current == "" {
      NothingAppended(CatalogsOutcome(stmt.server, pattern, single), false, out.items, Error);
      return Error;
    }
    if single && pattern == "" {
      out.items := out.items + [Catalog(current)];
      return Success;
    }
    ghost var r := Databases(pattern);
    var query := if pattern == "" then SHOW_DATABASES else SHOW_DATABASES_LIKE;
    var params := if pattern == "" then [] else [pattern];
    assert query == ShowRequests.Text(r) && params == Values(r);
    rc := QueryDatabases(stmt, query, params, single, out);
    if old(Idle(stmt)) { ProperSnoc(old(stmt.log), r); }
  }

  method QueryDatabases(stmt: Statement, query: string, params: seq<string>, single: bool, out: Vector<Catalog>)
    returns (rc: ReturnCode)
    requires stmt.Valid() && query != ""
    modifies stmt, out
    ensures stmt.Valid() && (stmt.bound == map[] || stmt.bound == old(stmt.bound))
    ensures stmt.log == old(stmt.log)
            || stmt.log == old(stmt.log) + [Execution(query, Numbered(params), old(stmt.bound).Keys)]
    ensures stmt.failures >= old(stmt.failures) && stmt.lost >= old(stmt.lost)
    ensures stmt.lost == old(stmt.lost) && (stmt.failures > old(stmt.failures) ==> !rc.Succeeded())
    ensures Refines(Outcome(Restricted(DatabaseNames(stmt.server.answer(query, params)), single,
                                       Catalog(stmt.server.current)), true),
                    false, old(out.items), out.items, rc, stmt.failures > old(stmt.failures))
  {
    ghost var names := DatabaseNames(stmt.server.answer(query, params));
    rc := stmt.PrepareBindAndExecuteQuery(query, params);
    if !rc.Succeeded() {
      NothingAppended(Outcome(Restricted(names, single, Catalog(stmt.server.current)), true), false, out.items, rc);
      return rc;
    }
    rc := FetchDatabases(stmt, single, out);
  }

  /** Fetches the k-th row and reads the name buffer. */
  method NextName(stmt: Statement, buffer: Buffer, ghost rows: seq<Row>, ghost k: nat)
    returns (rc: ReturnCode, cur: Catalog)
    requires stmt.Valid() && stmt.bound == map[DatabaseName := buffer] && buffer.capacity == MAX_IDEN_LEN
    requires k <= |rows| && stmt.pending == rows[k..] && buffer.data == NameBuffer(rows[..k])
    modifies stmt, buffer
    ensures stmt.Valid() && stmt.bound == old(stmt.bound) && stmt.log == old(stmt.log) && stmt.lost == old(stmt.lost)
    ensures stmt.failures >= old(stmt.failures)
    ensures rc.Succeeded() || rc.NoData? <==> stmt.failures == old(stmt.failures)
    ensures rc.NoData? ==> k == |rows|
    ensures rc.Succeeded() ==> k < |rows| && stmt.pending == rows[k + 1..] && buffer.data == NameBuffer(rows[..k + 1])
    ensures rc.Succeeded() ==> |DatabaseNames(rows)| == |rows| && cur == DatabaseNames(rows)[k]
  {
    cur := Catalog("");
    assert buffer in stmt.bound.Values by {
      assert DatabaseName in stmt.bound.Keys && stmt.bound[DatabaseName] == buffer;
    }
    rc := stmt.Fetch();
    if rc.Succeeded() {
      cur := Catalog(TextOf(buffer.data));
      NameAt(rows, k);
    }
  }

  /** The result loop of `ShowDatabasesHelper::execute`, under the cleanup guard. In single-database mode
      it stops at the current database. */
  method FetchDatabases(stmt: Statement, single: bool, out: Vector<Catalog>) returns (rc: ReturnCode)
    requires stmt.Valid()
    modifies stmt, out
    ensures stmt.Valid() && stmt.bound == map[] && stmt.log == old(stmt.log)
    ensures stmt.failures >= old(stmt.failures) && stmt.lost == old(stmt.lost)
    ensures Refines(Outcome(Restricted(DatabaseNames(old(stmt.pending)), single, Catalog(stmt.server.current)), true),
                    false, old(out.items), out.items, rc, stmt.failures > old(stmt.failures))
  {
    stmt.Unbind();
    var buffer := new Buffer(DatabaseName, MAX_IDEN_LEN);
    rc := stmt.BindCol(buffer);
    if !rc.Succeeded() {
      ghost var names := DatabaseNames(stmt.pending);
      NothingAppended(Outcome(Restricted(names, single, Catalog(stmt.server.current)), true), false, out.items, rc);
      stmt.Unbind();
      return rc;
    }
    rc := FetchNames(stmt, buffer, single, out);
    stmt.Unbind();
  }

  /** The fetch loop; it ends early when only the current database is wanted and has been found. */
  method FetchNames(stmt: Statement, buffer: Buffer, single: bool, out: Vector<Catalog>) returns (rc: ReturnCode)
    requires stmt.Valid() && stmt.bound == map[DatabaseName := buffer] && buffer.capacity == MAX_IDEN_LEN
    requires buffer.data == NameBuffer([])
    modifies stmt, buffer, out
    ensures stmt.Valid() && stmt.log == old(stmt.log)
    ensures stmt.failures >= old(stmt.failures) && stmt.lost == old(stmt.lost)
    ensures Refines(Outcome(Restricted(DatabaseNames(old(stmt.pending)), single, Catalog(stmt.server.current)), true),
                    false, old(out.items), out.items, rc, stmt.failures > old(stmt.failures))
  {
    ghost var rows, names, k := stmt.pending, DatabaseNames(stmt.pending), 0;
    var current := Catalog(stmt.server.current);
    NamesLength(rows);
    assert rows[..0] == [] && names[..0] == [];
    while true
      invariant stmt.bound == map[DatabaseName := buffer] && stmt.Valid()
      invariant stmt.failures == old(stmt.failures) && stmt.lost == old(stmt.lost) && stmt.log == old(stmt.log)
      invariant k <= |rows| == |names| && stmt.pending == rows[k..] && buffer.data == NameBuffer(rows[..k])
      invariant out.items == old(out.items) + Restricted(names[..k], single, current)
      invariant single ==> current !in names[..k]
      decreases |rows| - k
    {
      var cur: Catalog;
      rc, cur := NextName(stmt, buffer, rows, k);
      if !rc.Succeeded() {
        break;
      }
      RestrictedStep(names, k, single, current);
      k := k + 1;
      if single {
        if cur == current {
          out.items := out.items + [cur];
          break;
        }
        continue;
      }
      out.items := out.items + [cur];
    }
    if rc.NoData? {
      rc := Success;
    }
    NamesStop(names, k, single, current, old(out.items), out.items, rc, stmt.failures > old(stmt.failures));
  }

  lemma RestrictedStep(names: seq<Catalog>, k: nat, single: bool, current: Catalog)
    requires k < |names| && (single ==> current !in names[..k])
    ensures Restricted(names[..k + 1], single, current) == Restricted(names[..k], single, current)
              + if single && names[k] != current then [] else [names[k]]
    ensures single && names[k] != current ==> current !in names[..k + 1]
    ensures single && names[k] == current ==> current in names[..k + 1]
  {
    assert names[..k + 1] == names[..k] + [names[k]];
  }

  lemma NamesStop(names: seq<Catalog>, k: nat, single: bool, current: Catalog, before: seq<Catalog>,
                  after: seq<Catalog>, rc: ReturnCode, failed: bool)
    requires k <= |names| && after == before + Restricted(names[..k], single, current)
    requires failed ==> !rc.Succeeded() && (single ==> current !in names[..k])
    requires !failed ==> rc.Succeeded() && (k == |names| || (single && current in names[..k]))
    ensures Refines(Outcome(Restricted(names, single, current), true), false, before, after, rc, failed)
  {
    if single {
      assert after[|before|..] == Restricted(names[..k], single, current);
      assert names[..|names|] == names;
    } else {
      StopsAfter(names, k, before, after, rc, failed);
    }
  }

  lemma {:induction false} NamesLength(rows: seq<Row>)
    ensures |DatabaseNames(rows)| == |rows|
  {
    if rows != [] { NamesLength(rows[..|rows| - 1]); }
  }

  /** The name read from the k-th row, and what the buffer holds then. */
  lemma {:induction false} NameAt(rows: seq<Row>, k: nat)
    requires k < |rows|
    ensures |DatabaseNames(rows)| == |rows|
    ensures DatabaseNames(rows)[k] == Catalog(TextOf(NameBuffer(rows[..k + 1])))
    ensures NameBuffer(rows[..k + 1]) ==
            match Get(rows[k], DatabaseName)
            case Null => NameBuffer(rows[..k]) case Text(s) => Text(Cut(s, MAX_IDEN_LEN)) case Num(n) => Num(n)
    decreases |rows|
  {
    NamesLength(rows);
    assert rows[..k + 1][..k] == rows[..k];
    var n := |rows| - 1;
    if k < n {
      NameAt(rows[..n], k);
      assert rows[..n][..k + 1] == rows[..k + 1];
    } else {
      assert rows[..k + 1] == rows;
      NamesLength(rows[..n]);
    }
  }

  /** `ShowSchemasHelper::execute`. */
  method ShowSchemas(stmt: Statement, c: string, pattern: string, out: Vector<Row>)
    returns (rc: ReturnCode)
    requires stmt.Valid()
    modifies stmt, out
    ensures RunOf(stmt, out, SchemasOutcome(stmt.server, c, pattern), false, rc)
  {
    if c == "" {
      NothingAppended(Outcome([], false), false, out.items, Error);
      return Error;
    }
    var query, params := SHOW_SCHEMAS, [c];
    if pattern != "" {
      query, params := SHOW_SCHEMAS_LIKE, params + [pattern];
    }
    var r := Schemas(c, pattern);
    rc := RunRequest(stmt, r, query, params, Bindings(r), out);
  }

  /** `ShowTablesHelper::execute`. */
  method ShowTables(stmt: Statement, c: string, s: string, pattern: string, out: Vector<Row>)
    returns (rc: ReturnCode)
    requires stmt.Valid()
    modifies stmt, out
    ensures RunOf(stmt, out, TablesOutcome(stmt.server, c, s, pattern), false, rc)
  {
    if c == "" || s == "" {
      NothingAppended(Outcome([], false), false, out.items, Error);
      return Error;
    }
    var query, params := SHOW_TABLES, [c, s];
    if pattern != "" {
      query, params := SHOW_TABLES_LIKE, params + [pattern];
    }
    var r := Tables(c, s, pattern);
    rc := RunRequest(stmt, r, query, params, Bindings(r), out);
  }

  /** `ShowColumnsHelper::execute`. */
  method ShowColumns(stmt: Statement, c: string, s: string, t: string, pattern: string, out: Vector<Row>)
    returns (rc: ReturnCode)
    requires stmt.Valid()
    modifies stmt, out
    ensures RunOf(stmt, out, ColumnsOutcome(stmt.server, c, s, t, pattern), false, rc)
  {
    if c == "" || s == "" || t == "" {
      NothingAppended(Outcome([], false), false, out.items, Error);
      return Error;
    }
    var query, params := SHOW_COLUMNS, [c, s, t];
    if pattern != "" {
      query, params := SHOW_COLUMNS_LIKE, params + [pattern];
    }
    var r := Columns(c, s, t, pattern);
    rc := RunRequest(stmt, r, query, params, Bindings(r), out);
  }

  /** `ShowConstraintsPkHelper::execute`. */
  method ShowPrimaryKeys(stmt: Statement, c: string, s: string, t: string, out: Vector<Row>)
    returns (rc: ReturnCode)
    requires stmt.Valid()
    modifies stmt, out
    ensures RunOf(stmt, out, PrimaryKeysOutcome(stmt.server, c, s, t), false, rc)
  {
    if c == "" || s == "" || t == "" {
      NothingAppended(Outcome([], false), false, out.items, Error);
      return Error;
    }
    var r := PrimaryKeys(c, s, t);
    rc := RunRequest(stmt, r, SHOW_PRIMARY_KEYS, [c, s, t], Bindings(r), out);
  }

  /** `ShowConstraintsFkHelper::execute`. */
  method ShowForeignKeys(stmt: Statement, c: string, s: string, t: string, exported: bool, out: Vector<Row>)
    returns (rc: ReturnCode)
    requires stmt.Valid()
    modifies stmt, out
    ensures RunOf(stmt, out, ForeignKeysOutcome(stmt.server, c, s, t, exported), false, rc)
  {
    if c == "" || s == "" || t == "" {
      NothingAppended(Outcome([], false), false, out.items, Error);
      return Error;
    }
    var query := if exported then SHOW_EXPORTED_KEYS else SHOW_FOREIGN_KEYS;
    var r := ForeignKeys(c, s, t, exported);
    rc := RunRequest(stmt, r, query, [c, s, t], Bindings(r), out);
  }

  /** `ShowProcedureFunctionColumnsHelper::execute`, with the text and the arguments that its caller got from
      `createParameterizedQueryString`. */
  method ShowParameters(stmt: Statement, c: string, s: string, name: string, pattern: string, query: string,
                        arguments: seq<string>, procedure: bool, out: Vector<Row>)
    returns (rc: ReturnCode)
    requires stmt.Valid()
    requires query == ArgumentList.QueryText(RoutineBase(procedure), |arguments|, pattern)
    modifies stmt, out
    ensures RunOf(stmt, out, ParametersOutcome(stmt.server, c, s, name, arguments, pattern, procedure), false, rc)
  {
    hide Bindings, ShowRequests.Text, Values, Refines, Listing, AllFit, Idle, RoutineBase, ArgumentList.QueryText;
    ParameterRequests(c, s, name, pattern, arguments, procedure);
    if c == "" || s == "" || name == "" {
      NothingAppended(Outcome([], false), false, out.items, Error);
      return Error;
    }
    var r := Parameters(c, s, name, arguments, pattern, procedure);
    var params := [c, s, name] + arguments;
    if pattern != "" {
      params := params + [pattern];
    }
    rc := RunRequest(stmt, r, query, params, Bindings(r), out);
  }

  lemma ParameterRequests(c: string, s: string, name: string, pattern: string, arguments: seq<string>,
                          procedure: bool)
    ensures var r := Parameters(c, s, name, arguments, pattern, procedure);
            && ShowRequests.Text(r) == ArgumentList.QueryText(RoutineBase(procedure), |arguments|, pattern)
            && Values(r)
               == if pattern == "" then [c, s, name] + arguments else [c, s, name] + arguments + [pattern]
  {
    assert [c, s, name] + arguments + [] == [c, s, name] + arguments;
  }

  lemma RoutineRequests(c: string, s: string, pattern: string, procedures: bool)
    ensures var r := Routines(c, s, pattern, procedures);
            && (pattern == "" ==> ShowRequests.Text(r) == if procedures then SHOW_PROCEDURES else SHOW_FUNCTIONS)
            && (pattern != "" ==>
                 ShowRequests.Text(r) == if procedures then SHOW_PROCEDURES_LIKE else SHOW_FUNCTIONS_LIKE)
            && Values(r) == if pattern == "" then [c, s] else [c, s] + [pattern]
  {
  }

  lemma TaggedAppends(all: seq<Row>, collected: seq<Row>, procedures: bool, before: seq<Row>, rc: ReturnCode,
                      failed: bool)
    requires Refines(Outcome(all, true), false, [], collected, rc, failed)
    ensures Refines(Outcome(Tagged(all, procedures), true), false, before, before + Tagged(collected, procedures), rc,
                    failed)
  {
    var tagged := Tagged(collected, procedures);
    if collected <= all { PrefixCounts(tagged, Tagged(all, procedures)); }
    Appends(Outcome(all, true), collected, Outcome(Tagged(all, procedures), true), false, before, tagged, rc, failed);
  }

  /** `ShowProceduresFunctionsHelper::execute`: the kind of routine is added to every record. */
  method ShowRoutines(stmt: Statement, c: string, s: string, pattern: string, procedures: bool, out: Vector<Row>)
    returns (rc: ReturnCode)
    requires stmt.Valid()
    modifies stmt, out
    ensures RunOf(stmt, out, RoutinesOutcome(stmt.server, c, s, pattern, procedures), false, rc)
  {
    hide Bindings, ShowRequests.Text, Values, Refines, Listing, Tagged, AllFit, Idle;
    hide SHOW_PROCEDURES, SHOW_FUNCTIONS, SHOW_PROCEDURES_LIKE, SHOW_FUNCTIONS_LIKE;
    RoutineRequests(c, s, pattern, procedures);
    if c == "" || s == "" {
      NothingAppended(Outcome([], false), false, out.items, Error);
      return Error;
    }
    var r := Routines(c, s, pattern, procedures);
    var query, params := if procedures then SHOW_PROCEDURES else SHOW_FUNCTIONS, [c, s];
    if pattern != "" {
      query, params := if procedures then SHOW_PROCEDURES_LIKE else SHOW_FUNCTIONS_LIKE, params + [pattern];
    }
    var records := new Vector<Row>();
    rc := RunRequest(stmt, r, query, params, Bindings(r), records);
    if stmt.lost == old(stmt.lost) {
      TaggedAppends(Listing(stmt.server, r), records.items, procedures, out.items, rc,
                    stmt.failures > old(stmt.failures));
    }
    out.items := out.items + Tagged(records.items, procedures);
  }

  lemma GrantRequests(c: string, s: string, t: string)
    ensures SHOW_TABLE_GRANTS == ShowRequests.Text(TableGrants(c, s, t)) && [c, s, t] == Values(TableGrants(c, s, t))
    ensures SHOW_COLUMN_GRANTS == ShowRequests.Text(ColumnGrants(c, s, t)) && [c, s, t] == Values(ColumnGrants(c, s, t))
  {
  }

  lemma AllSortedAppends(server: Server, all: seq<Row>, collected: seq<Row>, before: seq<Row>, rc: ReturnCode,
                         failed: bool)
    requires Refines(Outcome(all, true), false, [], collected, rc, failed)
    ensures Refines(Outcome(server.byPrivilege(all), true), true, before, before + server.byPrivilege(collected), rc,
                    failed)
  {
    SortedAppends(server, all, collected, (x: Row) => true, before, rc, failed);
    FilterAll(all, (x: Row) => true);
    FilterAll(collected, (x: Row) => true);
  }

  /** `ShowGrantsTableHelper::execute`: the rows are sorted by privilege, also after a failed fetch. */
  method ShowTableGrants(stmt: Statement, c: string, s: string, t: string, out: Vector<Row>) returns (rc: ReturnCode)
    requires stmt.Valid()
    modifies stmt, out
    ensures RunOf(stmt, out, TableGrantsOutcome(stmt.server, c, s, t), true, rc)
  {
    hide Bindings, ShowRequests.Text, Values, Refines, Listing, AllFit, Idle, SHOW_TABLE_GRANTS;
    GrantRequests(c, s, t);
    if c == "" || s == "" || t == "" {
      NothingAppended(Outcome([], false), true, out.items, Error);
      return Error;
    }
    var r := TableGrants(c, s, t);
    var tempResults := new Vector<Row>();
    rc := RunRequest(stmt, r, SHOW_TABLE_GRANTS, [c, s, t], Bindings(r), tempResults);
    var sorted := stmt.server.byPrivilege(tempResults.items);
    if stmt.lost == old(stmt.lost) {
      AllSortedAppends(stmt.server, Listing(stmt.server, r), tempResults.items, out.items, rc,
                       stmt.failures > old(stmt.failures));
    }
    out.items := out.items + sorted;
  }

  /** `ShowGrantsColumnHelper::execute`: the rows whose column name matches the pattern, sorted by
      privilege, also after a failed fetch. */
  method ShowColumnGrants(stmt: Statement, c: string, s: string, t: string, pattern: string, out: Vector<Row>)
    returns (rc: ReturnCode)
    requires stmt.Valid()
    modifies stmt, out
    ensures RunOf(stmt, out, ColumnGrantsOutcome(stmt.server, c, s, t, pattern), true, rc)
  {
    hide Bindings, ShowRequests.Text, Values, Refines, Listing, AllFit, Idle, SHOW_COLUMN_GRANTS;
    GrantRequests(c, s, t);
    if c == "" || s == "" || t == "" {
      NothingAppended(Outcome([], false), true, out.items, Error);
      return Error;
    }
    var r := ColumnGrants(c, s, t);
    var fetched := new Vector<Row>();
    rc := RunRequest(stmt, r, SHOW_COLUMN_GRANTS, [c, s, t], Bindings(r), fetched);
    var tempResults := MatchingRows(fetched.items, pattern);
    var sorted := stmt.server.byPrivilege(tempResults);
    if stmt.lost == old(stmt.lost) {
      SortedAppends(stmt.server, Listing(stmt.server, r), fetched.items, ColumnMatcher(pattern), out.items, rc,
                    stmt.failures > old(stmt.failures));
    }
    out.items := out.items + sorted;
  }

  method MatchingRows(rows: seq<Row>, pattern: string) returns (matching: seq<Row>)
    ensures matching == Filter(rows, ColumnMatcher(pattern))
  {
    matching := [];
    for k := 0 to |rows|
      invariant matching == Filter(rows[..k], ColumnMatcher(pattern))
    {
      assert rows[..k + 1][..k] == rows[..k];
      var matched := LikeToRegex.PatternMatch(NameOf(rows[k], ColumnName), pattern);
      if matched.value {
        matching := matching + [rows[k]];
      }
    }
    assert rows[..|rows|] == rows;
  }

  lemma SortedAppends(server: Server, all: seq<Row>, fetched: seq<Row>, p: Row -> bool, before: seq<Row>,
                      rc: ReturnCode, failed: bool)
    requires Refines(Outcome(all, true), false, [], fetched, rc, failed)
    ensures Refines(Outcome(server.byPrivilege(Filter(all, p)), true), true, before,
                    before + server.byPrivilege(Filter(fetched, p)), rc, failed)
  {
    if fetched <= all {
      FilterPrefix(fetched, all, p);
      PrefixCounts(Filter(fetched, p), Filter(all, p));
    }
    Appends(Outcome(all, true), fetched, Outcome(server.byPrivilege(Filter(all, p)), true), true, before,
            server.byPrivilege(Filter(fetched, p)), rc, failed);
  }

  // ---- Any sequence of helper runs ----

  /** A run of one of the helpers. */
  datatype HelperCall =
    | DatabasesCall(pattern: string, single: bool)
    | SchemasCall(c: string, pattern: string)
    | TablesCall(c: string, s: string, pattern: string)
    | ColumnsCall(c: string, s: string, t: string, pattern: string)
    | PrimaryKeysCall(c: string, s: string, t: string)
    | ForeignKeysCall(c: string, s: string, t: string, exported: bool)
    | TableGrantsCall(c: string, s: string, t: string)
    | ColumnGrantsCall(c: string, s: string, t: string, pattern: string)
    | RoutinesCall(c: string, s: string, pattern: string, procedures: bool)
    | ParametersCall(c: string, s: string, name: string, pattern: string, arguments: seq<string>, procedure: bool)

  method RunHelper(stmt: Statement, call: HelperCall, catalogs: Vector<Catalog>, out: Vector<Row>)
    returns (rc: ReturnCode)
    requires stmt.Valid()
    modifies stmt, catalogs, out
    ensures Keeps(stmt) && (stmt.failures > old(stmt.failures) ==> !rc.Succeeded())
  {
    match call
    case DatabasesCall(pattern, single) => rc := ShowDatabases(stmt, pattern, single, catalogs);
    case SchemasCall(c, pattern) => rc := ShowSchemas(stmt, c, pattern, out);
    case TablesCall(c, s, pattern) => rc := ShowTables(stmt, c, s, pattern, out);
    case ColumnsCall(c, s, t, pattern) => rc := ShowColumns(stmt, c, s, t, pattern, out);
    case PrimaryKeysCall(c, s, t) => rc := ShowPrimaryKeys(stmt, c, s, t, out);
    case ForeignKeysCall(c, s, t, exported) => rc := ShowForeignKeys(stmt, c, s, t, exported, out);
    case TableGrantsCall(c, s, t) => rc := ShowTableGrants(stmt, c, s, t, out);
    case ColumnGrantsCall(c, s, t, pattern) => rc := ShowColumnGrants(stmt, c, s, t, pattern, out);
    case RoutinesCall(c, s, pattern, procedures) => rc := ShowRoutines(stmt, c, s, pattern, procedures, out);
    case ParametersCall(c, s, name, pattern, arguments, procedure) =>
      var query := ArgumentList.QueryText(RoutineBase(procedure), |arguments|, pattern);
      rc := ShowParameters(stmt, c, s, name, pattern, query, arguments, procedure, out);
  }

  /** Any sequence of helper runs on one handle, each going on after the failures of the others: the handle is
      idle afterwards, and every execution on it was proper. */
  method RunAny(stmt: Statement, calls: seq<HelperCall>, catalogs: Vector<Catalog>, out: Vector<Row>)
    requires Idle(stmt)
    modifies stmt, catalogs, out
    ensures Idle(stmt)
    ensures forall k :: 0 <= k < |stmt.log| ==> Proper(stmt.log[k])
    ensures AllFit(stmt.server) ==> stmt.lost == old(stmt.lost)
  {
    for i := 0 to |calls|
      invariant Idle(stmt) && (AllFit(stmt.server) ==> stmt.lost == old(stmt.lost))
    {
      var _ := RunHelper(stmt, calls[i], catalogs, out);
    }
    forall k | 0 <= k < |stmt.log| ensures Proper(stmt.log[k]) {
      ProperAt(stmt.log, k);
    }
  }
}
