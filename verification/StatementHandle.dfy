/** The statement handle and the driver calls made on it. Every call may fail, at any time. */
module StatementHandle {
  import opened Wrappers
  import opened ServerModel

  /** A local buffer with its length indicator, as passed to `SQLBindCol`. */
  class Buffer {
    const column: Column
    const capacity: pos
    var data: Value
    var length: int

    constructor (column: Column, capacity: pos)
      ensures this.column == column && this.capacity == capacity
      ensures data == Text("") && length == 0
    {
      this.column, this.capacity := column, capacity;
      data, length := Text(""), 0;
    }

    /** What a fetch of `row` leaves in a buffer: text is cut to the capacity, and the indicator tells
        the full length; a null only sets the indicator. */
    ghost predicate Holds(row: Row)
      reads this
    {
      match Get(row, column)
      case Null => length == SQL_NULL_DATA
      case Text(s) => length == |s| && data == Text(Cut(s, capacity))
      case Num(n) => length == 8 && data == Num(n)
    }
  }

  const SQL_NULL_DATA := -1

  /** The part of a text that fits a buffer with its terminator. */
  function Cut(s: string, capacity: pos): string {
    if |s| < capacity then s else s[..capacity - 1]
  }

  /** Parameters 1 to n with their values. */
  function Numbered(values: seq<string>): map<nat, string> {
    if values == [] then map[]
    else Numbered(values[..|values| - 1])[|values| := values[|values| - 1]]
  }

  /** The values of parameters 1 to n, where n is the number of bound parameters. */
  function InOrder(params: map<nat, string>): seq<string> {
    seq(|params|, i requires 0 <= i < |params| => if i + 1 in params then params[i + 1] else "")
  }

  lemma {:induction false} NumberedEntries(values: seq<string>)
    ensures |Numbered(values)| == |values|
    ensures forall i: nat :: i in Numbered(values) <==> 1 <= i <= |values|
    ensures forall i: nat :: 1 <= i <= |values| ==> Numbered(values)[i] == values[i - 1]
  {
    if values != [] { NumberedEntries(values[..|values| - 1]); }
  }

  /** Numbering values and reading them back in order gives the values. */
  lemma InOrderNumbered(values: seq<string>)
    ensures InOrder(Numbered(values)) == values
  {
    NumberedEntries(values);
  }

  /** One execution: the text, and the parameters and columns that were bound at that moment. */
  datatype Execution = Execution(text: string, params: map<nat, string>, columns: set<Column>)

  class Statement {
    const server: Server
    var prepared: string
    var params: map<nat, string>
    var bound: map<Column, Buffer>
    var pending: seq<Row>
    var currentRow: Row

    ghost var log: seq<Execution>  // every execution so far
    ghost var failures: nat        // driver calls that returned an error
    ghost var lost: nat            // reads of overlong values that fell back to the cut text

    constructor (server: Server)
      ensures Valid() && this.server == server && bound == map[] && log == []
      ensures failures == 0 && lost == 0
    {
      this.server := server;
      prepared, params, bound, pending, currentRow := "", map[], map[], [], map[];
      log, failures, lost := [], 0, 0;
    }

    ghost predicate Valid()
      reads this
    {
      forall c :: c in bound ==> bound[c].column == c
    }

    /** `RS_SQLPrepare`. */
    method Prepare(text: string) returns (rc: ReturnCode)
      requires Valid()
      modifies this`prepared, this`pending, this`failures
      ensures rc.Succeeded() <==> failures == old(failures)
      ensures rc.Succeeded() ==> prepared == text
      ensures failures >= old(failures)
    {
      rc := AnyReturn();
      if rc.Succeeded() {
        prepared, pending := text, [];
      } else {
        failures := failures + 1;
      }
    }

    /** `RS_SQLFreeStmt` with `SQL_RESET_PARAMS`. */
    method ResetParams() returns (rc: ReturnCode)
      modifies this`params, this`failures
      ensures rc.Succeeded() <==> failures == old(failures)
      ensures rc.Succeeded() ==> params == map[]
      ensures failures >= old(failures)
    {
      rc := AnyReturn();
      if rc.Succeeded() { params := map[]; } else { failures := failures + 1; }
    }

    /** `RS_SQLBindParameter`: binds, or binds again, one parameter. */
    method BindParameter(number: nat, value: string) returns (rc: ReturnCode)
      modifies this`params, this`failures
      ensures rc.Succeeded() <==> failures == old(failures)
      ensures rc.Succeeded() ==> params == old(params)[number := value]
      ensures failures >= old(failures)
    {
      rc := AnyReturn();
      if rc.Succeeded() { params := params[number := value]; } else { failures := failures + 1; }
    }

    /** `RS_SQLExecDirect` of the prepared text. */
    method ExecDirect() returns (rc: ReturnCode)
      modifies this`pending, this`log, this`failures
      ensures log == old(log) + [Execution(prepared, params, bound.Keys)]
      ensures rc.Succeeded() <==> failures == old(failures)
      ensures rc.Succeeded() ==> pending == server.answer(prepared, InOrder(params))
      ensures failures >= old(failures)
    {
      rc := AnyReturn();
      log := log + [Execution(prepared, params, bound.Keys)];
      if rc.Succeeded() { pending := server.answer(prepared, InOrder(params)); } else { failures := failures + 1; }
    }

    /** `RS_SQLBindCol`: binds, or binds again, one result column. */
    method BindCol(buffer: Buffer) returns (rc: ReturnCode)
      requires Valid()
      modifies this`bound, this`failures
      ensures Valid()
      ensures rc.Succeeded() <==> failures == old(failures)
      ensures bound == if rc.Succeeded() then old(bound)[buffer.column := buffer] else old(bound)
      ensures failures >= old(failures)
    {
      rc := AnyReturn();
      if rc.Succeeded() { bound := bound[buffer.column := buffer]; } else { failures := failures + 1; }
    }

    /** `RS_SQLFreeStmt` with `SQL_UNBIND`, which only drops the list of bound columns. */
    method Unbind()
      modifies this`bound
      ensures Valid() && bound == map[]
    {
      bound := map[];
    }

    /** `RS_SQLFetchScroll` with `SQL_FETCH_NEXT`: writes the next row into the buffers that are bound. */
    method Fetch() returns (rc: ReturnCode)
      requires Valid()
      modifies this`pending, this`currentRow, this`failures, bound.Values
      ensures Valid()
      ensures failures >= old(failures)
      ensures rc.Succeeded() || rc.NoData? <==> failures == old(failures)
      ensures rc.NoData? ==> old(pending) == []
      ensures rc.Succeeded() ==> old(pending) != [] && currentRow == old(pending)[0] && pending == old(pending)[1..]
      ensures rc.Succeeded() ==> forall c :: c in bound ==> bound[c].Holds(currentRow)
      ensures rc.Succeeded() ==>
                forall c :: c in bound && Get(currentRow, c).Null? ==> bound[c].data == old(bound[c].data)
      ensures !rc.Succeeded() ==> pending == old(pending)
    {
      rc := AnyReturn();
      if !rc.Succeeded() {
        failures := failures + 1;
      } else if pending == [] {
        rc := NoData;
      } else {
        currentRow, pending := pending[0], pending[1..];
        forall b | b in bound.Values {
          b.data := match Get(currentRow, b.column)
            case Null => b.data case Text(s) => Text(Cut(s, b.capacity)) case Num(n) => Num(n);
        }
        forall b | b in bound.Values {
          b.length := match Get(currentRow, b.column)
            case Null => SQL_NULL_DATA case Text(s) => |s| case Num(_) => 8;
        }
      }
    }

    /** `RS_SQLGetData` of a text column of the row fetched last. */
    method GetData(column: Column) returns (rc: ReturnCode, text: string)
      ensures rc.Succeeded() ==> text == NameOf(currentRow, column)
    {
      rc := AnyReturn();
      text := if rc.Succeeded() then NameOf(currentRow, column) else "";
    }

    /** `extractStringField`, and the reading of numeric buffers: the value of a bound column of the row
        fetched last. A text longer than its buffer is read again in full; when that fails, the cut text
        is used and no error is reported. */
    method ReadField(buffer: Buffer) returns (v: Value)
      requires buffer.Holds(currentRow)
      modifies this`lost
      ensures lost == old(lost) ==> v == Get(currentRow, buffer.column)
      ensures |NameOf(currentRow, buffer.column)| < buffer.capacity ==> lost == old(lost)
      ensures lost >= old(lost)
    {
      if buffer.length == SQL_NULL_DATA {
        return Null;
      }
      if !buffer.data.Text? {
        return buffer.data;
      }
      if buffer.length <= 0 {
        return Text("");
      }
      if buffer.length < buffer.capacity {
        return Text(buffer.data.text[..buffer.length]);
      }
      var rc, text := GetData(buffer.column);
      if rc.Succeeded() && |text| > 0 {
        return Text(text);
      }
      lost := lost + 1;
      v := Text(buffer.data.text[..buffer.capacity - 1]);
    }

    /** `prepareBindAndExecuteQuery`. */
    method PrepareBindAndExecuteQuery(query: string, inputParameters: seq<string>) returns (rc: ReturnCode)
      requires Valid()
      modifies this`prepared, this`params, this`pending, this`log, this`failures
      ensures Valid()
      ensures log == old(log) || log == old(log) + [Execution(query, Numbered(inputParameters), bound.Keys)]
      ensures failures >= old(failures)
      ensures rc.Succeeded() <==> failures == old(failures) && query != ""
      ensures rc.Succeeded() ==> params == map[]
      ensures rc.Succeeded() ==> pending == server.answer(query, inputParameters)
      ensures rc.Succeeded() ==> log == old(log) + [Execution(query, Numbered(inputParameters), bound.Keys)]
    {
      if query == "" {
        return Error;
      }
      rc := Prepare(query);
      if !rc.Succeeded() {
        return rc;
      }
      rc := ResetParams();
      if !rc.Succeeded() {
        return rc;
      }
      for i := 0 to |inputParameters|
        invariant params == Numbered(inputParameters[..i])
        invariant failures == old(failures) && log == old(log) && prepared == query
      {
        assert inputParameters[..i + 1][..i] == inputParameters[..i];
        rc := BindParameter(i + 1, inputParameters[i]);
        if !rc.Succeeded() {
          return rc;
        }
      }
      assert inputParameters[..|inputParameters|] == inputParameters;
      InOrderNumbered(inputParameters);
      rc := ExecDirect();
      if !rc.Succeeded() {
        return rc;
      }
      rc := ResetParams();
    }
  }

  /** The result of a driver call that the model leaves open. */
  method AnyReturn() returns (rc: ReturnCode)
    ensures !rc.NoData?
  {
    var ok: bool := *;
    var info: bool := *;
    rc := if ok then (if info then SuccessWithInfo else Success) else (if info then InvalidHandle else Error);
  }
}
