/** Appending filter conditions to a query text that lives in a fixed buffer of characters. */
module CatalogFilters {
  import opened Wrappers
  import opened SqlConditions
  import opened CStrings
  import LikePattern

  const SQL_NTS := -3

  /** The longest part of the text that fits with its terminator. */
  function Fitted(text: string, capacity: nat): string {
    if |text| < capacity then text
    else if capacity == 0 then ""
    else text[..capacity - 1]
  }

  /** `snprintf` at the end of the text and `strncat`: append what fits. */
  method Append(buffer: array<char>, text: string)
    requires Terminated(buffer[..]) && '\0' !in text
    modifies buffer
    ensures Terminated(buffer[..])
    ensures CString(buffer[..]) == Fitted(old(CString(buffer[..])) + text, buffer.Length)
  {
    var before := CString(buffer[..]);
    var space := buffer.Length - 1 - |before|;
    var n := if |text| <= space then |text| else space;
    forall i | 0 <= i < n {
      buffer[|before| + i] := text[i];
    }
    buffer[|before| + n] := '\0';
    var after := before + text[..n];
    assert buffer[..][..|after|] == after;
    CStringIs(buffer[..], after);
    assert after == Fitted(before + text, buffer.Length);
  }

  // Escaping

  function QuoteCount(s: string): nat {
    if s == "" then 0 else (if s[0] == '\'' then 1 else 0) + QuoteCount(s[1..])
  }

  lemma {:induction false} EscapedLength(s: string)
    ensures |Escape(s)| == |s| + QuoteCount(s) <= 2 * |s|
    ensures |Escape(s)| < 2 * |s| <==> exists i :: 0 <= i < |s| && s[i] != '\''
    ensures '\0' !in s ==> '\0' !in Escape(s)
  {
    if s != "" {
      EscapedLength(s[1..]);
      assert (exists i :: 0 <= i < |s[1..]| && s[1..][i] != '\'') ==> (exists i :: 0 <= i < |s| && s[i] != '\'') by {
        if i :| 0 <= i < |s[1..]| && s[1..][i] != '\'' {
          assert s[i + 1] != '\'';
        }
      }
      assert forall i :: 0 < i < |s| ==> s[i] == s[1..][i - 1];
    }
  }

  /** `escapedFilterCondition`: a zeroed buffer of `2 * cb` characters filled with the escaped text. */
  method EscapedFilterCondition(name: array<char>, cb: nat) returns (escaped: array<char>)
    requires Terminated(name[..]) && |Escape(CString(name[..]))| <= 2 * cb
    ensures fresh(escaped) && escaped.Length == 2 * cb
    ensures escaped[..|Escape(CString(name[..]))|] == Escape(CString(name[..]))
    ensures forall i :: |Escape(CString(name[..]))| <= i < 2 * cb ==> escaped[i] == '\0'
  {
    ghost var s := CString(name[..]);
    escaped := new char[cb * 2](_ => '\0');
    var src, dest := 0, 0;
    while name[src] != '\0'
      invariant src <= |s| && dest == |Escape(s[..src])| <= escaped.Length
      invariant escaped[..dest] == Escape(s[..src])
      invariant forall i :: dest <= i < escaped.Length ==> escaped[i] == '\0'
      decreases |s| - src
    {
      EscapeStep(s, src);
      if name[src] == '\'' {
        escaped[dest] := '\'';
        dest := dest + 1;
      }
      escaped[dest] := name[src];
      src := src + 1;
      dest := dest + 1;
    }
    assert s[..src] == s;
  }

  lemma {:induction false} EscapeConcat(s: string, t: string)
    ensures Escape(s + t) == Escape(s) + Escape(t)
  {
    if s == "" {
      assert s + t == t;
    } else {
      assert (s + t)[1..] == s[1..] + t;
      EscapeConcat(s[1..], t);
    }
  }

  lemma EscapeStep(s: string, k: nat)
    requires k < |s|
    ensures Escape(s[..k + 1]) == Escape(s[..k]) + if s[k] == '\'' then "''" else [s[k]]
    ensures |Escape(s[..k + 1])| <= |Escape(s)|
  {
    assert s[..k + 1] == s[..k] + [s[k]] && s == s[..k + 1] + s[k + 1..];
    EscapeConcat(s[..k], [s[k]]);
    EscapeConcat(s[..k + 1], s[k + 1..]);
    assert Escape([s[k]]) == if s[k] == '\'' then "''" else [s[k]];
  }

  /** With as many characters announced as the text has, the escaped text keeps a terminator exactly when
      some character is not a quote. */
  lemma TerminatedIffNotAllQuotes(s: string, escaped: seq<char>)
    requires '\0' !in s && |escaped| == 2 * |s| && Escape(s) <= escaped
    requires forall i :: |Escape(s)| <= i < |escaped| ==> escaped[i] == '\0'
    ensures Terminated(escaped) <==> exists i :: 0 <= i < |s| && s[i] != '\''
    ensures Terminated(escaped) ==> CString(escaped) == Escape(s)
  {
    EscapedLength(s);
    if |Escape(s)| < 2 * |s| {
      assert escaped[|Escape(s)|] == '\0';
      CStringIs(escaped, Escape(s));
    } else {
      assert escaped == Escape(s);
    }
  }

  // Conditions

  /** The precision of `%.*s`; a negative one means none. */
  function Precision(text: string, n: int): string {
    if 0 <= n <= |text| then text[..n] else text
  }

  /** The length that is passed with a value; `SQL_NTS` asks for the terminator. */
  function GivenLength(value: string, cb: int): int {
    if cb == SQL_NTS then ToShort(|value|) else cb
  }

  /** What a caller has to pass as a value: text with its length, such that the escaped text fits with its
      terminator. */
  ghost predicate ProperValue(value: seq<char>, cb: int) {
    && Terminated(value)
    && GivenLength(CString(value), cb) <= 0x7FFF
    && (CString(value) != "" ==> |Escape(CString(value))| < 2 * GivenLength(CString(value), cb))
  }

  /** The condition that a value adds; no value and the empty value add none. */
  function Filter(column: string, op: Comparison, value: string): Chain {
    if value == "" then [] else [Compare(column, op, value)]
  }

  /** The escaped value, as `%.*s` prints it with its 16-bit length. */
  method EscapedName(value: array<char>, cb: int) returns (printed: string)
    requires ProperValue(value[..], cb) && CString(value[..]) != ""
    ensures printed == Escape(CString(value[..]))
  {
    ghost var text := CString(value[..]);
    var cbLen := cb;
    if cbLen == SQL_NTS {
      cbLen := ToShort(|CString(value[..])|);
    }
    EscapedLength(text);
    var escaped := EscapedFilterCondition(value, cbLen);
    CStringIs(escaped[..], Escape(text));
    NothingCut(Escape(text));
    printed := Precision(CString(escaped[..]), ToShort(|CString(escaped[..])|));
  }

  method AddCondition(buffer: array<char>, column: string, op: Comparison, value: array<char>, cb: int)
    requires Terminated(buffer[..]) && IsColumn(column) && value != buffer && ProperValue(value[..], cb)
    modifies buffer
    ensures Terminated(buffer[..])
    ensures CString(buffer[..]) ==
            Fitted(old(CString(buffer[..])) + ChainText(Filter(column, op, CString(value[..]))), buffer.Length)
  {
    ghost var before := CString(buffer[..]);
    assert Fitted(before + "", buffer.Length) == before by {
      assert before + "" == before;
    }
    if value[0] != '\0' {
      ghost var text := CString(value[..]);
      var escaped := EscapedName(value, cb);
      var clause := " AND " + column + " " + OpText(op) + " '" + escaped + "' ";
      ClauseIsChainText(column, op, text);
      NoTerminator(column, op, text);
      Append(buffer, clause);
    }
  }

  /** The 16-bit length of an escaped text never cuts it: a length above 32767 turns negative. */
  lemma NothingCut(text: string)
    requires |text| < 0x1_0000
    ensures Precision(text, ToShort(|text|)) == text
  {
  }

  lemma ClauseIsChainText(column: string, op: Comparison, v: string)
    requires v != ""
    ensures " AND " + column + " " + OpText(op) + " '" + Escape(v) + "' " == ChainText(Filter(column, op, v))
  {
    var a := Compare(column, op, v);
    assert ChainText([a]) == ConditionText(a) + "" == ConditionText(a) by {
      assert [a][1..] == [];
    }
    assert " '" == " " + "'" && "' " == "'" + " ";
    SevenParts(" AND ", column, OpText(op), Escape(v));
  }

  lemma SevenParts(a: string, b: string, c: string, d: string)
    ensures a + b + " " + c + (" " + "'") + d + ("'" + " ") == a + (b + (" " + c + " " + ("'" + d + "'"))) + " "
  {
  }

  lemma NoTerminator(column: string, op: Comparison, v: string)
    requires IsColumn(column) && '\0' !in v
    ensures '\0' !in ChainText(Filter(column, op, v))
  {
    EscapedLength(v);
    assert '\0' !in column by {
      assert !IsWordChar('\0');
    }
    assert '\0' !in OpText(op);
    if v != "" {
      ClauseIsChainText(column, op, v);
    }
  }

  /** `addLikeOrEqualFilterCondition`. */
  method AddLikeOrEqualFilterCondition(buffer: array<char>, metadataId: bool, column: string,
                                       value: array?<char>, cb: int)
    requires Terminated(buffer[..]) && IsColumn(column) && value != buffer
    requires value != null ==> ProperValue(value[..], cb)
    modifies buffer
    ensures Terminated(buffer[..])
    ensures CString(buffer[..]) ==
            Fitted(old(CString(buffer[..]))
                   + ChainText(ValueFilter(column, if metadataId then Equal else Like, value)), buffer.Length)
  {
    if value != null {
      AddCondition(buffer, column, if metadataId then Equal else Like, value, cb);
    } else {
      assert CString(buffer[..]) + "" == CString(buffer[..]);
    }
  }

  /** A name passes: every name if none is asked for, and otherwise an equal one, or one in the LIKE language. */
  ghost predicate NamePasses(name: string, asked: string, exact: bool) {
    asked == "" || if exact then name == asked else LikePattern.InLanguage(LikePattern.Tokens(asked), name)
  }

  lemma FilterHolds(column: string, metadataId: bool, asked: string, row: Columns)
    requires column in row
    ensures ChainHolds(Filter(column, if metadataId then Equal else Like, asked), row) <==>
            NamePasses(row[column], asked, metadataId)
  {
    var chain := Filter(column, if metadataId then Equal else Like, asked);
    LikePattern.AcceptsIffInLanguage(LikePattern.Tokens(asked), row[column]);
    assert asked != "" ==> chain[0] in chain;
  }

  /** The condition appended for a name, read back as SQL: an exact name with the attribute set, and a LIKE pattern
      without. */
  lemma NameConditionSelects(column: string, metadataId: bool, asked: string, row: Columns)
    requires IsColumn(column) && column in row
    ensures var text := ChainText(Filter(column, if metadataId then Equal else Like, asked));
            Read(text).Some? && (ChainHolds(Read(text).value, row) <==> NamePasses(row[column], asked, metadataId))
  {
    hide Read, ChainText, ChainHolds, NamePasses;
    ChainReadsBack(Filter(column, if metadataId then Equal else Like, asked));
    FilterHolds(column, metadataId, asked, row);
  }

  /** `addEqualFilterCondition`. */
  method AddEqualFilterCondition(buffer: array<char>, column: string, value: array?<char>, cb: int)
    requires Terminated(buffer[..]) && IsColumn(column) && value != buffer
    requires value != null ==> ProperValue(value[..], cb)
    modifies buffer
    ensures Terminated(buffer[..])
    ensures CString(buffer[..]) ==
            Fitted(old(CString(buffer[..])) + ChainText(ValueFilter(column, Equal, value)), buffer.Length)
  {
    if value != null {
      AddCondition(buffer, column, Equal, value, cb);
    } else {
      assert CString(buffer[..]) + "" == CString(buffer[..]);
    }
  }

  // The condition on the catalog

  const MAX_LARGE_TEMP_BUF_LEN := 1024

  /** The condition that a catalog name adds: on the connected database, or on a column. */
  function CatalogFilter(connectedOnly: bool, column: string, name: string): Chain {
    if name == "" then []
    else if connectedOnly then [CurrentDatabase(Like, name)]
    else [Compare(column, Like, name)]
  }

  function GivenCatalog(connectedOnly: bool, column: Option<string>, name: array?<char>): Chain
    reads name
  {
    if name == null then []
    else CatalogFilter(connectedOnly, if column.None? then "database_name" else column.value, CString(name[..]))
  }

  /** `getCatalogFilterCondition`. */
  method GetCatalogFilterCondition(buffer: array<char>, single: bool, name: array?<char>, cb: int,
                                   connectedOnly: bool, databaseColumn: Option<string>)
    requires buffer.Length > 0 && name != buffer
    requires name != null ==> ProperValue(name[..], cb)
    requires databaseColumn.Some? ==> IsColumn(databaseColumn.value)
    modifies buffer
    ensures Terminated(buffer[..])
    ensures CString(buffer[..]) ==
            Fitted(ChainText(GivenCatalog(single || connectedOnly, databaseColumn, name)), buffer.Length)
  {
    buffer[0] := '\0';
    CStringIs(buffer[..], "");
    if name != null && name[0] != '\0' {
      hide Escape, ChainText, QuoteCount, IsColumn;
      ghost var text := CString(name[..]);
      var escaped := EscapedName(name, cb);
      if single || connectedOnly {
        DatabaseIsChainText(text);
        AppendFirst(buffer, " AND " + CURRENT_DATABASE + " LIKE  '" + escaped + "' ");
      } else {
        var column := if databaseColumn.None? then "database_name" else databaseColumn.value;
        DatabaseNameIsColumn();
        ClauseIsChainText(column, Like, text);
        NoTerminator(column, Like, text);
        AppendFirst(buffer, " AND " + column + " " + OpText(Like) + " '" + escaped + "' ");
      }
    }
  }

  /** The condition on the catalog, read back as SQL: the connected database, or the column, is in the LIKE language of
      the name, whatever the statement attribute says. */
  lemma CatalogConditionSelects(connectedOnly: bool, column: string, name: string, row: Columns)
    requires IsColumn(column) && (if connectedOnly then CURRENT_DATABASE else column) in row
    ensures var text := ChainText(CatalogFilter(connectedOnly, column, name));
            && Read(text).Some?
            && (ChainHolds(Read(text).value, row) <==>
                NamePasses(row[if connectedOnly then CURRENT_DATABASE else column], name, false))
  {
    hide Read, ChainText;
    var chain := CatalogFilter(connectedOnly, column, name);
    ChainReadsBack(chain);
    LikePattern.AcceptsIffInLanguage(LikePattern.Tokens(name), row[if connectedOnly then CURRENT_DATABASE else column]);
    assert name != "" ==> chain[0] in chain;
  }

  lemma DatabaseNameIsColumn()
    ensures IsColumn("database_name")
  {
  }

  /** `snprintf` into an empty buffer. */
  method AppendFirst(buffer: array<char>, text: string)
    requires Terminated(buffer[..]) && CString(buffer[..]) == "" && '\0' !in text
    modifies buffer
    ensures Terminated(buffer[..]) && CString(buffer[..]) == Fitted(text, buffer.Length)
  {
    assert "" + text == text;
    Append(buffer, text);
  }

  lemma DatabaseIsChainText(v: string)
    requires '\0' !in v
    ensures var text := " AND " + CURRENT_DATABASE + " LIKE  '" + Escape(v) + "' ";
            text == ChainText([CurrentDatabase(Like, v)]) && '\0' !in text
  {
    hide CURRENT_DATABASE, Escape, QuoteCount;
    EscapedLength(v);
    NoTerminatorInCall();
    var a := CurrentDatabase(Like, v);
    assert ChainText([a]) == ConditionText(a) + "" == ConditionText(a) by {
      assert [a][1..] == [];
    }
    assert " LIKE  '" == " " + "LIKE" + "  " + "'" && "' " == "'" + " ";
    DatabaseParts(" AND ", CURRENT_DATABASE, " " + "LIKE" + "  ", Escape(v));
  }

  lemma NoTerminatorInCall()
    ensures '\0' !in CURRENT_DATABASE
  {
  }

  lemma DatabaseParts(a: string, b: string, c: string, d: string)
    ensures a + b + (c + "'") + d + ("'" + " ") == a + ((b + c) + ("'" + d + "'")) + " "
  {
  }

  function ValueFilter(column: string, op: Comparison, value: array?<char>): Chain
    reads value
  {
    if value == null then [] else Filter(column, op, CString(value[..]))
  }
}
