/** The table-type filter of the local catalog query, and the `TABLE_TYPE` column that the query projects. */
module TableTypes {
  import opened Wrappers
  import opened SqlConditions
  import opened CatalogFilters
  import opened CStrings
  import opened DataTypeNames
  import opened Blanks

  datatype TableType =
    | Table | View | SystemTable | SystemView | SystemToastTable | TemporaryTable | TemporaryView

  function Name(t: TableType): string {
    match t
    case Table => "TABLE"
    case View => "VIEW"
    case SystemTable => "SYSTEM TABLE"
    case SystemView => "SYSTEM VIEW"
    case SystemToastTable => "SYSTEM TOAST TABLE"
    case TemporaryTable => "TEMPORARY TABLE"
    case TemporaryView => "TEMPORARY VIEW"
  }

  // The projected column

  /** The `CASE` expression of the query; `None` is NULL. */
  function ProjectedType(relkind: string, nspname: string): Option<string> {
    if "pg_" <= nspname || nspname == "information_schema" then
      if nspname == "pg_catalog" || nspname == "information_schema" then
        if relkind == "r" then Some("SYSTEM TABLE")
        else if relkind == "v" then Some("SYSTEM VIEW")
        else None
      else if nspname == "pg_toast" then
        if relkind == "r" then Some("SYSTEM TOAST TABLE") else None
      else
        if relkind == "r" then Some("TEMPORARY TABLE")
        else if relkind == "v" then Some("TEMPORARY VIEW")
        else None
    else if relkind == "r" then Some("TABLE")
    else if relkind == "v" then Some("VIEW")
    else if relkind == "f" then Some("FOREIGN TABLE")
    else if relkind == "m" then Some("MATERIALIZED VIEW")
    else None
  }

  // The filter

  function Kind(k: string): Atom {
    Compare("c.relkind", Equal, k)
  }

  function Schema(op: Comparison, v: string): Atom {
    Compare("n.nspname", op, v)
  }

  const SYSTEM_SCHEMAS: Atom :=
    Group(Either(One(Schema(Equal, "pg_catalog")), Just(One(Schema(Equal, "information_schema")))))

  /** The condition that the filter states for a type. */
  function Condition(t: TableType): Conjunction {
    match t
    case Table =>
      Also(Kind("r"), Also(Schema(NotMatches, "^pg_"), One(Schema(NotEqual, "information_schema"))))
    case View =>
      Also(Kind("v"), Also(Schema(NotEqual, "pg_catalog"), One(Schema(NotEqual, "information_schema"))))
    case SystemTable => Also(Kind("r"), One(SYSTEM_SCHEMAS))
    case SystemView => Also(Kind("v"), One(SYSTEM_SCHEMAS))
    case SystemToastTable => Also(Kind("r"), One(Schema(Equal, "pg_toast")))
    case TemporaryTable => Also(Kind("r"), One(Schema(Matches, "^pg_temp_")))
    case TemporaryView => Also(Kind("v"), One(Schema(Matches, "^pg_temp_")))
  }

  function Conditions(types: seq<TableType>): seq<Conjunction> {
    seq(|types|, i requires 0 <= i < |types| => Condition(types[i]))
  }

  /** The text that adds one condition; for the type TABLE it is
      ` OR ( c.relkind = 'r' AND n.nspname !~ '^pg_' AND n.nspname <> 'information_schema' ) `. */
  function Fragment(c: Conjunction): string {
    " OR ( " + ConjunctionText(c) + " ) "
  }

  function Fragments(cs: seq<Conjunction>): string {
    if cs == [] then "" else Fragments(cs[..|cs| - 1]) + Fragment(cs[|cs| - 1])
  }

  const OPENING := " AND (false "
  const CLOSING := " ) "

  function FilterText(cs: seq<Conjunction>): string {
    OPENING + Fragments(cs) + CLOSING
  }

  function Alternatives(cs: seq<Conjunction>): Disjunction
    requires cs != []
  {
    var first := One(Group(Just(cs[0])));
    if |cs| == 1 then Just(first) else Either(first, Alternatives(cs[1..]))
  }

  /** The condition that the filter text states. */
  function AnyOf(cs: seq<Conjunction>): Atom {
    Group(if cs == [] then Just(One(False)) else Either(One(False), Alternatives(cs)))
  }

  predicate AllOk(cs: seq<Conjunction>) {
    forall i :: 0 <= i < |cs| ==> ConjunctionOk(cs[i])
  }

  // The list of types

  /** `_stricmp(s, t) == 0`. */
  predicate EqualIgnoringCase(s: string, t: string) {
    Lower(s) == Lower(t)
  }

  /** The token spells the type, in any case, quoted or not. */
  predicate Spells(token: string, t: TableType) {
    EqualIgnoringCase(token, Name(t)) || EqualIgnoringCase(token, "'" + Name(t) + "'")
  }

  /** The type that a token adds to the filter, if any. */
  function TypeOf(token: string): Option<TableType> {
    if Spells(token, Table) then Some(Table)
    else if Spells(token, View) then Some(View)
    else if Spells(token, SystemTable) then Some(SystemTable)
    else if Spells(token, SystemView) then Some(SystemView)
    else if Spells(token, SystemToastTable) then Some(SystemToastTable)
    else if Spells(token, TemporaryTable) then Some(TemporaryTable)
    else if Spells(token, TemporaryView) then Some(TemporaryView)
    else None
  }

  function AddedTypes(token: string): seq<TableType> {
    var t := TypeOf(token);
    if t.Some? then [t.value] else []
  }

  /** The number of characters other than the comma at the start. */
  function FieldLength(s: string): (n: nat)
    ensures n <= |s| && (n < |s| ==> s[n] == ',')
    ensures forall i :: 0 <= i < n ==> s[i] != ','
  {
    if s == "" || s[0] == ',' then 0 else 1 + FieldLength(s[1..])
  }

  /** One call of `strtok` with ",": the next token, and the text from which the next call goes on. */
  function NextToken(s: string): (r: Option<(string, string)>)
    ensures r.Some? ==> |r.value.1| < |s|
    decreases |s|
  {
    if s == "" then None
    else if s[0] == ',' then NextToken(s[1..])
    else
      var n := FieldLength(s);
      Some((s[..n], if n < |s| then s[n + 1..] else ""))
  }

  /** The types named in a comma list, in order. */
  function Listed(list: string): seq<TableType>
    decreases |list|
  {
    var next := NextToken(list);
    if next.None? then []
    else AddedTypes(Trim(next.value.0)) + Listed(next.value.1)
  }

  /** `list[i..j]` is a non-empty field of the comma list. */
  predicate IsField(list: string, i: int, j: int) {
    && 0 <= i < j <= |list|
    && (forall k :: i <= k < j ==> list[k] != ',')
    && (i == 0 || list[i - 1] == ',')
    && (j == |list| || list[j] == ',')
  }

  /** The token is a non-empty field of the comma list. */
  ghost predicate HasField(list: string, token: string) {
    exists i, j :: IsField(list, i, j) && list[i..j] == token
  }

  /** Some field of the list is the spelled name of the type with blanks around it. */
  ghost predicate NamesType(list: string, t: TableType) {
    exists token: string, name: string :: HasField(list, token) && Padded(token, name) && NamesInLetters(name, t)
  }

  /** The name of the type, or that name in quotes, in letters of either case. */
  predicate NamesInLetters(name: string, t: TableType) {
    SameLetters(name, Name(t)) || SameLetters(name, "'" + Name(t) + "'")
  }

  lemma SpellsIff(name: string, t: TableType)
    ensures Spells(name, t) <==> NamesInLetters(name, t)
  {
    hide Lower, SameLetters, Name;
    LowerIff(name, Name(t));
    LowerIff(name, "'" + Name(t) + "'");
  }

  /** The tokens that `strtok` delivers. */
  function TokensOf(list: string): seq<string>
    decreases |list|
  {
    var next := NextToken(list);
    if next.None? then [] else [next.value.0] + TokensOf(next.value.1)
  }

  /** `strtok` delivers exactly the non-empty fields of the list. */
  lemma {:induction false} TokensAreFields(list: string, token: string)
    ensures token in TokensOf(list) <==> HasField(list, token)
    decreases |list|
  {
    if list == "" {
    } else if list[0] == ',' {
      TokensAreFields(list[1..], token);
      FieldsBehind(list, 1, token);
    } else {
      var n := FieldLength(list);
      var behind := if n < |list| then n + 1 else n;
      assert list[behind..] == if n < |list| then list[n + 1..] else "";
      TokensAreFields(list[behind..], token);
      FieldsBehind(list, behind, token);
    }
  }

  lemma FieldShift(list: string, n: nat, i: nat, j: nat)
    requires 0 < n && i <= j && n + j <= |list| && (list[n - 1] == ',' || n == |list|)
    ensures IsField(list[n..], i, j) <==> IsField(list, n + i, n + j)
    ensures list[n..][i..j] == list[n + i..n + j]
  {
    assert forall k :: i <= k < j ==> list[n..][k] == list[n + k];
    assert forall k :: n + i <= k < n + j ==> list[k] == list[n..][k - n];
  }

  /** The first field of a list. */
  lemma FieldBefore(list: string, n: nat, i: nat, j: nat)
    requires 0 < n <= |list| && (list[n - 1] == ',' || n == |list|)
    requires forall k :: 0 <= k < n - 1 ==> list[k] != ','
    requires IsField(list, i, j) && i < n
    ensures i == 0 && j == FieldLength(list) && list[0] != ','
  {
    assert list[i] != ',';
    assert forall k :: 0 <= k < j ==> list[k] != ',';
    assert j == |list| || list[j] == ',';
  }

  /** The fields of a list are those behind a comma, and the one before it. */
  lemma FieldsBehind(list: string, n: nat, token: string)
    requires 0 < n <= |list| && (list[n - 1] == ',' || n == |list|)
    requires forall k :: 0 <= k < n - 1 ==> list[k] != ','
    ensures HasField(list, token) <==>
            HasField(list[n..], token) || (list[0] != ',' && token == list[..FieldLength(list)])
  {
    FieldsOfTail(list, n, token);
    if list[0] != ',' {
      HeadField(list);
    }
    if HasField(list, token) {
      FieldCases(list, n, token);
    }
  }

  lemma HeadField(list: string)
    requires list != "" && list[0] != ','
    ensures HasField(list, list[..FieldLength(list)])
  {
    var first := FieldLength(list);
    assert IsField(list, 0, first) && list[0..first] == list[..first];
  }

  lemma FieldCases(list: string, n: nat, token: string)
    requires 0 < n <= |list| && (list[n - 1] == ',' || n == |list|)
    requires forall k :: 0 <= k < n - 1 ==> list[k] != ','
    requires HasField(list, token)
    ensures HasField(list[n..], token) || (list[0] != ',' && token == list[..FieldLength(list)])
  {
    var i: nat, j: nat :| IsField(list, i, j) && list[i..j] == token;
    if i >= n {
      FieldShift(list, n, i - n, j - n);
      assert IsField(list[n..], i - n, j - n) && list[n..][i - n..j - n] == token;
    } else {
      FieldBefore(list, n, i, j);
      assert list[0..j] == list[..j];
    }
  }

  lemma FieldsOfTail(list: string, n: nat, token: string)
    requires 0 < n <= |list| && (list[n - 1] == ',' || n == |list|)
    ensures HasField(list[n..], token) ==> HasField(list, token)
  {
    if HasField(list[n..], token) {
      var i: nat, j: nat :| IsField(list[n..], i, j) && list[n..][i..j] == token;
      FieldShift(list, n, i, j);
      assert IsField(list, n + i, n + j) && list[n + i..n + j] == token;
    }
  }

  lemma {:induction false} ListedIffToken(list: string, t: TableType)
    ensures t in Listed(list) <==> exists token :: token in TokensOf(list) && TypeOf(Trim(token)) == Some(t)
    decreases |list|
  {
    var next := NextToken(list);
    if next.Some? {
      ListedIffToken(next.value.1, t);
    }
  }

  lemma SpelledIsSolid(name: string, t: TableType)
    requires Spells(name, t)
    ensures Solid(name)
  {
    var spelled := if EqualIgnoringCase(name, Name(t)) then Name(t) else "'" + Name(t) + "'";
    var last := |name| - 1;
    assert Lower(name)[0] == ToLower(name[0]) && Lower(name)[last] == ToLower(name[last]);
    assert Lower(spelled)[0] == ToLower(spelled[0]) && Lower(spelled)[last] == ToLower(spelled[last]);
  }

  /** The type of a trimmed token is the one whose name it spells between its blanks. */
  lemma TrimmedIffPadded(token: string, t: TableType)
    ensures TypeOf(Trim(token)) == Some(t) <==> exists name :: Padded(token, name) && Spells(name, t)
  {
    TypeOfIffSpells(Trim(token), t);
    TrimPads(token);
    if name :| Padded(token, name) && Spells(name, t) {
      SpelledIsSolid(name, t);
      TrimFinds(token, name);
    }
  }

  /** The filter covers exactly the types that some field of the list names. */
  lemma ListedIffNamed(list: string, t: TableType)
    ensures t in Listed(list) <==> NamesType(list, t)
  {
    hide Padded, Spells, HasField, TypeOf, Trim, NamesInLetters;
    forall name: string ensures Spells(name, t) <==> NamesInLetters(name, t) {
      SpellsIff(name, t);
    }
    ListedIffToken(list, t);
    forall token ensures token in TokensOf(list) <==> HasField(list, token) {
      TokensAreFields(list, token);
    }
    forall token ensures TypeOf(Trim(token)) == Some(t) <==> exists name :: Padded(token, name) && Spells(name, t) {
      TrimmedIffPadded(token, t);
    }
  }

  /** No token spells two types. */
  lemma TypeOfIffSpells(token: string, t: TableType)
    ensures TypeOf(token) == Some(t) <==> Spells(token, t)
  {
    hide Spells;
    var found := TypeOf(token);
    if found.Some? {
      assert Spells(token, found.value);
      if Spells(token, t) {
        SpellsOne(token, found.value, t);
      }
    }
  }

  lemma SpellsOne(token: string, u: TableType, v: TableType)
    requires Spells(token, u) && Spells(token, v)
    ensures u == v
  {
    var s := Lower(token);
    assert |s| == |token|;
    if |token| == 14 {
      assert s == Lower(Name(u)) ==> s[0] == ToLower(Name(u)[0]);
      assert s == Lower(Name(v)) ==> s[0] == ToLower(Name(v)[0]);
      assert s == Lower("'" + Name(u) + "'") ==> s[0] == '\'';
      assert s == Lower("'" + Name(v) + "'") ==> s[0] == '\'';
    }
  }

  // What the filter text says

  lemma Columns()
    ensures IsColumn("c.relkind") && IsColumn("n.nspname")
  {
  }

  lemma ConditionOk(t: TableType)
    ensures ConjunctionOk(Condition(t))
  {
    Columns();
  }

  lemma ConditionsOk(types: seq<TableType>)
    ensures AllOk(Conditions(types))
  {
    forall i | 0 <= i < |types| ensures ConjunctionOk(Conditions(types)[i]) {
      ConditionOk(types[i]);
    }
  }

  function FragmentTokens(c: Conjunction): seq<Token> {
    [Word("OR"), Open] + ConjunctionTokens(c) + [Close]
  }

  function AllTokens(cs: seq<Conjunction>): seq<Token> {
    if cs == [] then [] else AllTokens(cs[..|cs| - 1]) + FragmentTokens(cs[|cs| - 1])
  }

  lemma FragmentParts(body: string, rest: string)
    ensures (" OR ( " + body + " ) ") + rest == " OR " + ("(" + (" " + (body + (" ) " + rest))))
  {
    assert " OR ( " == " OR " + "(" + " ";
    ThreeParts(" OR ( ", body, " ) ", rest);
    TwoParts(body, " ) ", rest);
    ThreeParts(" OR ", "(", " ", body + (" ) " + rest));
  }

  lemma LexFragment(c: Conjunction, rest: string)
    requires ConjunctionOk(c)
    ensures Lex(Fragment(c) + rest) == Prepend(FragmentTokens(c), Lex(rest))
  {
    var body, ts := ConjunctionText(c), ConjunctionTokens(c);
    LexClosing(rest);
    LexConjunction(c, " ) " + rest);
    LexOpenOr(body + (" ) " + rest));
    FragmentParts(body, rest);
    PrependTwice(ts, [Close], Lex(rest));
    PrependTwice([Word("OR"), Open], ts + [Close], Lex(rest));
    assert [Word("OR"), Open] + (ts + [Close]) == FragmentTokens(c);
  }

  lemma LexOpenOr(rest: string)
    ensures Lex(" OR " + ("(" + (" " + rest))) == Prepend([Word("OR"), Open], Lex(rest))
  {
    LexChar(' ', rest);
    LexChar('(', " " + rest);
    LexOr("(" + (" " + rest));
    PrependTwice([Open], [], Lex(rest));
    PrependTwice([Word("OR")], [Open] + [], Lex(rest));
    assert [Word("OR")] + ([Open] + []) == [Word("OR"), Open];
  }

  lemma LexClosing(rest: string)
    ensures Lex(" ) " + rest) == Prepend([Close], Lex(rest))
  {
    assert " ) " + rest == " " + (")" + (" " + rest));
    LexChar(' ', ")" + (" " + rest));
    LexChar(')', " " + rest);
    LexChar(' ', rest);
    PrependTwice([Close], [], Lex(rest));
    PrependTwice([], [Close], Lex(rest));
    assert [Close] + [] == [Close] == [] + [Close];
  }

  lemma OpeningText()
    ensures OPENING == " AND " + "(" + "false" + " "
  {
  }

  lemma LexOpening(rest: string)
    ensures Lex(OPENING + rest) == Prepend([Word("AND"), Open, Word("false")], Lex(rest))
  {
    var behind := " " + rest;
    OpeningText();
    FourParts(" AND ", "(", "false", " ", rest);
    LexAnd("(" + ("false" + behind));
    LexChar('(', "false" + behind);
    LexWord("false", behind, true);
    LexChar(' ', rest);
    PrependTwice([Word("false")], [], Lex(rest));
    PrependTwice([Open], [Word("false")] + [], Lex(rest));
    PrependTwice([Word("AND")], [Open] + ([Word("false")] + []), Lex(rest));
    assert [Word("AND")] + ([Open] + ([Word("false")] + [])) == [Word("AND"), Open, Word("false")];
  }

  lemma {:induction false} LexFragments(cs: seq<Conjunction>, rest: string)
    requires AllOk(cs)
    ensures Lex(Fragments(cs) + rest) == Prepend(AllTokens(cs), Lex(rest))
  {
    if cs == [] {
      assert "" + rest == rest;
      assert Lex(rest).Some? ==> [] + Lex(rest).value == Lex(rest).value;
    } else {
      var shorter, last := cs[..|cs| - 1], cs[|cs| - 1];
      TwoParts(Fragments(shorter), Fragment(last), rest);
      LexFragment(last, rest);
      LexFragments(shorter, Fragment(last) + rest);
      PrependTwice(AllTokens(shorter), FragmentTokens(last), Lex(rest));
    }
  }

  lemma {:induction false} AllTokensFront(cs: seq<Conjunction>)
    requires cs != []
    ensures AllTokens(cs) == FragmentTokens(cs[0]) + AllTokens(cs[1..])
  {
    var shorter, last := cs[..|cs| - 1], cs[|cs| - 1];
    if |cs| == 1 {
      assert shorter == cs[1..] == [];
      assert AllTokens(cs) == [] + FragmentTokens(last);
    } else {
      AllTokensFront(shorter);
      assert shorter[1..] == cs[1..][..|cs[1..]| - 1];
    }
  }

  lemma {:induction false} AlternativesTokens(cs: seq<Conjunction>)
    requires cs != [] && AllOk(cs)
    ensures [Word("OR")] + DisjunctionTokens(Alternatives(cs)) == AllTokens(cs)
    ensures DisjunctionOk(Alternatives(cs))
  {
    AllTokensFront(cs);
    FirstTokens(cs[0]);
    OkGroup(cs[0]);
    if |cs| > 1 {
      AlternativesTokens(cs[1..]);
      assert Alternatives(cs) == Either(One(Group(Just(cs[0]))), Alternatives(cs[1..]));
      var first := ConjunctionTokens(One(Group(Just(cs[0]))));
      var rest := [Word("OR")] + DisjunctionTokens(Alternatives(cs[1..]));
      assert DisjunctionTokens(Alternatives(cs)) == first + rest;
      Reorder(first, rest);
    } else {
      assert AllTokens(cs[1..]) == [];
      var d := Alternatives(cs);
      assert DisjunctionTokens(d) == ConjunctionTokens(d.terms) + [];
      assert [Word("OR")] + ConjunctionTokens(d.terms) + [] == [Word("OR")] + (ConjunctionTokens(d.terms) + []);
    }
  }

  lemma OkGroup(c: Conjunction)
    requires ConjunctionOk(c)
    ensures ConjunctionOk(One(Group(Just(c))))
  {
    assert DisjunctionOk(Just(c));
    assert AtomOk(Group(Just(c)));
  }

  lemma Reorder(first: seq<Token>, rest: seq<Token>)
    ensures [Word("OR")] + (first + rest) == ([Word("OR")] + first) + rest
  {
  }

  lemma FirstTokens(c: Conjunction)
    ensures FragmentTokens(c) == [Word("OR")] + ConjunctionTokens(One(Group(Just(c))))
  {
    assert DisjunctionTokens(Just(c)) == ConjunctionTokens(c) + [] == ConjunctionTokens(c);
    var a := Group(Just(c));
    assert ConjunctionTokens(One(a)) == AtomTokens(a) + [] == AtomTokens(a);
  }

  lemma AnyOfTokens(cs: seq<Conjunction>)
    requires AllOk(cs)
    ensures AtomTokens(AnyOf(cs)) == [Open] + ([Word("false")] + AllTokens(cs)) + [Close]
    ensures AtomOk(AnyOf(cs))
  {
    assert ConjunctionTokens(One(False)) == [Word("false")];
    if cs == [] {
      assert DisjunctionTokens(Just(One(False))) == [Word("false")] + [] == [Word("false")];
    } else {
      AlternativesTokens(cs);
    }
  }

  lemma LexFilterText(cs: seq<Conjunction>)
    requires AllOk(cs)
    ensures Lex(FilterText(cs)) == Some([Word("AND")] + AtomTokens(AnyOf(cs)))
  {
    var fs, ts := Fragments(cs), AllTokens(cs);
    assert CLOSING + "" == CLOSING;
    LexClosing("");
    LexFragments(cs, CLOSING);
    LexOpening(fs + CLOSING);
    TwoParts(OPENING, fs, CLOSING);
    PrependTwice(ts, [Close], Some([]));
    PrependTwice([Word("AND"), Open, Word("false")], ts + [Close], Some([]));
    AnyOfTokens(cs);
    OpeningTokens(ts);
  }

  lemma OpeningTokens(ts: seq<Token>)
    ensures [Word("AND"), Open, Word("false")] + (ts + [Close]) + [] ==
            [Word("AND")] + ([Open] + ([Word("false")] + ts) + [Close])
  {
  }

  /** The filter reads back as the conditions before it and one more, the choice of conditions. */
  lemma FilterReadsBack(chain: Chain, cs: seq<Conjunction>)
    requires (forall a :: a in chain ==> AtomOk(a)) && AllOk(cs)
    ensures Read(ChainText(chain) + FilterText(cs)) == Some(chain + [AnyOf(cs)])
  {
    LexFilterText(cs);
    LexChain(chain, FilterText(cs));
    AnyOfTokens(cs);
    var last := [AnyOf(cs)];
    LastTokens(AnyOf(cs));
    ChainTextConcat(chain, last);
    ParsesChain(chain + last);
  }

  lemma LastTokens(a: Atom)
    ensures ChainTokens([a]) == [Word("AND")] + AtomTokens(a)
  {
    assert [a][1..] == [];
    assert [Word("AND")] + AtomTokens(a) + [] == [Word("AND")] + AtomTokens(a);
  }

  // What the filter selects

  function Row(relkind: string, nspname: string): Columns {
    map["c.relkind" := relkind, "n.nspname" := nspname]
  }

  predicate Selects(t: TableType, relkind: string, nspname: string) {
    ConjunctionHolds(Condition(t), Row(relkind, nspname))
  }

  /** A condition of the filter in words. */
  predicate SelectsSpec(t: TableType, k: string, n: string) {
    match t
    case Table => k == "r" && !("pg_" <= n) && n != "information_schema"
    case View => k == "v" && n != "pg_catalog" && n != "information_schema"
    case SystemTable => k == "r" && (n == "pg_catalog" || n == "information_schema")
    case SystemView => k == "v" && (n == "pg_catalog" || n == "information_schema")
    case SystemToastTable => k == "r" && n == "pg_toast"
    case TemporaryTable => k == "r" && "pg_temp_" <= n
    case TemporaryView => k == "v" && "pg_temp_" <= n
  }

  lemma HoldsKind(k: string, n: string, v: string)
    ensures AtomHolds(Kind(v), Row(k, n)) <==> k == v
  {
  }

  lemma HoldsSchema(k: string, n: string, op: Comparison, v: string)
    ensures AtomHolds(Schema(op, v), Row(k, n)) <==> Compares(op, n, v)
  {
    assert "n.nspname" != "c.relkind";
  }

  lemma HoldsSystem(k: string, n: string)
    ensures AtomHolds(SYSTEM_SCHEMAS, Row(k, n)) <==> n == "pg_catalog" || n == "information_schema"
  {
    HoldsSchema(k, n, Equal, "pg_catalog");
    HoldsSchema(k, n, Equal, "information_schema");
    var row, first, second := Row(k, n), One(Schema(Equal, "pg_catalog")), One(Schema(Equal, "information_schema"));
    assert ConjunctionHolds(first, row) <==> n == "pg_catalog";
    assert ConjunctionHolds(second, row) <==> n == "information_schema";
    assert DisjunctionHolds(Just(second), row) <==> ConjunctionHolds(second, row);
    assert DisjunctionHolds(Either(first, Just(second)), row) <==>
           ConjunctionHolds(first, row) || ConjunctionHolds(second, row);
  }

  lemma HoldsAlso(a: Atom, b: Atom, c: Atom, row: Columns)
    ensures ConjunctionHolds(Also(a, One(b)), row) <==> AtomHolds(a, row) && AtomHolds(b, row)
    ensures ConjunctionHolds(Also(a, Also(b, One(c))), row) <==>
            AtomHolds(a, row) && AtomHolds(b, row) && AtomHolds(c, row)
  {
    assert ConjunctionHolds(One(b), row) <==> AtomHolds(b, row);
    assert ConjunctionHolds(One(c), row) <==> AtomHolds(c, row);
    assert ConjunctionHolds(Also(b, One(c)), row) <==> AtomHolds(b, row) && ConjunctionHolds(One(c), row);
  }

  lemma SelectsMeans(t: TableType, k: string, n: string)
    ensures Selects(t, k, n) <==> SelectsSpec(t, k, n)
  {
    HoldsKind(k, n, if t in {View, SystemView, TemporaryView} then "v" else "r");
    assert "^pg_"[1..] == "pg_" && "^pg_temp_"[1..] == "pg_temp_";
    var row := Row(k, n);
    match t
    case Table =>
      HoldsSchema(k, n, NotMatches, "^pg_");
      HoldsSchema(k, n, NotEqual, "information_schema");
      HoldsAlso(Kind("r"), Schema(NotMatches, "^pg_"), Schema(NotEqual, "information_schema"), row);
    case View =>
      HoldsSchema(k, n, NotEqual, "pg_catalog");
      HoldsSchema(k, n, NotEqual, "information_schema");
      HoldsAlso(Kind("v"), Schema(NotEqual, "pg_catalog"), Schema(NotEqual, "information_schema"), row);
    case SystemTable =>
      HoldsSystem(k, n);
      HoldsAlso(Kind("r"), SYSTEM_SCHEMAS, False, row);
    case SystemView =>
      HoldsSystem(k, n);
      HoldsAlso(Kind("v"), SYSTEM_SCHEMAS, False, row);
    case SystemToastTable =>
      HoldsSchema(k, n, Equal, "pg_toast");
      HoldsAlso(Kind("r"), Schema(Equal, "pg_toast"), False, row);
    case TemporaryTable =>
      HoldsSchema(k, n, Matches, "^pg_temp_");
      HoldsAlso(Kind("r"), Schema(Matches, "^pg_temp_"), False, row);
    case TemporaryView =>
      HoldsSchema(k, n, Matches, "^pg_temp_");
      HoldsAlso(Kind("v"), Schema(Matches, "^pg_temp_"), False, row);
  }

  lemma Prefixes(n: string)
    ensures "pg_temp_" <= n ==> "pg_" <= n && n != "pg_catalog" && n != "pg_toast" && n != "information_schema"
    ensures n == "pg_catalog" || n == "pg_toast" ==> "pg_" <= n
    ensures n == "information_schema" ==> !("pg_" <= n)
  {
    assert "information_schema"[0] == 'i';
    if "pg_" <= n {
      assert n[0] == "pg_"[0] == 'p';
    }
    if "pg_temp_" <= n {
      var p := "pg_temp_";
      assert n[..|p|] == p;
      assert n[0] == p[0] == 'p' && n[1] == p[1] == 'g' && n[2] == p[2] == '_';
      assert n[3] == p[3] == 't' && n[4] == p[4] == 'e';
      assert n[..3] == "pg_";
      assert "pg_" <= n;
      assert "pg_catalog"[3] == 'c' && "pg_toast"[4] == 'o' && "information_schema"[0] == 'i';
    }
  }

  /** How far the condition of a type agrees with the projected type of a row. */
  lemma SelectsVersusProjected(t: TableType, k: string, n: string)
    ensures t in {Table, SystemTable, SystemView, SystemToastTable} ==>
            (Selects(t, k, n) <==> ProjectedType(k, n) == Some(Name(t)))
    ensures t in {TemporaryTable, TemporaryView} ==>
            (Selects(t, k, n) <==> ProjectedType(k, n) == Some(Name(t)) && "pg_temp_" <= n)
    ensures t == View ==>
            (Selects(t, k, n) <==>
             ProjectedType(k, n) in {Some("VIEW"), Some("TEMPORARY VIEW")} || (k == "v" && n == "pg_toast"))
  {
    SelectsMeans(t, k, n);
    Prefixes(n);
    ProjectedIs(t, k, n);
  }

  /** The projected type by its definition, one case for each name. */
  lemma ProjectedIs(t: TableType, k: string, n: string)
    ensures ProjectedType(k, n) == Some(Name(t)) <==>
            match t
            case Table => k == "r" && !("pg_" <= n) && n != "information_schema"
            case View => k == "v" && !("pg_" <= n) && n != "information_schema"
            case SystemTable => k == "r" && (n == "pg_catalog" || n == "information_schema")
            case SystemView => k == "v" && (n == "pg_catalog" || n == "information_schema")
            case SystemToastTable => k == "r" && n == "pg_toast"
            case TemporaryTable => k == "r" && "pg_" <= n && n != "pg_catalog" && n != "pg_toast"
            case TemporaryView => k == "v" && "pg_" <= n && n != "pg_catalog" && n != "pg_toast"
  {
    Prefixes(n);
  }

  lemma {:induction false} AlternativesHold(cs: seq<Conjunction>, row: Columns)
    requires cs != []
    ensures DisjunctionHolds(Alternatives(cs), row) <==> exists i :: 0 <= i < |cs| && ConjunctionHolds(cs[i], row)
  {
    var first := Group(Just(cs[0]));
    assert DisjunctionHolds(Just(cs[0]), row) <==> ConjunctionHolds(cs[0], row);
    assert ConjunctionHolds(One(first), row) <==> AtomHolds(first, row);
    if |cs| > 1 {
      assert Alternatives(cs) == Either(One(first), Alternatives(cs[1..]));
      AlternativesHold(cs[1..], row);
      assert forall i :: 1 <= i < |cs| ==> cs[i] == cs[1..][i - 1];
    }
  }

  lemma AnyOfHolds(types: seq<TableType>, k: string, n: string)
    ensures AtomHolds(AnyOf(Conditions(types)), Row(k, n)) <==> exists t :: t in types && Selects(t, k, n)
  {
    var cs := Conditions(types);
    assert !ConjunctionHolds(One(False), Row(k, n));
    if types == [] {
      assert !DisjunctionHolds(Just(One(False)), Row(k, n));
    } else {
      AlternativesHold(cs, Row(k, n));
      assert AtomHolds(AnyOf(cs), Row(k, n)) <==> DisjunctionHolds(Alternatives(cs), Row(k, n));
      if t :| t in types && Selects(t, k, n) {
        var i :| 0 <= i < |types| && types[i] == t;
        assert ConjunctionHolds(cs[i], Row(k, n));
      }
      if i :| 0 <= i < |cs| && ConjunctionHolds(cs[i], Row(k, n)) {
        assert types[i] in types && Selects(types[i], k, n);
      }
    }
  }

  /** The filter built for a list says of a row: the condition of some type named by a field holds. */
  lemma FilterSelects(chain: Chain, list: string, k: string, n: string)
    requires forall a :: a in chain ==> AtomOk(a)
    ensures var choice := AnyOf(Conditions(Listed(list)));
            && Read(ChainText(chain) + FilterText(Conditions(Listed(list)))) == Some(chain + [choice])
            && (AtomHolds(choice, Row(k, n)) <==> exists t :: NamesType(list, t) && Selects(t, k, n))
  {
    var types := Listed(list);
    ConditionsOk(types);
    FilterReadsBack(chain, Conditions(types));
    AnyOfHolds(types, k, n);
    forall t ensures t in types <==> NamesType(list, t) {
      ListedIffNamed(list, t);
    }
  }

  // The filter in its buffer

  const MAX_TEMP_BUF_LEN := 256

  /** The list has text only up to its terminator, and the copy of it fits its buffer. */
  ghost predicate ProperList(value: seq<char>, cb: int) {
    && Terminated(value)
    && (CString(value) != "" ==>
         if cb == SQL_NTS then |CString(value)| < MAX_TEMP_BUF_LEN else 0 <= cb < MAX_TEMP_BUF_LEN)
  }

  /** `strncpy` of that many characters: up to the terminator if it comes first. */
  function CopiedList(value: seq<char>, cb: int): string
    requires cb == SQL_NTS || 0 <= cb
  {
    CString(if cb == SQL_NTS || cb >= |value| then value else value[..cb])
  }

  /** The copy is the text of the value as far as the announced length goes. */
  lemma {:induction false} CopiedIsPrefix(value: seq<char>, cb: int)
    requires cb == SQL_NTS || 0 <= cb
    ensures CopiedList(value, cb) <= CString(value)
    ensures |CopiedList(value, cb)| == if cb == SQL_NTS || |CString(value)| <= cb then |CString(value)| else cb
  {
    var s := CString(value);
    if cb != SQL_NTS && cb < |value| {
      if |s| < cb {
        CStringIs(value[..cb], s);
      } else {
        assert value[..cb] == s[..cb];
        AllText(s[..cb]);
      }
    }
  }

  lemma {:induction false} AllText(s: string)
    requires '\0' !in s
    ensures CString(s) == s
  {
    if s != "" {
      AllText(s[1..]);
    }
  }

  /** The comma list that a caller passes; `None` when there is none. */
  function GivenList(value: array?<char>, cb: int): Option<string>
    requires value != null && CString(value[..]) != "" ==> cb == SQL_NTS || 0 <= cb
    reads value
  {
    if value == null || CString(value[..]) == "" then None
    else Some(CopiedList(value[..], cb))
  }

  function GivenFilter(list: Option<string>): string {
    if list.None? then "" else FilterText(Conditions(Listed(list.value)))
  }

  lemma FittedTwice(s: string, t: string, u: string, capacity: nat)
    requires t == Fitted(s, capacity)
    ensures Fitted(t + u, capacity) == Fitted(s + u, capacity)
  {
    if |s| >= capacity > 0 {
      assert (t + u)[..capacity - 1] == s[..capacity - 1] == (s + u)[..capacity - 1];
    }
  }

  // No condition text contains the terminator

  predicate PlainAtom(a: Atom) {
    match a
    case False => true
    case Compare(c, _, v) => IsColumn(c) && '\0' !in v
    case CurrentDatabase(_, v) => '\0' !in v
    case Group(d) => PlainDisjunction(d)
  }

  predicate PlainConjunction(c: Conjunction) {
    PlainAtom(c.atom) && (c.Also? ==> PlainConjunction(c.rest))
  }

  predicate PlainDisjunction(d: Disjunction) {
    PlainConjunction(d.terms) && (d.Either? ==> PlainDisjunction(d.rest))
  }

  lemma CleanComparison(c: string, op: Comparison, v: string)
    requires IsColumn(c) && '\0' !in v
    ensures '\0' !in ComparisonText(c, op, v)
  {
    EscapedLength(v);
    assert !IsWordChar('\0');
    assert '\0' !in OpText(op);
  }

  lemma {:induction false} CleanAtom(a: Atom)
    requires PlainAtom(a)
    ensures '\0' !in AtomText(a)
    decreases a, 0
  {
    match a
    case False =>
    case Compare(c, op, v) => CleanComparison(c, op, v);
    case CurrentDatabase(op, v) => CleanDatabase(op, v);
    case Group(d) => CleanDisjunction(d);
  }

  lemma CleanDatabase(op: Comparison, v: string)
    requires '\0' !in v
    ensures '\0' !in DatabaseText(op, v)
  {
    EscapedLength(v);
    NoTerminatorInCall();
  }

  lemma {:induction false} CleanConjunction(c: Conjunction)
    requires PlainConjunction(c)
    ensures '\0' !in ConjunctionText(c)
    decreases c, 1
  {
    CleanAtom(c.atom);
    if c.Also? {
      CleanConjunction(c.rest);
    }
  }

  lemma {:induction false} CleanDisjunction(d: Disjunction)
    requires PlainDisjunction(d)
    ensures '\0' !in DisjunctionText(d)
    decreases d, 2
  {
    CleanConjunction(d.terms);
    if d.Either? {
      CleanDisjunction(d.rest);
    }
  }

  lemma PlainSystemSchemas()
    ensures PlainAtom(SYSTEM_SCHEMAS)
  {
    Columns();
    var second := One(Schema(Equal, "information_schema"));
    assert PlainConjunction(second);
    assert PlainDisjunction(Just(second));
    assert PlainConjunction(One(Schema(Equal, "pg_catalog")));
  }

  lemma PlainPair(a: Atom, b: Atom, c: Atom)
    requires PlainAtom(a) && PlainAtom(b)
    ensures PlainConjunction(Also(a, One(b)))
    ensures PlainAtom(c) ==> PlainConjunction(Also(a, Also(b, One(c))))
  {
    assert PlainConjunction(One(b));
    assert PlainAtom(c) ==> PlainConjunction(One(c)) && PlainConjunction(Also(b, One(c)));
  }

  lemma PlainSchema(op: Comparison, v: string)
    requires '\0' !in v
    ensures PlainAtom(Schema(op, v))
  {
    Columns();
  }

  lemma CleanFragment(t: TableType)
    ensures '\0' !in Fragment(Condition(t))
  {
    PlainCondition(t);
    CleanAlternative(Condition(t));
  }

  lemma CleanAlternative(c: Conjunction)
    requires PlainConjunction(c)
    ensures '\0' !in Fragment(c)
  {
    CleanConjunction(c);
  }

  lemma PlainCondition(t: TableType)
    ensures PlainConjunction(Condition(t))
  {
    Columns();
    var info := Schema(NotEqual, "information_schema");
    PlainSchema(NotEqual, "information_schema");
    match t
    case Table =>
      PlainSchema(NotMatches, "^pg_");
      PlainPair(Kind("r"), Schema(NotMatches, "^pg_"), info);
    case View =>
      PlainSchema(NotEqual, "pg_catalog");
      PlainPair(Kind("v"), Schema(NotEqual, "pg_catalog"), info);
    case SystemTable =>
      PlainSystemSchemas();
      PlainPair(Kind("r"), SYSTEM_SCHEMAS, info);
    case SystemView =>
      PlainSystemSchemas();
      PlainPair(Kind("v"), SYSTEM_SCHEMAS, info);
    case SystemToastTable =>
      PlainSchema(Equal, "pg_toast");
      PlainPair(Kind("r"), Schema(Equal, "pg_toast"), info);
    case TemporaryTable =>
      PlainSchema(Matches, "^pg_temp_");
      PlainPair(Kind("r"), Schema(Matches, "^pg_temp_"), info);
    case TemporaryView =>
      PlainSchema(Matches, "^pg_temp_");
      PlainPair(Kind("v"), Schema(Matches, "^pg_temp_"), info);
  }

  /** Appends behind a text that was cut to the buffer. */
  method AppendBehind(buffer: array<char>, ghost before: string, text: string)
    requires Terminated(buffer[..]) && '\0' !in text && CString(buffer[..]) == Fitted(before, buffer.Length)
    modifies buffer
    ensures Terminated(buffer[..]) && CString(buffer[..]) == Fitted(before + text, buffer.Length)
  {
    FittedTwice(before, CString(buffer[..]), text, buffer.Length);
    Append(buffer, text);
  }

  ghost function Through(before: string, types: seq<TableType>): string {
    before + OPENING + Fragments(Conditions(types))
  }

  /** Appends the condition of one type. */
  method AppendType(buffer: array<char>, t: TableType, ghost before: string, ghost types: seq<TableType>)
    requires Terminated(buffer[..]) && CString(buffer[..]) == Fitted(Through(before, types), buffer.Length)
    modifies buffer
    ensures Terminated(buffer[..])
    ensures CString(buffer[..]) == Fitted(Through(before, types + [t]), buffer.Length)
  {
    CleanFragment(t);
    FragmentsStep(types, t);
    TwoParts(before + OPENING, Fragments(Conditions(types)), Fragment(Condition(t)));
    AppendBehind(buffer, Through(before, types), Fragment(Condition(t)));
  }

  lemma FragmentsStep(types: seq<TableType>, t: TableType)
    ensures Fragments(Conditions(types + [t])) == Fragments(Conditions(types)) + Fragment(Condition(t))
  {
    var cs := Conditions(types + [t]);
    assert cs[..|cs| - 1] == Conditions(types);
  }

  /** `addTableTypeFilterCondition` for the local query. */
  method AddTableTypeFilterCondition(buffer: array<char>, value: array?<char>, cb: int)
    requires Terminated(buffer[..]) && value != buffer
    requires value != null ==> ProperList(value[..], cb)
    modifies buffer
    ensures Terminated(buffer[..])
    ensures CString(buffer[..]) ==
            Fitted(old(CString(buffer[..])) + GivenFilter(GivenList(value, cb)), buffer.Length)
  {
    ghost var before := CString(buffer[..]);
    assert before + "" == before;
    if value != null && value[0] != '\0' {
      AddTypes(buffer, CopiedList(value[..], cb));
    }
  }

  method AddTypes(buffer: array<char>, list: string)
    requires Terminated(buffer[..])
    modifies buffer
    ensures Terminated(buffer[..])
    ensures CString(buffer[..]) ==
            Fitted(old(CString(buffer[..])) + FilterText(Conditions(Listed(list))), buffer.Length)
  {
    ghost var before := CString(buffer[..]);
    Append(buffer, OPENING);
    assert Through(before, []) == before + OPENING;
    AddListed(buffer, list, before);
    WholeFilter(before, Conditions(Listed(list)));
    AppendBehind(buffer, Through(before, Listed(list)), CLOSING);
  }

  /** The loop over the tokens of the list. */
  method AddListed(buffer: array<char>, list: string, ghost before: string)
    requires Terminated(buffer[..]) && CString(buffer[..]) == Fitted(Through(before, []), buffer.Length)
    modifies buffer
    ensures Terminated(buffer[..])
    ensures CString(buffer[..]) == Fitted(Through(before, Listed(list)), buffer.Length)
  {
    ghost var types: seq<TableType> := [];
    var token := NextToken(list);
    while token.Some?
      invariant Terminated(buffer[..])
      invariant CString(buffer[..]) == Fitted(Through(before, types), buffer.Length)
      invariant Listed(list) == types + ListedFrom(token)
      decreases if token.Some? then 1 + |token.value.1| else 0
    {
      ListedStep(types, token);
      types := AddToken(buffer, Trim(token.value.0), before, types);
      token := NextToken(token.value.1);
    }
    assert types == Listed(list);
  }

  /** Appends the condition of the type that the token spells, if any. */
  method AddToken(buffer: array<char>, name: string, ghost before: string, ghost types: seq<TableType>)
    returns (ghost types': seq<TableType>)
    requires Terminated(buffer[..]) && CString(buffer[..]) == Fitted(Through(before, types), buffer.Length)
    modifies buffer
    ensures types' == types + AddedTypes(name)
    ensures Terminated(buffer[..])
    ensures CString(buffer[..]) == Fitted(Through(before, types'), buffer.Length)
  {
    types' := types;
    var t := TypeOf(name);
    if t.Some? {
      AppendType(buffer, t.value, before, types);
      types' := types + [t.value];
    }
  }

  /** The types of a token and of the text behind it. */
  ghost function ListedFrom(token: Option<(string, string)>): seq<TableType> {
    if token.None? then []
    else AddedTypes(Trim(token.value.0)) + Listed(token.value.1)
  }

  lemma ListedStep(types: seq<TableType>, token: Option<(string, string)>)
    requires token.Some?
    ensures types + ListedFrom(token) ==
            (types + AddedTypes(Trim(token.value.0))) + ListedFrom(NextToken(token.value.1))
  {
    assert Listed(token.value.1) == ListedFrom(NextToken(token.value.1));
  }

  lemma FourTexts(a: string, b: string, c: string, d: string)
    ensures a + b + c + d == a + (b + c + d)
  {
  }

  lemma WholeFilter(before: string, cs: seq<Conjunction>)
    ensures before + OPENING + Fragments(cs) + CLOSING == before + FilterText(cs)
  {
    FourTexts(before, OPENING, Fragments(cs), CLOSING);
  }
}
