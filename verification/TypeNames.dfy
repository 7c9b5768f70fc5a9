/** Data type names as the server reports them, with an optional precision in parentheses. */
module TypeNames {
  import opened Wrappers
  import opened Blanks
  import opened DataTypeNames
  import Regex

  datatype SqlType =
    | Varchar | WVarchar | Char | WChar | LongVarchar | WLongVarchar | SmallInt | Integer | BigInt | Real | Double
    | Numeric | Bit | LongVarbinary | Unknown | Datetime | Interval | IntervalYearToMonth | IntervalDayToSecond
    | Date2 | TypeDate | Time2 | TypeTime | Timestamp2 | TypeTimestamp

  datatype Subtype = NotApplicable | CodeDate | CodeTime | CodeTimestamp | CodeYearToMonth | CodeDayToSecond

  datatype TypeInfo = TypeInfo(sqlType: SqlType, sqlDataType: SqlType, subtype: Subtype, name: string)

  datatype Processed =
    Processed(typeInfo: Option<TypeInfo>, cleanedName: string, precision: int, hasCustomPrecision: bool)

  datatype Failure = OutOfRange

  // The type tables

  const DATE_TIME_TYPES: set<string> := {
    "date", "time", "time without time zone", "timetz", "time with time zone", "timestamp",
    "timestamp without time zone", "timestamptz", "timestamp with time zone"
  }

  function DateTimeInfo(name: string, odbc2: bool): Option<TypeInfo> {
    var time := if odbc2 then Time2 else TypeTime;
    var timestamp := if odbc2 then Timestamp2 else TypeTimestamp;
    if name == "date" then
      Some(TypeInfo(if odbc2 then Date2 else TypeDate, Datetime, CodeDate, "date"))
    else if name == "time" || name == "time without time zone" then
      Some(TypeInfo(time, Datetime, CodeTime, "time"))
    else if name == "timetz" || name == "time with time zone" then
      Some(TypeInfo(time, Datetime, CodeTime, "timetz"))
    else if name == "timestamp" || name == "timestamp without time zone" then
      Some(TypeInfo(timestamp, Datetime, CodeTimestamp, "timestamp"))
    else if name == "timestamptz" || name == "timestamp with time zone" then
      Some(TypeInfo(timestamp, Datetime, CodeTimestamp, "timestamptz"))
    else None
  }

  function Plain(t: SqlType, name: string): TypeInfo {
    TypeInfo(t, t, NotApplicable, name)
  }

  const YEAR_TO_MONTH := TypeInfo(IntervalYearToMonth, Interval, CodeYearToMonth, "intervaly2m")
  const DAY_TO_SECOND := TypeInfo(IntervalDayToSecond, Interval, CodeDayToSecond, "intervald2s")

  const TYPE_INFO_MAP: map<string, TypeInfo> := map[
    "character varying" := Plain(Varchar, "varchar"),
    "character" := Plain(Char, "char"),
    "\"char\"" := Plain(Char, "char"),
    "bpchar" := Plain(Char, "char"),
    "varchar" := Plain(Varchar, "varchar"),
    "smallint" := Plain(SmallInt, "int2"),
    "integer" := Plain(Integer, "int4"),
    "bigint" := Plain(BigInt, "int8"),
    "real" := Plain(Real, "float4"),
    "double precision" := Plain(Double, "float8"),
    "numeric" := Plain(Numeric, "numeric"),
    "boolean" := Plain(Bit, "bool"),
    "interval year to month" := YEAR_TO_MONTH,
    "interval year" := YEAR_TO_MONTH,
    "interval month" := YEAR_TO_MONTH,
    "interval day to second" := DAY_TO_SECOND,
    "interval day" := DAY_TO_SECOND,
    "interval second" := DAY_TO_SECOND,
    "super" := Plain(LongVarchar, "super"),
    "binary varying" := Plain(LongVarbinary, "varbyte"),
    "geometry" := Plain(LongVarbinary, "geometry"),
    "geography" := Plain(LongVarbinary, "geography"),
    "hllsketch" := Plain(Unknown, "hllsketch"),
    "binary" := Plain(LongVarbinary, "binary"),
    "string" := Plain(Varchar, "string")
  ]

  /** `(array|map|struct).*` */
  predicate IsGlueSuper(name: string) {
    ("array" <= name || "map" <= name || "struct" <= name) && !Regex.HasLineTerminator(name)
  }

  /** `getTypeInfo`. */
  function GetTypeInfo(name: string, odbc2: bool): Option<TypeInfo> {
    if IsGlueSuper(name) then Some(Plain(LongVarchar, name))
    else if name in DATE_TIME_TYPES then DateTimeInfo(name, odbc2)
    else if name in TYPE_INFO_MAP then Some(TYPE_INFO_MAP[name])
    else None
  }

  // Digits in parentheses

  predicate IsDigit(c: char) {
    '0' <= c <= '9'
  }

  function DigitRun(s: string): (n: nat)
    ensures n <= |s|
  {
    if s == "" || !IsDigit(s[0]) then 0 else 1 + DigitRun(s[1..])
  }

  /** The length of a group `\(\d+\)` at the start; 0 if there is none. */
  function GroupLength(s: string): (n: nat)
    ensures n <= |s| && (n > 0 ==> n >= 3 && s[0] == '(')
  {
    if s == "" || s[0] != '(' then 0
    else
      var n := DigitRun(s[1..]);
      if n > 0 && n + 1 < |s| && s[n + 1] == ')' then n + 2 else 0
  }

  /** The text without the groups: `regex_replace` with the empty text. */
  function RemoveGroups(s: string): string
    decreases |s|
  {
    if s == "" then ""
    else if GroupLength(s) > 0 then RemoveGroups(s[GroupLength(s)..])
    else [s[0]] + RemoveGroups(s[1..])
  }

  /** The digits that `.*\(([0-9]+)\).*` captures in a line: those of the last group. */
  function LastGroup(s: string): Option<string> {
    if s == "" then None
    else
      var later := LastGroup(s[1..]);
      if later.Some? then later
      else if GroupLength(s) > 0 then Some(s[1..GroupLength(s) - 1])
      else None
  }

  // The two kinds of names with a precision

  const TIME_NAMES: seq<string> := [
    "time", "time without time zone", "timetz", "time with time zone", "timestamp",
    "timestamp without time zone", "timestamptz", "timestamp with time zone"
  ]

  /** `w.*.\(\d+\)` before position `p` and a group at `p`. */
  predicate GroupBehind(w: string, s: string, p: nat) {
    && w <= s && |w| < p < |s| && GroupLength(s[p..]) > 0
    && !Regex.HasLineTerminator(s[|w|..])
  }

  predicate IsTimeWithPrecision(s: string) {
    exists w, p: nat :: w in TIME_NAMES && p < |s| && GroupBehind(w, s, p)
  }

  predicate IsIntervalWithPrecision(s: string) {
    exists p: nat :: p < |s| && GroupBehind("interval", s, p) && p + GroupLength(s[p..]) == |s|
  }

  // Processing

  function DigitValue(c: char): nat
    requires IsDigit(c)
  {
    c as int - '0' as int
  }

  /** The value of a text of digits. */
  function Value(s: string): nat
    requires forall i :: 0 <= i < |s| ==> IsDigit(s[i])
  {
    if s == "" then 0 else 10 * Value(s[..|s| - 1]) + DigitValue(s[|s| - 1])
  }

  lemma {:induction false} DigitsOfRun(s: string)
    ensures forall i :: 0 <= i < DigitRun(s) ==> IsDigit(s[i])
    ensures DigitRun(s) < |s| ==> !IsDigit(s[DigitRun(s)])
  {
    if s != "" && IsDigit(s[0]) {
      DigitsOfRun(s[1..]);
    }
  }

  lemma {:induction false} LastGroupIsDigits(s: string)
    ensures LastGroup(s).Some? ==> forall i :: 0 <= i < |LastGroup(s).value| ==> IsDigit(LastGroup(s).value[i])
  {
    if s != "" {
      LastGroupIsDigits(s[1..]);
      DigitsOfRun(s[1..]);
    }
  }

  /** `std::stoi`. */
  function ToInt(s: string): Result<int, Failure>
    requires forall i :: 0 <= i < |s| ==> IsDigit(s[i])
  {
    if Value(s) <= 0x7FFF_FFFF then Ok(Value(s)) else Err(OutOfRange)
  }

  function Widened(info: Option<TypeInfo>, useUnicode: bool): Option<TypeInfo> {
    if !useUnicode || info.None? then info
    else match info.value.sqlType
      case Varchar => Some(info.value.(sqlType := WVarchar, sqlDataType := WVarchar))
      case Char => Some(info.value.(sqlType := WChar, sqlDataType := WChar))
      case LongVarchar => Some(info.value.(sqlType := WLongVarchar, sqlDataType := WLongVarchar))
      case _ => info
  }

  /** `processDataTypeInfo`. */
  function Process(name: string, odbc2: bool, useUnicode: bool): Result<Processed, Failure> {
    if IsTimeWithPrecision(name) || IsIntervalWithPrecision(name) then
      var cleaned := TrimLeft(TrimRight(RemoveGroups(name)));
      var info := Widened(GetTypeInfo(cleaned, odbc2), useUnicode);
      LastGroupIsDigits(name);
      if LastGroup(name).None? then Ok(Processed(info, cleaned, 0, false))
      else match ToInt(LastGroup(name).value)
        case Ok(n) => Ok(Processed(info, cleaned, n, true))
        case Err(e) => Err(e)
    else
      Ok(Processed(Widened(GetTypeInfo(Lower(name), odbc2), useUnicode), name, 0, false))
  }

  // Round trip

  function Decimal(n: nat): string {
    var last := [('0' as int + n % 10) as char];
    if n < 10 then last else Decimal(n / 10) + last
  }

  lemma {:induction false} DecimalDigits(n: nat)
    ensures Decimal(n) != "" && forall i :: 0 <= i < |Decimal(n)| ==> IsDigit(Decimal(n)[i])
  {
    if n >= 10 {
      DecimalDigits(n / 10);
    }
  }

  lemma {:induction false} DecimalValue(n: nat)
    requires forall i :: 0 <= i < |Decimal(n)| ==> IsDigit(Decimal(n)[i])
    ensures Value(Decimal(n)) == n
  {
    var last := ('0' as int + n % 10) as char;
    assert DigitValue(last) == n % 10;
    if n < 10 {
      assert [last][..0] == "";
    } else {
      DecimalDigits(n / 10);
      DecimalValue(n / 10);
      assert Decimal(n)[..|Decimal(n)| - 1] == Decimal(n / 10);
    }
  }

  /** `pre(n)suf`. */
  function WithPrecision(pre: string, n: nat, suf: string): string {
    pre + ("(" + Decimal(n) + ")" + suf)
  }

  predicate NoGroup(s: string) {
    '(' !in s && !Regex.HasLineTerminator(s)
  }

  lemma {:induction false} RunOfDigits(ds: string, rest: string)
    requires forall i :: 0 <= i < |ds| ==> IsDigit(ds[i])
    requires rest != "" && !IsDigit(rest[0])
    ensures DigitRun(ds + rest) == |ds|
  {
    var all := ds + rest;
    if ds == "" {
      assert all == rest;
    } else {
      assert all[0] == ds[0] && all[1..] == ds[1..] + rest;
      RunOfDigits(ds[1..], rest);
    }
  }

  lemma GroupAt(n: nat, suf: string)
    ensures GroupLength("(" + Decimal(n) + ")" + suf) == |Decimal(n)| + 2
  {
    DecimalDigits(n);
    var s := "(" + Decimal(n) + ")" + suf;
    assert s[1..] == Decimal(n) + (")" + suf);
    RunOfDigits(Decimal(n), ")" + suf);
    assert s[|Decimal(n)| + 1] == ')';
  }

  lemma {:induction false} LastGroupBehind(pre: string, s: string)
    requires LastGroup(s).Some?
    ensures LastGroup(pre + s) == LastGroup(s)
  {
    var all := pre + s;
    if pre == "" {
      assert all == s;
    } else {
      assert all[1..] == pre[1..] + s;
      LastGroupBehind(pre[1..], s);
    }
  }

  lemma {:induction false} RunBeforeGroup(s: string, t: string)
    requires t != "" && t[0] == '('
    ensures DigitRun(s + t) == DigitRun(s)
  {
    if s == "" {
      assert s + t == t;
    } else {
      assert (s + t)[0] == s[0] && (s + t)[1..] == s[1..] + t;
      RunBeforeGroup(s[1..], t);
    }
  }

  lemma GroupBeforeGroup(s: string, t: string)
    requires s != "" && t != "" && t[0] == '('
    ensures GroupLength(s + t) == GroupLength(s)
  {
    assert (s + t)[0] == s[0] && (s + t)[1..] == s[1..] + t;
    RunBeforeGroup(s[1..], t);
    var n := DigitRun(s[1..]);
    assert n + 1 < |s| ==> (s + t)[n + 1] == s[n + 1];
    assert n + 1 == |s| ==> (s + t)[n + 1] == t[0];
  }

  /** What follows an opening parenthesis is cleaned by itself. */
  lemma {:induction false} RemovedBeforeGroup(s: string, t: string)
    requires t != "" && t[0] == '('
    ensures RemoveGroups(s + t) == RemoveGroups(s) + RemoveGroups(t)
    decreases |s|
  {
    if s == "" {
      assert s + t == t;
    } else {
      GroupBeforeGroup(s, t);
      var n := if GroupLength(s) > 0 then GroupLength(s) else 1;
      assert (s + t)[0] == s[0] && (s + t)[n..] == s[n..] + t;
      RemovedBeforeGroup(s[n..], t);
    }
  }

  lemma {:induction false} NoLastGroup(s: string)
    requires '(' !in s
    ensures LastGroup(s) == None && RemoveGroups(s) == s
  {
    if s != "" {
      NoLastGroup(s[1..]);
    }
  }

  lemma OneGroup(pre: string, n: nat, suf: string, p: nat)
    requires NoGroup(pre) && NoGroup(suf) && p < |WithPrecision(pre, n, suf)|
    ensures GroupLength(WithPrecision(pre, n, suf)[p..]) > 0 <==> p == |pre|
    ensures p == |pre| ==> GroupLength(WithPrecision(pre, n, suf)[p..]) == |Decimal(n)| + 2
  {
    var s := WithPrecision(pre, n, suf);
    DecimalDigits(n);
    if p == |pre| {
      assert s[p..] == "(" + Decimal(n) + ")" + suf;
      GroupAt(n, suf);
    } else {
      assert s[p..][0] == s[p];
      assert s[p] != '(' by {
        if p < |pre| {
          assert s[p] == pre[p];
        } else if p <= |pre| + |Decimal(n)| {
          assert s[p] == Decimal(n)[p - |pre| - 1];
        } else if p == |pre| + |Decimal(n)| + 1 {
          assert s[p] == ')';
        } else {
          assert s[p] == suf[p - |pre| - |Decimal(n)| - 2];
        }
      }
    }
  }

  lemma OneLine(pre: string, n: nat, suf: string, from: nat)
    requires !Regex.HasLineTerminator(pre) && NoGroup(suf) && from <= |WithPrecision(pre, n, suf)|
    ensures !Regex.HasLineTerminator(WithPrecision(pre, n, suf)[from..])
  {
    DecimalDigits(n);
    var s := WithPrecision(pre, n, suf);
    var middle := "(" + Decimal(n) + ")";
    assert s == pre + middle + suf;
    assert forall k :: 0 <= k < |middle| ==> !Regex.IsLineTerminator(middle[k]);
    forall k | from <= k < |s| ensures !Regex.IsLineTerminator(s[k]) {
      if k < |pre| {
        assert s[k] == pre[k];
      } else if k < |pre| + |middle| {
        assert s[k] == middle[k - |pre|];
      } else {
        assert s[k] == suf[k - |pre| - |middle|];
      }
    }
  }

  lemma BehindIff(w: string, pre: string, n: nat, suf: string, p: nat)
    requires NoGroup(pre) && NoGroup(suf) && p < |WithPrecision(pre, n, suf)|
    ensures GroupBehind(w, WithPrecision(pre, n, suf), p) <==> p == |pre| && w <= pre && |w| < |pre|
  {
    var s := WithPrecision(pre, n, suf);
    OneGroup(pre, n, suf, p);
    assert s[..|pre|] == pre;
    if p == |pre| && |w| < |pre| {
      OneLine(pre, n, suf, |w|);
      assert s[..|w|] == pre[..|w|];
    }
  }

  /** All names that may precede a precision begin with `time`. */
  lemma TimeNamesBegin(w: string)
    requires w in TIME_NAMES
    ensures "time" <= w
  {
    var i :| 0 <= i < |TIME_NAMES| && TIME_NAMES[i] == w;
  }

  lemma TimeTails(w: string)
    requires w in TIME_NAMES
    ensures "time" <= w && forall k :: 4 <= k < |w| ==> !Regex.IsLineTerminator(w[k])
  {
    TimeNamesBegin(w);
    var i :| 0 <= i < |TIME_NAMES| && TIME_NAMES[i] == w;
  }

  /** Some group stands behind position `p` at the earliest. */
  ghost predicate GroupFrom(s: string, p: nat, atEnd: bool) {
    exists q: nat :: p <= q < |s| && GroupLength(s[q..]) > 0 && (atEnd ==> q + GroupLength(s[q..]) == |s|)
  }

  lemma TimeRecognizedIf(s: string)
    requires "time" <= s && !Regex.HasLineTerminator(s[4..]) && GroupFrom(s, 5, false)
    ensures IsTimeWithPrecision(s)
  {
    hide GroupLength, Regex.HasLineTerminator;
    var q: nat :| 5 <= q < |s| && GroupLength(s[q..]) > 0;
    assert TIME_NAMES[0] == "time";
    assert GroupBehind("time", s, q);
  }

  lemma TimeRecognizedOnlyIf(s: string)
    requires IsTimeWithPrecision(s)
    ensures "time" <= s && !Regex.HasLineTerminator(s[4..]) && GroupFrom(s, 5, false)
  {
    hide GroupLength;
    var w, p: nat :| w in TIME_NAMES && p < |s| && GroupBehind(w, s, p);
    TimeTails(w);
    hide TIME_NAMES;
    assert w[..4] == "time" && s[..4] == w[..4];
    forall k | 4 <= k < |s| ensures !Regex.IsLineTerminator(s[k]) {
      assert s[k] == if k < |w| then w[k] else s[|w|..][k - |w|];
    }
  }

  lemma IntervalRecognizedIff(s: string)
    ensures IsIntervalWithPrecision(s) <==>
            "interval" <= s && !Regex.HasLineTerminator(s[8..]) && GroupFrom(s, 9, true)
  {
    hide GroupLength, Regex.HasLineTerminator;
    if "interval" <= s && !Regex.HasLineTerminator(s[8..]) && GroupFrom(s, 9, true) {
      var q: nat :| 9 <= q < |s| && GroupLength(s[q..]) > 0 && q + GroupLength(s[q..]) == |s|;
      assert GroupBehind("interval", s, q);
    }
  }

  /** A name is recognized exactly when it begins with `time` or `interval`, has no line terminator behind that, and
      has a group with at least one character before it there; the group ends an interval name. */
  lemma RecognizedIff(s: string)
    ensures IsTimeWithPrecision(s) <==>
            "time" <= s && !Regex.HasLineTerminator(s[4..]) && GroupFrom(s, 5, false)
    ensures IsIntervalWithPrecision(s) <==>
            "interval" <= s && !Regex.HasLineTerminator(s[8..]) && GroupFrom(s, 9, true)
  {
    hide IsTimeWithPrecision, IsIntervalWithPrecision, GroupFrom, Regex.HasLineTerminator;
    if IsTimeWithPrecision(s) {
      TimeRecognizedOnlyIf(s);
    } else if "time" <= s && !Regex.HasLineTerminator(s[4..]) && GroupFrom(s, 5, false) {
      TimeRecognizedIf(s);
    }
    IntervalRecognizedIff(s);
  }

  /** With one group, a precision is recognized exactly when at least one character separates it from the word
      `time` or `interval`, and for an interval nothing follows it. */
  lemma OneGroupRecognizedIff(pre: string, n: nat, suf: string)
    requires NoGroup(pre) && NoGroup(suf)
    ensures IsTimeWithPrecision(WithPrecision(pre, n, suf)) <==> "time" <= pre && |pre| > 4
    ensures IsIntervalWithPrecision(WithPrecision(pre, n, suf)) <==> "interval" <= pre && |pre| > 8 && suf == ""
  {
    var s := WithPrecision(pre, n, suf);
    if "time" <= pre && |pre| > 4 {
      BehindIff("time", pre, n, suf, |pre|);
      assert TIME_NAMES[0] == "time";
    }
    if IsTimeWithPrecision(s) {
      var w, p: nat :| w in TIME_NAMES && p < |s| && GroupBehind(w, s, p);
      BehindIff(w, pre, n, suf, p);
      TimeNamesBegin(w);
    }
    OneGroup(pre, n, suf, |pre|);
    BehindIff("interval", pre, n, suf, |pre|);
    if IsIntervalWithPrecision(s) {
      var p: nat :| p < |s| && GroupBehind("interval", s, p) && p + GroupLength(s[p..]) == |s|;
      BehindIff("interval", pre, n, suf, p);
    }
  }

  lemma GroupIsRecognized(front: string, n: nat, suf: string)
    requires !Regex.HasLineTerminator(front) && NoGroup(suf)
    requires ("time" <= front && |front| > 4) || ("interval" <= front && |front| > 8 && suf == "")
    ensures var s := WithPrecision(front, n, suf);
            IsTimeWithPrecision(s) || IsIntervalWithPrecision(s)
  {
    hide IsTimeWithPrecision, IsIntervalWithPrecision;
    var s := WithPrecision(front, n, suf);
    var p := |front|;
    GroupAt(n, suf);
    assert s[p..] == "(" + Decimal(n) + ")" + suf;
    DecimalDigits(n);
    RecognizedIff(s);
    if "time" <= front && p > 4 {
      OneLine(front, n, suf, 4);
      assert s[..4] == front[..4];
      assert GroupFrom(s, 5, false);
    } else {
      OneLine(front, n, suf, 8);
      assert s[..8] == front[..8];
      assert GroupFrom(s, 9, true);
    }
  }

  /** Of a recognized name the last precision is read back, and all precisions are cut out; one above the 32-bit range
      is an error. What is left has no blanks around it. */
  lemma PrecisionReadsBack(front: string, n: nat, suf: string, odbc2: bool, useUnicode: bool)
    returns (cleaned: string)
    requires !Regex.HasLineTerminator(front) && NoGroup(suf)
    requires ("time" <= front && |front| > 4) || ("interval" <= front && |front| > 8 && suf == "")
    ensures Padded(RemoveGroups(front) + suf, cleaned) && (cleaned == "" || Solid(cleaned))
    ensures Process(WithPrecision(front, n, suf), odbc2, useUnicode) ==
            if n > 0x7FFF_FFFF then Err(OutOfRange)
            else Ok(Processed(Widened(GetTypeInfo(cleaned, odbc2), useUnicode), cleaned, n, true))
  {
    var group := "(" + Decimal(n) + ")";
    cleaned := TrimLeft(TrimRight(RemoveGroups(front) + suf));
    TrimmedRightFirst(RemoveGroups(front) + suf);
    GroupIsRecognized(front, n, suf);
    GroupAt(n, suf);
    DecimalDigits(n);
    DecimalValue(n);
    NoLastGroup(suf);
    assert (group + suf)[|group|..] == suf;
    assert RemoveGroups(group + suf) == suf;
    RemovedBeforeGroup(front, group + suf);
    GroupHeads(n, suf);
    LastGroupBehind(front, group + suf);
  }

  lemma GroupHeads(n: nat, suf: string)
    requires '(' !in suf
    ensures LastGroup("(" + Decimal(n) + ")" + suf) == Some(Decimal(n))
  {
    var s := "(" + Decimal(n) + ")" + suf;
    GroupAt(n, suf);
    DecimalDigits(n);
    assert s[1..] == Decimal(n) + ")" + suf;
    NoLastGroup(s[1..]);
    assert s[1..|Decimal(n)| + 1] == Decimal(n);
  }

  lemma TrimmedStays(b: string, cleaned: string)
    requires Solid(b) && Padded(b + " ", cleaned) && (cleaned == "" || Solid(cleaned))
    ensures cleaned == b
  {
    assert AllSpaces("") && AllSpaces(" ") && b + " " == "" + (b + " ");
    assert Padded(b + " ", b);
    TrimFinds(b + " ", b);
    if cleaned != "" {
      TrimFinds(b + " ", cleaned);
    }
  }

  /** A name of a fractional-time or interval type, as the server spells it. */
  predicate IsPlainName(b: string) {
    && ("time" <= b || "interval" <= b)
    && Lower(b) == b && NoGroup(b)
    && !IsSpace(b[0]) && !IsSpace(b[|b| - 1])
  }

  lemma PlainNotRecognized(b: string)
    requires NoGroup(b)
    ensures !IsTimeWithPrecision(b) && !IsIntervalWithPrecision(b)
  {
    forall p: nat | p < |b| ensures GroupLength(b[p..]) == 0 {
      assert b[p..][0] == b[p];
    }
  }

  /** A type name followed by a blank and a precision has the name and the type of the plain name. */
  lemma PrecisionKeepsType(b: string, n: nat, odbc2: bool, useUnicode: bool)
    requires IsPlainName(b) && n <= 0x7FFF_FFFF
    ensures Process(b, odbc2, useUnicode).Ok?
    ensures Process(b + " (" + Decimal(n) + ")", odbc2, useUnicode) ==
            Ok(Process(b, odbc2, useUnicode).value.(precision := n, hasCustomPrecision := true))
  {
    var pre := b + " ";
    SpacedText(b, n);
    SpacedName(b);
    var cleaned := PrecisionReadsBack(pre, n, "", odbc2, useUnicode);
    NoLastGroup(pre);
    assert pre + "" == pre;
    TrimmedStays(b, cleaned);
    PlainNotRecognized(b);
  }

  lemma SpacedText(b: string, n: nat)
    ensures b + " (" + Decimal(n) + ")" == WithPrecision(b + " ", n, "")
  {
    assert " (" == " " + "(";
    assert "(" + Decimal(n) + ")" + "" == "(" + Decimal(n) + ")";
  }

  lemma SpacedName(b: string)
    requires IsPlainName(b)
    ensures NoGroup(b + " ")
    ensures "time" <= b ==> "time" <= b + " " && |b + " "| > 4
    ensures "interval" <= b ==> "interval" <= b + " " && |b + " "| > 8
  {
    assert !Regex.IsLineTerminator(' ');
    assert forall k :: 0 <= k < |b| ==> (b + " ")[k] == b[k];
  }

  lemma NoKeyBegins(x: string)
    requires x in DATE_TIME_TYPES || x in TYPE_INFO_MAP
    ensures !("time(" <= x)
  {
    assert "time("[0] == 't' && "time("[4] == '(';
  }

  /** Written without a blank, `time(n)` is passed on whole, as an unknown type without a precision. */
  lemma GluedTime(n: nat, odbc2: bool, useUnicode: bool)
    ensures Process("time" + "(" + Decimal(n) + ")", odbc2, useUnicode) ==
            Ok(Processed(None, "time" + "(" + Decimal(n) + ")", 0, false))
  {
    var text := "time" + "(" + Decimal(n) + ")";
    assert text == WithPrecision("time", n, "");
    assert !("interval" <= "time");
    OneGroupRecognizedIff("time", n, "");
    var low := Lower(text);
    assert low[..5] == "time(";
    if low in DATE_TIME_TYPES || low in TYPE_INFO_MAP {
      NoKeyBegins(low);
    }
    assert !IsGlueSuper(low) by {
      assert low[0] == 't' && "array"[0] == 'a' && "map"[0] == 'm' && "struct"[0] == 's';
    }
  }

  // The names of the type tables

  predicate IsLowerWords(b: string) {
    b != "" && b[|b| - 1] != ' ' && forall i :: 0 <= i < |b| ==> 'a' <= b[i] <= 'z' || b[i] == ' '
  }

  lemma LowerWordsArePlain(b: string)
    requires IsLowerWords(b) && ("time" <= b || "interval" <= b)
    ensures IsPlainName(b)
  {
    assert "time"[0] == 't' && "interval"[0] == 'i';
    assert b[0] == 't' || b[0] == 'i';
  }

  lemma PlainTimes()
    ensures IsPlainName("time") && IsPlainName("timetz") && IsPlainName("timestamp") && IsPlainName("timestamptz")
  {
    LowerWordsArePlain("time");
    LowerWordsArePlain("timetz");
    LowerWordsArePlain("timestamp");
    LowerWordsArePlain("timestamptz");
  }

  lemma PlainWithoutZone()
    ensures IsPlainName("time without time zone")
  {
    LowerWordsArePlain("time without time zone");
  }

  lemma PlainWithZone()
    ensures IsPlainName("time with time zone")
  {
    LowerWordsArePlain("time with time zone");
  }

  lemma PlainTimestampWithoutZone()
    ensures IsPlainName("timestamp without time zone")
  {
    LowerWordsArePlain("timestamp without time zone");
  }

  lemma PlainTimestampWithZone()
    ensures IsPlainName("timestamp with time zone")
  {
    LowerWordsArePlain("timestamp with time zone");
  }

  lemma PlainIntervals()
    ensures IsPlainName("interval year") && IsPlainName("interval month")
    ensures IsPlainName("interval day") && IsPlainName("interval second")
  {
    LowerWordsArePlain("interval year");
    LowerWordsArePlain("interval month");
    LowerWordsArePlain("interval day");
    LowerWordsArePlain("interval second");
  }

  lemma PlainYearToMonth()
    ensures IsPlainName("interval year to month")
  {
    LowerWordsArePlain("interval year to month");
  }

  lemma PlainDayToSecond()
    ensures IsPlainName("interval day to second")
  {
    LowerWordsArePlain("interval day to second");
  }

  /** Every fractional-time name of the tables is a plain name, and so is every interval name. */
  lemma TableNamesArePlain(b: string)
    requires b in TIME_NAMES || (b in TYPE_INFO_MAP && "interval" <= b)
    ensures IsPlainName(b)
  {
    PlainTimes();
    PlainWithoutZone();
    PlainWithZone();
    PlainTimestampWithoutZone();
    PlainTimestampWithZone();
    PlainIntervals();
    PlainYearToMonth();
    PlainDayToSecond();
    if b in TYPE_INFO_MAP && "interval" <= b {
      IntervalKeys(b);
    } else {
      var i :| 0 <= i < |TIME_NAMES| && TIME_NAMES[i] == b;
    }
  }

  /** With the precision glued to it, every fractional-time and interval name of the tables is recognized, except
      `time`. */
  lemma GluedRecognizedIff(b: string, n: nat)
    requires b in TIME_NAMES || (b in TYPE_INFO_MAP && "interval" <= b)
    ensures var s := b + "(" + Decimal(n) + ")";
            IsTimeWithPrecision(s) || IsIntervalWithPrecision(s) <==> b != "time"
  {
    hide IsTimeWithPrecision, IsIntervalWithPrecision, IsPlainName;
    assert b + "(" + Decimal(n) + ")" == WithPrecision(b, n, "");
    GluedNames(b);
    OneGroupRecognizedIff(b, n, "");
  }

  lemma GluedNames(b: string)
    requires b in TIME_NAMES || (b in TYPE_INFO_MAP && "interval" <= b)
    ensures NoGroup(b) && NoGroup("") && ("time" <= b || ("interval" <= b && |b| > 8)) && (|b| <= 4 ==> b == "time")
  {
    hide IsTimeWithPrecision, IsIntervalWithPrecision;
    TableNamesArePlain(b);
    if b in TIME_NAMES {
      TimeNamesBegin(b);
    } else {
      IntervalKeys(b);
    }
  }

  lemma IntervalKeys(b: string)
    requires b in TYPE_INFO_MAP && "interval" <= b
    ensures b in {"interval year to month", "interval year", "interval month",
                  "interval day to second", "interval day", "interval second"}
  {
    assert "interval"[0] == 'i' && "interval"[2] == 't' && "interval"[3] == 'e' && "interval"[4] == 'r';
    assert b[0] == 'i' && b[2] == 't' && b[4] == 'r';
  }

  // Laws of the types

  /** The concise type and the verbose type belong to the subcode. */
  predicate Consistent(info: TypeInfo, odbc2: bool) {
    match info.subtype
    case CodeDate => info.sqlDataType == Datetime && info.sqlType == if odbc2 then Date2 else TypeDate
    case CodeTime => info.sqlDataType == Datetime && info.sqlType == if odbc2 then Time2 else TypeTime
    case CodeTimestamp =>
      info.sqlDataType == Datetime && info.sqlType == if odbc2 then Timestamp2 else TypeTimestamp
    case CodeYearToMonth => info.sqlDataType == Interval && info.sqlType == IntervalYearToMonth
    case CodeDayToSecond => info.sqlDataType == Interval && info.sqlType == IntervalDayToSecond
    case NotApplicable =>
      && info.sqlDataType == info.sqlType
      && info.sqlType !in {Datetime, Interval, IntervalYearToMonth, IntervalDayToSecond, Date2, TypeDate, Time2,
                           TypeTime, Timestamp2, TypeTimestamp}
  }

  lemma TableIsConsistent(name: string, odbc2: bool)
    requires name in TYPE_INFO_MAP
    ensures Consistent(TYPE_INFO_MAP[name], odbc2)
  {
  }

  lemma DateTimesAreConsistent(name: string, odbc2: bool)
    requires DateTimeInfo(name, odbc2).Some?
    ensures Consistent(DateTimeInfo(name, odbc2).value, odbc2)
  {
  }

  /** The concise type, the verbose type and the subcode go together, and ODBC 2 applications get the concise types of
      ODBC 2. */
  lemma TypesAgree(name: string, odbc2: bool)
    requires GetTypeInfo(name, odbc2).Some?
    ensures Consistent(GetTypeInfo(name, odbc2).value, odbc2)
  {
    if !IsGlueSuper(name) {
      if name in DATE_TIME_TYPES {
        DateTimesAreConsistent(name, odbc2);
      } else {
        TableIsConsistent(name, odbc2);
      }
      hide Consistent, DateTimeInfo, TYPE_INFO_MAP, DATE_TIME_TYPES, IsGlueSuper;
    }
  }

  /** Unicode applications get the wide character types, other applications the narrow ones, and nothing else
      changes. */
  lemma UnicodeWidens(name: string, odbc2: bool)
    ensures var narrow, wide := Process(name, odbc2, false), Process(name, odbc2, true);
            && narrow.Ok? == wide.Ok?
            && (narrow.Ok? ==>
                 && wide.value.(typeInfo := narrow.value.typeInfo) == narrow.value
                 && wide.value.typeInfo.Some? == narrow.value.typeInfo.Some?)
            && (narrow.Ok? && narrow.value.typeInfo.Some? ==>
                 var n, w := narrow.value.typeInfo.value, wide.value.typeInfo.value;
                 && n.sqlType !in {WVarchar, WChar, WLongVarchar}
                 && w.sqlType !in {Varchar, Char, LongVarchar}
                 && (n.sqlType == Varchar <==> w.sqlType == WVarchar)
                 && (n.sqlType == Char <==> w.sqlType == WChar)
                 && (n.sqlType == LongVarchar <==> w.sqlType == WLongVarchar)
                 && (n.sqlType !in {Varchar, Char, LongVarchar} ==> n == w)
                 && (n.sqlType in {Varchar, Char, LongVarchar} ==> w.sqlDataType == w.sqlType)
                 && w.(sqlType := n.sqlType, sqlDataType := n.sqlDataType) == n)
  {
    hide GetTypeInfo, IsTimeWithPrecision, IsIntervalWithPrecision, LastGroup, RemoveGroups, TrimLeft, TrimRight;
    LastGroupIsDigits(name);
    forall x: string ensures NarrowInfo(GetTypeInfo(x, odbc2)) {
      InfosAreNarrow(x, odbc2);
    }
  }

  predicate NarrowInfo(info: Option<TypeInfo>) {
    info.Some? ==> info.value.sqlType !in {WVarchar, WChar, WLongVarchar}
  }

  lemma InfosAreNarrow(name: string, odbc2: bool)
    ensures NarrowInfo(GetTypeInfo(name, odbc2))
  {
  }

  /** A name that is not recognized keeps its spelling, and its type does not depend on the case of its letters. */
  lemma CaseOfLetters(a: string, b: string, odbc2: bool, useUnicode: bool)
    requires SameLetters(a, b)
    requires !IsTimeWithPrecision(a) && !IsIntervalWithPrecision(a)
    requires !IsTimeWithPrecision(b) && !IsIntervalWithPrecision(b)
    ensures Process(a, odbc2, useUnicode).Ok? && Process(b, odbc2, useUnicode).Ok?
    ensures Process(a, odbc2, useUnicode).value.cleanedName == a
    ensures !Process(a, odbc2, useUnicode).value.hasCustomPrecision
    ensures Process(a, odbc2, useUnicode).value.typeInfo == Process(b, odbc2, useUnicode).value.typeInfo
  {
    hide GetTypeInfo, IsTimeWithPrecision, IsIntervalWithPrecision, SameLetters, Lower;
    LowerIff(a, b);
  }

  /** The nested types of Glue catalogs, with whatever is written behind the word. */
  predicate Nested(name: string) {
    ("array" <= name || "map" <= name || "struct" <= name) && !Regex.HasLineTerminator(name)
  }

  lemma NestedNames(name: string, odbc2: bool)
    ensures Nested(name) ==> GetTypeInfo(name, odbc2) == Some(TypeInfo(LongVarchar, LongVarchar, NotApplicable, name))
    ensures !Nested(name) ==>
              (GetTypeInfo(name, odbc2).Some? <==> name in DATE_TIME_TYPES || name in TYPE_INFO_MAP)
  {
    assert name in DATE_TIME_TYPES ==> DateTimeInfo(name, odbc2).Some?;
  }

  /** The numeric and truth types: each belongs to one name. */
  lemma NumbersByName(name: string)
    requires name in TYPE_INFO_MAP
    ensures var t := TYPE_INFO_MAP[name].sqlType;
            && (t == SmallInt <==> name == "smallint") && (t == Integer <==> name == "integer")
            && (t == BigInt <==> name == "bigint") && (t == Real <==> name == "real")
            && (t == Double <==> name == "double precision") && (t == Numeric <==> name == "numeric")
            && (t == Bit <==> name == "boolean") && (t == Unknown <==> name == "hllsketch")
  {
  }

  /** The character and binary types. */
  lemma TextsByName(name: string)
    requires name in TYPE_INFO_MAP
    ensures var t := TYPE_INFO_MAP[name].sqlType;
            && (t == Varchar <==> name in {"character varying", "varchar", "string"})
            && (t == Char <==> name in {"character", "\"char\"", "bpchar"})
            && (t == LongVarchar <==> name == "super")
            && (t == LongVarbinary <==> name in {"binary varying", "geometry", "geography", "binary"})
  {
  }

  /** An interval is of years and months, or of days and seconds, by the last unit of its name. */
  lemma IntervalsByName(name: string)
    requires name in TYPE_INFO_MAP
    ensures var t := TYPE_INFO_MAP[name].sqlType;
            && (t == IntervalYearToMonth <==>
                name in {"interval year", "interval month", "interval year to month"})
            && (t == IntervalDayToSecond <==>
                name in {"interval day", "interval second", "interval day to second"})
  {
  }

  /** The name says that the time is kept with its zone. */
  predicate Zoned(name: string) {
    || name in {"timetz", "timestamptz"}
    || name == "time" + " with time zone"
    || name == "timestamp" + " with time zone"
  }

  lemma TimestampPrefixes()
    ensures "timestamp" <= "timestamptz"
    ensures "timestamp" <= "timestamp without time zone" && "timestamp" <= "timestamp with time zone"
  {
    assert "timestamptz" == "timestamp" + "tz";
    assert "timestamp without time zone" == "timestamp" + " without time zone";
    assert "timestamp with time zone" == "timestamp" + " with time zone";
  }

  lemma TimePrefixes()
    ensures "time" <= "timetz" && "time" <= "time without time zone" && "time" <= "time with time zone"
    ensures "time" <= "timestamp"
    ensures !("timestamp" <= "time") && !("timestamp" <= "timetz")
    ensures !("timestamp" <= "time without time zone") && !("timestamp" <= "time with time zone")
  {
    assert "timetz" == "time" + "tz" && "timestamp" == "time" + "stamp";
    assert "time without time zone" == "time" + " without time zone";
    assert "time with time zone" == "time" + " with time zone";
    assert "timestamp"[4] == 's' && "time without time zone"[4] == ' ' && "time with time zone"[4] == ' ';
  }

  lemma TimestampNames(name: string)
    requires name in DATE_TIME_TYPES
    ensures "timestamp" <= name <==>
            name in {"timestamp", "timestamptz", "timestamp without time zone", "timestamp with time zone"}
    ensures "time" <= name <==> name != "date"
  {
    TimestampPrefixes();
    TimePrefixes();
    assert "date"[0] == 'd' && "time"[0] == "timestamp"[0] == 't';
    assert "timestamp" <= name ==> "time" <= name by {
      if "timestamp" <= name {
        assert name[..4] == "timestamp"[..4] == "time";
      }
    }
  }

  lemma ZonedNames(name: string)
    ensures Zoned(name) <==>
            name in {"timetz", "timestamptz", "time with time zone", "timestamp with time zone"}
  {
    assert "time" + " with time zone" == "time with time zone";
    assert "timestamp" + " with time zone" == "timestamp with time zone";
  }

  /** Which date and time type a name has, and whether its internal name carries the zone. */
  lemma DateTimesByName(name: string, odbc2: bool)
    requires name in DATE_TIME_TYPES
    ensures DateTimeInfo(name, odbc2).Some?
    ensures var info := DateTimeInfo(name, odbc2).value;
            && (info.subtype == CodeDate <==> name == "date")
            && (info.subtype == CodeTimestamp <==> "timestamp" <= name)
            && (info.subtype == CodeTime <==> "time" <= name && !("timestamp" <= name))
            && (info.name in {"timetz", "timestamptz"} <==> Zoned(name))
            && (info.subtype == CodeTime <==> info.name in {"time", "timetz"})
  {
    TimestampNames(name);
    ZonedNames(name);
    hide Zoned;
  }
}
