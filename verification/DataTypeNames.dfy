/** Names of the data types that a procedure or function may take. */
module DataTypeNames {
  const VALID_TYPES: set<string> := {
    "smallint", "int2", "integer", "int", "int4", "bigint", "int8", "decimal", "numeric", "real", "float4",
    "double precision", "float8", "float", "char", "\"char\"", "character", "nchar", "bpchar", "varchar",
    "character varying", "nvarchar", "text", "date", "time", "time without time zone", "timetz",
    "time with time zone", "timestamp", "timestamp without time zone", "timestamptz",
    "timestamp with time zone", "intervaly2m", "interval year to month", "intervald2s",
    "interval day to second", "interval", "boolean", "bool", "hllsketch", "super", "varbyte", "varbinary",
    "binary varying", "geometry", "geography", "string", "binary", "oid", "smallint[]", "pg_attribute",
    "pg_type", "refcursor", "\"any\"", "\"trigger\"", "\"unknown\"", "anyelement", "anyarray", "record",
    "void", "opaque", "language_handler", "inet", "cidr", "macaddr", "abstime", "reltime", "tinterval",
    "aclitem", "aclitem[]", "oid[]", "oidvector", "int2vector", "regproc", "regprocedure", "regoper",
    "regoperator", "regclass", "regtype", "smgr", "tid", "xid", "cid", "cstring", "box", "circle", "line",
    "lseg", "\"path\"", "point", "polygon", "money", "bit", "bit varying", "bytea", "name", "pyobject",
    "roleitem", "useritem", "bigint[]", "double precision[]", "numeric[]", "interval[]", "intervaly2m[]",
    "intervald2s[]"
  }

  /** `tolower` of the C locale. */
  function ToLower(c: char): char {
    if 'A' <= c <= 'Z' then c - 'A' + 'a' else c
  }

  function Lower(s: string): string {
    seq(|s|, i requires 0 <= i < |s| => ToLower(s[i]))
  }

  predicate IsValidType(dataType: string) {
    Lower(dataType) in VALID_TYPES
  }

  // ---- Letters of either case ----

  /** The same character, or the same letter of the alphabet in the other case. */
  predicate SameLetter(c: char, d: char) {
    || c == d
    || ('A' <= c <= 'Z' && d as int == c as int + 32)
    || ('A' <= d <= 'Z' && c as int == d as int + 32)
  }

  predicate SameLetters(s: string, t: string) {
    |s| == |t| && forall i :: 0 <= i < |s| ==> SameLetter(s[i], t[i])
  }

  predicate NoCapitals(s: string) {
    forall i :: 0 <= i < |s| ==> !('A' <= s[i] <= 'Z')
  }

  lemma LowerIff(s: string, t: string)
    ensures Lower(s) == Lower(t) <==> SameLetters(s, t)
    ensures NoCapitals(Lower(s)) && SameLetters(s, Lower(s))
    ensures NoCapitals(s) ==> Lower(s) == s
  {
    assert forall i :: 0 <= i < |s| ==> Lower(s)[i] == ToLower(s[i]);
    assert forall i :: 0 <= i < |t| ==> Lower(t)[i] == ToLower(t[i]);
    if Lower(s) == Lower(t) {
      forall i | 0 <= i < |s| ensures SameLetter(s[i], t[i]) {
        assert Lower(s)[i] == Lower(t)[i];
      }
    }
  }

  /** A type is valid exactly when it is one of the names of the table, in letters of either case; the table is kept in
      small letters. */
  lemma ValidIff(dataType: string)
    ensures IsValidType(dataType) <==> exists v :: v in VALID_TYPES && NoCapitals(v) && SameLetters(dataType, v)
  {
    if IsValidType(dataType) {
      LowerIff(dataType, dataType);
      hide SameLetters, Lower, NoCapitals;
      var v := Lower(dataType);
      assert v in VALID_TYPES && NoCapitals(v) && SameLetters(dataType, v);
    } else {
      hide SameLetters, Lower, NoCapitals;
      forall v | v in VALID_TYPES && NoCapitals(v) && SameLetters(dataType, v) ensures false {
        LowerIff(dataType, v);
        LowerIff(v, v);
      }
    }
  }
}
