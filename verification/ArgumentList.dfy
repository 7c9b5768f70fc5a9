/** `createParameterizedQueryString`: cutting an argument list at the delimiter ", ", checking the
    pieces and building a statement text with one marker for each piece. */
module ArgumentList {
  import opened Wrappers
  import opened DataTypeNames
  import opened Placeholders

  datatype Error =
    | EmptyArgument(rest: string)
    | InvalidTypes(names: seq<string>)

  predicate DelimiterAt(s: string, k: int) {
    0 <= k && k + 1 < |s| && s[k] == ',' && s[k + 1] == ' '
  }

  predicate DelimiterFree(s: string) {
    forall k :: 0 <= k < |s| ==> !DelimiterAt(s, k)
  }

  /** `std::string::find` of the delimiter. */
  function Find(s: string): (r: Option<nat>)
    ensures r.Some? ==> DelimiterAt(s, r.value)
    ensures r.Some? ==> forall k :: 0 <= k < r.value ==> !DelimiterAt(s, k)
    ensures r.None? <==> DelimiterFree(s)
  {
    if DelimiterAt(s, 0) then Some(0)
    else if s == "" then None
    else
      DelimitersBehind(s);
      match Find(s[1..]) case None => None case Some(k) => Some(k + 1)
  }

  lemma DelimitersBehind(s: string)
    requires s != ""
    ensures forall k {:trigger DelimiterAt(s, k)} :: 0 < k ==> DelimiterAt(s, k) == DelimiterAt(s[1..], k - 1)
    ensures forall k {:trigger DelimiterAt(s[1..], k)} :: DelimiterAt(s[1..], k) ==> DelimiterAt(s, k + 1)
    ensures DelimiterFree(s) <==> !DelimiterAt(s, 0) && DelimiterFree(s[1..])
  {
    var t := s[1..];
    if !DelimiterFree(s) && !DelimiterAt(s, 0) {
      var k :| 0 < k < |s| && DelimiterAt(s, k);
      assert DelimiterAt(t, k - 1);
    }
    if !DelimiterFree(t) {
      var k :| 0 <= k < |t| && DelimiterAt(t, k);
      assert DelimiterAt(s, k + 1);
    }
  }

  function Split(s: string): Result<seq<string>, Error>
    decreases |s|
  {
    match Find(s)
    case None => Ok(if s == "" then [] else [s])
    case Some(pos) =>
      if pos == 0 then Err(EmptyArgument(s))
      else match Split(s[pos + 2..])
        case Err(e) => Err(e)
        case Ok(rest) => Ok([s[..pos]] + rest)
  }

  function Invalid(names: seq<string>): seq<string> {
    if names == [] then []
    else (if IsValidType(names[0]) then [] else [names[0]]) + Invalid(names[1..])
  }

  function Suffix(columnPattern: string): string {
    if columnPattern == "" then ";" else " LIKE ?;"
  }

  function QueryText(base: string, count: nat, columnPattern: string): string {
    base + "(" + MarkList(count) + ")" + Suffix(columnPattern)
  }

  function Parameterized(list: string, base: string, columnPattern: string): Result<(string, seq<string>), Error> {
    match Split(list)
    case Err(e) => Err(e)
    case Ok(args) =>
      if Invalid(args) != [] then Err(InvalidTypes(Invalid(args)))
      else Ok((QueryText(base, |args|, columnPattern), args))
  }

  /** The splitting loop. */
  method SplitArguments(argumentList: string) returns (r: Result<seq<string>, Error>)
    ensures r == Split(argumentList)
  {
    var args: seq<string> := [];
    PrefixedEmpty(Split(argumentList));
    var tempList := argumentList;
    var pos := Find(tempList);
    while pos.Some?
      invariant pos == Find(tempList)
      invariant Split(argumentList) == Prefixed(args, Split(tempList))
      decreases |tempList|
    {
      var temp := tempList[..pos.value];
      if temp == "" {
        return Err(EmptyArgument(tempList));
      }
      PrefixedTwice(args, [temp], Split(tempList[pos.value + 2..]));
      args := args + [temp];
      tempList := tempList[pos.value + 2..];
      pos := Find(tempList);
    }
    assert args + [] == args;
    if tempList != "" {
      args := args + [tempList];
    }
    r := Ok(args);
  }

  /** `validateTypes`: the names that are not data types, in order. */
  method ValidateTypes(dataTypes: seq<string>) returns (invalidTypes: seq<string>)
    ensures invalidTypes == Invalid(dataTypes)
  {
    invalidTypes := [];
    assert dataTypes[0..] == dataTypes;
    for k := 0 to |dataTypes|
      invariant invalidTypes + Invalid(dataTypes[k..]) == Invalid(dataTypes)
    {
      assert dataTypes[k..][1..] == dataTypes[k + 1..];
      if !IsValidType(dataTypes[k]) {
        invalidTypes := invalidTypes + [dataTypes[k]];
      }
    }
  }

  /** `createParameterizedQueryString`, with its exceptions as errors. */
  method CreateParameterizedQueryString(argumentList: string, base: string, columnPattern: string)
    returns (r: Result<(string, seq<string>), Error>)
    ensures r == Parameterized(argumentList, base, columnPattern)
  {
    if argumentList == "" {
      assert base + "(" + MarkList(0) + ")" == base + "()";
      return Ok((base + "()" + Suffix(columnPattern), []));
    }
    var pieces := SplitArguments(argumentList);
    if pieces.Err? {
      return Err(pieces.error);
    }
    var args := pieces.value;
    var invalidTypes := ValidateTypes(args);
    if invalidTypes != [] {
      return Err(InvalidTypes(invalidTypes));
    }
    var placeholders := "";
    for i := 0 to |args|
      invariant placeholders == MarkList(i)
    {
      ghost var before := placeholders;
      if i > 0 { placeholders := placeholders + ", "; }
      placeholders := placeholders + "?";
      assert i > 0 ==> placeholders == before + ", ?";
    }
    r := Ok((base + "(" + placeholders + ")" + Suffix(columnPattern), args));
  }

  function Prefixed(args: seq<string>, r: Result<seq<string>, Error>): Result<seq<string>, Error> {
    match r case Err(e) => Err(e) case Ok(rest) => Ok(args + rest)
  }

  lemma PrefixedEmpty(r: Result<seq<string>, Error>)
    ensures Prefixed([], r) == r
  {
    if r.Ok? { assert [] + r.value == r.value; }
  }

  lemma PrefixedTwice(xs: seq<string>, ys: seq<string>, r: Result<seq<string>, Error>)
    ensures Prefixed(xs, Prefixed(ys, r)) == Prefixed(xs + ys, r)
  {
    if r.Ok? { assert xs + (ys + r.value) == xs + ys + r.value; }
  }

  // ---- Splitting inverts joining ----

  /** Pieces that can come out of a split. */
  predicate Clean(pieces: seq<string>) {
    forall k :: 0 <= k < |pieces| ==> pieces[k] != "" && DelimiterFree(pieces[k])
  }

  /** Each piece followed by a delimiter. */
  function Terminated(pieces: seq<string>): string {
    if pieces == [] then "" else pieces[0] + ", " + Terminated(pieces[1..])
  }

  lemma {:induction false} FindAfterPiece(piece: string, rest: string)
    requires DelimiterFree(piece)
    ensures Find(piece + ", " + rest) == Some(|piece|)
    ensures (piece + ", " + rest)[|piece| + 2..] == rest
  {
    var s := piece + ", " + rest;
    assert DelimiterAt(s, |piece|);
    forall k | 0 <= k < |piece| ensures !DelimiterAt(s, k) {
      assert !DelimiterAt(piece, k);
    }
  }

  /** Splitting passes over clean pieces that are followed by delimiters. */
  lemma {:induction false} SplitTerminated(pieces: seq<string>, t: string)
    requires Clean(pieces)
    ensures Split(Terminated(pieces) + t) == Prefixed(pieces, Split(t))
  {
    if pieces == [] {
      assert Terminated(pieces) + t == t;
      PrefixedEmpty(Split(t));
    } else {
      SplitTerminated(pieces[1..], t);
      SplitFirstPiece(pieces[0], Terminated(pieces[1..]) + t);
      assert Terminated(pieces) + t == pieces[0] + ", " + (Terminated(pieces[1..]) + t);
      PrefixedTwice([pieces[0]], pieces[1..], Split(t));
      assert [pieces[0]] + pieces[1..] == pieces;
    }
  }

  lemma SplitFirstPiece(piece: string, rest: string)
    requires piece != "" && DelimiterFree(piece)
    ensures Split(piece + ", " + rest) == Prefixed([piece], Split(rest))
  {
    FindAfterPiece(piece, rest);
    assert (piece + ", " + rest)[..|piece|] == piece;
  }

  /** Where the split of `s` stops: clean pieces have been passed, and what is left either has no
      delimiter or starts with one. */
  lemma {:induction false} SplitStops(s: string) returns (pieces: seq<string>, t: string)
    ensures Clean(pieces) && s == Terminated(pieces) + t
    ensures DelimiterFree(t) || DelimiterAt(t, 0)
    decreases |s|
  {
    match Find(s) {
      case None => pieces, t := [], s;
      case Some(pos) =>
        if pos == 0 {
          pieces, t := [], s;
        } else {
          var more, u := SplitStops(s[pos + 2..]);
          assert forall k :: DelimiterAt(s[..pos], k) ==> DelimiterAt(s, k);
          pieces, t := [s[..pos]] + more, u;
          assert s == s[..pos] + ", " + s[pos + 2..];
        }
    }
  }

  lemma {:induction false} TerminatedIsJoin(pieces: seq<string>)
    requires pieces != []
    ensures Terminated(pieces) == Join(pieces) + ", "
  {
    if |pieces| > 1 { TerminatedIsJoin(pieces[1..]); }
  }

  lemma {:induction false} TerminatedThenLast(pieces: seq<string>, last: string)
    ensures Terminated(pieces) + last == Join(pieces + [last])
  {
    if pieces != [] {
      TerminatedIsJoin(pieces);
      JoinSnoc(pieces, last);
    }
  }

  lemma SplitsJoined(s: string, pieces: seq<string>)
    requires Clean(pieces) && (s == Join(pieces) || (pieces != [] && s == Join(pieces) + ", "))
    ensures Split(s) == Ok(pieces)
  {
    hide Split, Join, Terminated;
    if pieces == [] {
      EmptyJoin();
    } else {
      var n := |pieces| - 1;
      assert pieces[..n] + [pieces[n]] == pieces;
      TerminatedThenLast(pieces[..n], pieces[n]);
      SplitTerminated(pieces[..n], pieces[n]);
      OneSplit(pieces[n]);
      TerminatedIsJoin(pieces);
      SplitTerminated(pieces, "");
      EmptyJoin();
      assert Terminated(pieces) + "" == Terminated(pieces) && pieces + [] == pieces;
    }
  }

  lemma EmptyJoin()
    ensures Join([]) == "" && Split("") == Ok([])
  {
  }

  lemma OneSplit(piece: string)
    requires piece != "" && DelimiterFree(piece)
    ensures Split(piece) == Ok([piece])
  {
  }

  lemma JoinedFromSplit(s: string, pieces: seq<string>)
    requires Split(s) == Ok(pieces)
    ensures Clean(pieces) && (s == Join(pieces) || (pieces != [] && s == Join(pieces) + ", "))
  {
    var front, t := SplitStops(s);
    SplitTerminated(front, t);
    if t != "" && DelimiterFree(t) {
      OneSplit(t);
    }
    EmptyJoin();
    hide Join, Terminated;
    if t == "" {
      assert pieces == front && s == Terminated(front);
      if front != [] { TerminatedIsJoin(front); }
    } else {
      TerminatedThenLast(front, t);
    }
  }

  /** Splitting and joining are inverse: the split of `s` is `pieces` exactly when the pieces are
      non-empty and free of delimiters and `s` is their join, with or without one more delimiter. */
  lemma SplitIffJoin(s: string, pieces: seq<string>)
    ensures Split(s) == Ok(pieces) <==>
            Clean(pieces) && (s == Join(pieces) || (pieces != [] && s == Join(pieces) + ", "))
  {
    hide Split, Join, Clean;
    if Split(s) == Ok(pieces) {
      JoinedFromSplit(s, pieces);
    } else if Clean(pieces) && (s == Join(pieces) || (pieces != [] && s == Join(pieces) + ", ")) {
      SplitsJoined(s, pieces);
    }
  }

  /** The split fails exactly when, after some clean pieces, a delimiter stands where a piece should. */
  lemma SplitFailsIff(s: string, t: string)
    ensures Split(s) == Err(EmptyArgument(t)) <==>
            exists pieces: seq<string> :: Clean(pieces) && s == Terminated(pieces) + t && DelimiterAt(t, 0)
  {
    var front, u := SplitStops(s);
    SplitTerminated(front, u);
    forall pieces: seq<string> | Clean(pieces) && s == Terminated(pieces) + t && DelimiterAt(t, 0)
      ensures Split(s) == Err(EmptyArgument(t))
    {
      SplitTerminated(pieces, t);
    }
  }

  lemma {:induction false} InvalidMembers(names: seq<string>, x: string)
    ensures x in Invalid(names) <==> x in names && !IsValidType(x)
  {
    if names != [] { InvalidMembers(names[1..], x); }
  }

  /** A list is accepted exactly when it is a comma list of valid type names, each written out. */
  lemma AcceptedIff(list: string, base: string, columnPattern: string, args: seq<string>)
    ensures Parameterized(list, base, columnPattern) == Ok((QueryText(base, |args|, columnPattern), args)) <==>
            && Clean(args)
            && (list == Join(args) || (args != [] && list == Join(args) + ", "))
            && forall k :: 0 <= k < |args| ==> IsValidType(args[k])
  {
    hide Split, Join, Clean, IsValidType, QueryText, Invalid;
    SplitIffJoin(list, args);
    InvalidEmptyIff(args);
  }

  /** What an accepted list gives: one marker for each name, and the names of the list itself. */
  lemma AcceptedList(list: string, base: string, columnPattern: string, query: string, args: seq<string>)
    requires Parameterized(list, base, columnPattern) == Ok((query, args))
    ensures query == QueryText(base, |args|, columnPattern)
    ensures list == Join(args) || list == Join(args) + ", "
  {
    hide Split, Join, Clean, IsValidType, Invalid;
    assert Split(list) == Ok(args);
    SplitIffJoin(list, args);
  }

  lemma InvalidEmptyIff(names: seq<string>)
    ensures Invalid(names) == [] <==> forall k :: 0 <= k < |names| ==> IsValidType(names[k])
  {
    hide IsValidType;
    if Invalid(names) != [] {
      InvalidMembers(names, Invalid(names)[0]);
    }
    forall k | 0 <= k < |names| && !IsValidType(names[k]) ensures Invalid(names) != [] {
      InvalidMembers(names, names[k]);
    }
  }
}
