/** The two comparisons that the driver passes to `std::sort`. */
module Ordering {
  import opened Wrappers
  import opened ServerModel
  import opened DataTypeNames
  import opened Sequences

  predicate StringLess(a: string, b: string) {
    b != "" && (a == "" || a[0] < b[0] || (a[0] == b[0] && StringLess(a[1..], b[1..])))
  }

  /** At the first difference `a` ends or has the smaller character. */
  ghost predicate Precedes(a: string, b: string) {
    exists k: nat :: k <= |a| && k < |b| && a[..k] == b[..k] && (k < |a| ==> a[k] < b[k])
  }

  lemma {:induction false} StringLessIff(a: string, b: string)
    ensures StringLess(a, b) <==> Precedes(a, b)
  {
    if b == "" {
    } else if a == "" {
      assert a[..0] == b[..0];
    } else {
      StringLessIff(a[1..], b[1..]);
      if a[0] < b[0] {
        assert a[..0] == b[..0];
      }
      if a[0] == b[0] && Precedes(a[1..], b[1..]) {
        var c, d := a[1..], b[1..];
        var k: nat :| k <= |c| && k < |d| && c[..k] == d[..k] && (k < |c| ==> c[k] < d[k]);
        assert a[..k + 1] == [a[0]] + a[1..][..k] && b[..k + 1] == [b[0]] + b[1..][..k];
      }
      if Precedes(a, b) {
        var k: nat :| k <= |a| && k < |b| && a[..k] == b[..k] && (k < |a| ==> a[k] < b[k]);
        if k > 0 {
          assert a[..k][0] == b[..k][0];
          assert a[1..][..k - 1] == a[..k][1..] && b[1..][..k - 1] == b[..k][1..];
        }
      }
    }
  }

  /** `<` on optional strings: a missing value comes first. */
  predicate KeyLess(a: Option<string>, b: Option<string>) {
    match (a, b)
    case (Some(s), Some(t)) => StringLess(s, t)
    case (Some(_), None) => false
    case (None, k) => k.Some?
  }

  function PrivilegeKey(row: Row): Option<string> {
    match Get(row, PrivilegeType) case Text(s) => Some(s) case _ => None
  }

  function RoutineKey(row: Row): Option<string> {
    Some(Lower(NameOf(row, RoutineName)))
  }

  /** `a.privilege < b.privilege`. */
  predicate PrivilegeLess(a: Row, b: Row) {
    KeyLess(PrivilegeKey(a), PrivilegeKey(b))
  }

  /** `_stricmp` on names. */
  predicate RoutineLess(a: Row, b: Row) {
    KeyLess(RoutineKey(a), RoutineKey(b))
  }

  ghost predicate SortedBy(less: (Row, Row) -> bool, rows: seq<Row>) {
    forall i, j :: 0 <= i < j < |rows| ==> !less(rows[j], rows[i])
  }

  /** Rows without a privilege come first; the others have their privileges in the order of their characters. */
  ghost predicate PrivilegesAscend(rows: seq<Row>) {
    forall i, j :: 0 <= i < j < |rows| && Get(rows[i], PrivilegeType).Text? ==>
      && Get(rows[j], PrivilegeType).Text?
      && !Precedes(Get(rows[j], PrivilegeType).text, Get(rows[i], PrivilegeType).text)
  }

  /** The names of the routines, in letters of either case, are in the order of their characters. */
  ghost predicate RoutineNamesAscend(rows: seq<Row>) {
    forall i, j :: 0 <= i < j < |rows| ==>
      !Precedes(Lower(NameOf(rows[j], RoutineName)), Lower(NameOf(rows[i], RoutineName)))
  }

  lemma SortedMeans(rows: seq<Row>)
    ensures SortedBy(PrivilegeLess, rows) <==> PrivilegesAscend(rows)
    ensures SortedBy(RoutineLess, rows) <==> RoutineNamesAscend(rows)
  {
    hide Precedes, StringLess, Lower;
    forall a: string, b: string ensures StringLess(a, b) <==> Precedes(a, b) {
      StringLessIff(a, b);
    }
    forall a: Row, b: Row
      ensures PrivilegeLess(b, a) <==>
              && Get(a, PrivilegeType).Text?
              && (Get(b, PrivilegeType).Text? ==> Precedes(Get(b, PrivilegeType).text, Get(a, PrivilegeType).text))
    {
    }
  }

  /** What `std::sort` promises besides a permutation: nothing comes before a smaller element. */
  ghost predicate Sorts(order: Rearrangement, less: (Row, Row) -> bool) {
    forall rows: seq<Row> :: SortedBy(less, order(rows))
  }

  ghost predicate Conforms(server: Server) {
    Sorts(server.byPrivilege, PrivilegeLess) && Sorts(server.byRoutineName, RoutineLess)
  }

  // ---- Both comparisons can be sorted by ----

  /** A strict weak order, as `std::sort` demands. */
  ghost predicate WeakOrder(less: (Row, Row) -> bool) {
    && (forall a, b :: less(a, b) ==> !less(b, a))
    && (forall a, b, c :: !less(b, a) && !less(c, b) ==> !less(c, a))
  }

  lemma {:induction false} StringLessAsymmetric(a: string, b: string)
    ensures StringLess(a, b) ==> !StringLess(b, a)
  {
    if a != "" && b != "" { StringLessAsymmetric(a[1..], b[1..]); }
  }

  lemma {:induction false} StringLessNegative(a: string, b: string, c: string)
    ensures !StringLess(b, a) && !StringLess(c, b) ==> !StringLess(c, a)
  {
    if a != "" && b != "" && c != "" { StringLessNegative(a[1..], b[1..], c[1..]); }
  }

  lemma ComparisonsAreWeakOrders()
    ensures WeakOrder(PrivilegeLess) && WeakOrder(RoutineLess)
  {
    forall a: string, b: string ensures StringLess(a, b) ==> !StringLess(b, a) {
      StringLessAsymmetric(a, b);
    }
    forall a: string, b: string, c: string ensures !StringLess(b, a) && !StringLess(c, b) ==> !StringLess(c, a) {
      StringLessNegative(a, b, c);
    }
  }

  function Insert(less: (Row, Row) -> bool, x: Row, rows: seq<Row>): seq<Row> {
    if rows == [] || less(x, rows[0]) then [x] + rows else [rows[0]] + Insert(less, x, rows[1..])
  }

  function InsertionSort(less: (Row, Row) -> bool, rows: seq<Row>): seq<Row> {
    if rows == [] then [] else Insert(less, rows[0], InsertionSort(less, rows[1..]))
  }

  lemma {:induction false} InsertPermutes(less: (Row, Row) -> bool, x: Row, rows: seq<Row>)
    ensures multiset(Insert(less, x, rows)) == multiset(rows) + multiset{x}
  {
    if rows != [] && !less(x, rows[0]) {
      InsertPermutes(less, x, rows[1..]);
      assert rows == [rows[0]] + rows[1..];
    }
  }

  lemma SortedInFront(less: (Row, Row) -> bool, x: Row, rows: seq<Row>)
    requires SortedBy(less, rows) && forall y :: y in rows ==> !less(y, x)
    ensures SortedBy(less, [x] + rows)
  {
  }

  lemma FirstIsLeast(less: (Row, Row) -> bool, x: Row, rows: seq<Row>)
    requires WeakOrder(less) && SortedBy(less, rows) && rows != [] && !less(rows[0], x)
    ensures forall y :: y in rows ==> !less(y, x)
  {
    forall y | y in rows ensures !less(y, x) {
      var j :| 0 <= j < |rows| && rows[j] == y;
      assert j > 0 ==> !less(rows[j], rows[0]);
    }
  }

  lemma {:induction false} InsertSorts(less: (Row, Row) -> bool, x: Row, rows: seq<Row>)
    requires WeakOrder(less) && SortedBy(less, rows)
    ensures SortedBy(less, Insert(less, x, rows))
  {
    if rows != [] {
      if less(x, rows[0]) {
        FirstIsLeast(less, x, rows);
        SortedInFront(less, x, rows);
      } else {
        var tail := Insert(less, x, rows[1..]);
        InsertSorts(less, x, rows[1..]);
        InsertPermutes(less, x, rows[1..]);
        forall y | y in tail ensures !less(y, rows[0]) {
          assert y in multiset(tail);
          assert y == x || y in rows[1..];
        }
        SortedInFront(less, rows[0], tail);
      }
    }
  }

  lemma {:induction false} InsertionSortSorts(less: (Row, Row) -> bool, rows: seq<Row>)
    ensures multiset(InsertionSort(less, rows)) == multiset(rows)
    ensures WeakOrder(less) ==> SortedBy(less, InsertionSort(less, rows))
  {
    if rows != [] {
      InsertionSortSorts(less, rows[1..]);
      InsertPermutes(less, rows[0], InsertionSort(less, rows[1..]));
      if WeakOrder(less) {
        InsertSorts(less, rows[0], InsertionSort(less, rows[1..]));
      }
      assert rows == [rows[0]] + rows[1..];
    }
  }

  lemma Sorter(less: (Row, Row) -> bool) returns (order: Rearrangement)
    requires WeakOrder(less)
    ensures Sorts(order, less)
  {
    forall rows: seq<Row>
      ensures multiset(InsertionSort(less, rows)) == multiset(rows) && SortedBy(less, InsertionSort(less, rows))
    {
      InsertionSortSorts(less, rows);
    }
    var f := (rows: seq<Row>) => InsertionSort(less, rows);
    assert Permutes(f);
    order := f;
  }

  /** Sorting by the two comparisons is possible: every server has a conforming counterpart. */
  lemma ConformingServer(server: Server) returns (conforming: Server)
    ensures Conforms(conforming)
    ensures conforming.current == server.current && conforming.answer == server.answer
  {
    ComparisonsAreWeakOrders();
    var byPrivilege := Sorter(PrivilegeLess);
    var byName := Sorter(RoutineLess);
    conforming := server.(byPrivilege := byPrivilege, byRoutineName := byName);
  }

  // ---- Sorted keys are determined ----

  lemma {:induction false} StringLessTotal(a: string, b: string)
    ensures StringLess(a, b) || StringLess(b, a) || a == b
  {
    if a != "" && b != "" {
      StringLessTotal(a[1..], b[1..]);
      assert a == [a[0]] + a[1..] && b == [b[0]] + b[1..];
    }
  }

  lemma KeyLessTotal(a: Option<string>, b: Option<string>)
    ensures KeyLess(a, b) || KeyLess(b, a) || a == b
  {
    if a.Some? && b.Some? {
      StringLessTotal(a.value, b.value);
    }
  }

  ghost predicate SortedKeys<K(!new)>(keys: seq<K>, less: (K, K) -> bool) {
    forall i, j :: 0 <= i < j < |keys| ==> !less(keys[j], keys[i])
  }

  ghost predicate Total<K(!new)>(less: (K, K) -> bool) {
    forall a, b :: less(a, b) || less(b, a) || a == b
  }

  lemma FirstKeys<K(!new)>(a: seq<K>, b: seq<K>, less: (K, K) -> bool)
    requires Total(less) && a != [] && SortedKeys(a, less) && SortedKeys(b, less) && multiset(a) == multiset(b)
    ensures b != [] && a[0] == b[0]
  {
    assert a[0] in multiset(b);
    assert b[0] in multiset(b);
    var j :| 0 <= j < |b| && b[j] == a[0];
    assert b[0] in multiset(a);
    var i :| 0 <= i < |a| && a[i] == b[0];
    assert less(a[0], b[0]) || less(b[0], a[0]) || a[0] == b[0];
  }

  lemma WithoutOne<T>(xs: seq<T>, j: nat)
    requires j < |xs|
    ensures multiset(xs[..j] + xs[j + 1..]) + multiset{xs[j]} == multiset(xs)
  {
    assert xs == xs[..j] + [xs[j]] + xs[j + 1..];
  }

  lemma WithoutFirst<T>(xs: seq<T>)
    requires xs != []
    ensures xs == [xs[0]] + xs[1..]
    ensures multiset(xs[1..]) + multiset{xs[0]} == multiset(xs)
  {
    assert xs == [xs[0]] + xs[1..];
  }

  lemma SameRemainder<T>(a: multiset<T>, b: multiset<T>, x: T)
    requires a + multiset{x} == b + multiset{x}
    ensures a == b
  {
    assert a == (a + multiset{x}) - multiset{x} && b == (b + multiset{x}) - multiset{x};
  }

  /** There is one sorted sequence of given keys. */
  lemma {:induction false} SortedKeysUnique<K(!new)>(a: seq<K>, b: seq<K>, less: (K, K) -> bool)
    requires Total(less) && SortedKeys(a, less) && SortedKeys(b, less) && multiset(a) == multiset(b)
    ensures a == b
  {
    if a == [] {
      assert |multiset(b)| == 0;
    } else {
      FirstKeys(a, b, less);
      WithoutFirst(a);
      WithoutFirst(b);
      SameRemainder(multiset(a[1..]), multiset(b[1..]), a[0]);
      SortedKeysUnique(a[1..], b[1..], less);
    }
  }

  lemma MapWithoutOne<S, T>(xs: seq<S>, j: nat, key: S -> T)
    requires j < |xs|
    ensures multiset(Map(xs[..j] + xs[j + 1..], key)) + multiset{key(xs[j])} == multiset(Map(xs, key))
  {
    WithoutOne(Map(xs, key), j);
    assert Map(xs, key)[..j] + Map(xs, key)[j + 1..] == Map(xs[..j] + xs[j + 1..], key);
  }

  lemma MapWithoutFirst<S, T>(xs: seq<S>, key: S -> T)
    requires xs != []
    ensures multiset(Map(xs[1..], key)) + multiset{key(xs[0])} == multiset(Map(xs, key))
  {
    WithoutFirst(Map(xs, key));
    assert Map(xs, key)[1..] == Map(xs[1..], key);
  }

  lemma {:induction false} MapPermutes<S, T>(xs: seq<S>, ys: seq<S>, key: S -> T)
    requires multiset(xs) == multiset(ys)
    ensures multiset(Map(xs, key)) == multiset(Map(ys, key))
  {
    if xs == [] {
      assert |multiset(ys)| == 0;
    } else {
      assert xs[0] in multiset(ys);
      var j :| 0 <= j < |ys| && ys[j] == xs[0];
      var rest := ys[..j] + ys[j + 1..];
      WithoutFirst(xs);
      WithoutOne(ys, j);
      SameRemainder(multiset(xs[1..]), multiset(rest), xs[0]);
      MapPermutes(xs[1..], rest, key);
      MapWithoutFirst(xs, key);
      MapWithoutOne(ys, j, key);
    }
  }

  /** The order is by this key. */
  ghost predicate OrdersBy(less: (Row, Row) -> bool, key: Row -> Option<string>) {
    forall a, b :: less(a, b) == KeyLess(key(a), key(b))
  }

  /** Whichever way equal elements are placed, sorting gives one sequence of keys. */
  lemma KeysDetermined(order: Rearrangement, less: (Row, Row) -> bool, key: Row -> Option<string>, rows: seq<Row>)
    requires Sorts(order, less) && OrdersBy(less, key) && WeakOrder(less)
    ensures Map(order(rows), key) == Map(InsertionSort(less, rows), key)
  {
    var mine, theirs := InsertionSort(less, rows), order(rows);
    InsertionSortSorts(less, rows);
    assert multiset(theirs) == multiset(rows) && SortedBy(less, theirs);
    MapPermutes(theirs, mine, key);
    forall a: Option<string>, b: Option<string> ensures KeyLess(a, b) || KeyLess(b, a) || a == b {
      KeyLessTotal(a, b);
    }
    SortedKeysUnique(Map(theirs, key), Map(mine, key), KeyLess);
  }
}
