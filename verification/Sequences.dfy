/** Filtering, mapping and flattening of sequences. */
module Sequences {
  function Filter<T>(xs: seq<T>, p: T -> bool): seq<T> {
    if xs == [] then []
    else Filter(xs[..|xs| - 1], p) + (if p(xs[|xs| - 1]) then [xs[|xs| - 1]] else [])
  }

  function Map<S, T>(xs: seq<S>, f: S -> T): (ys: seq<T>)
    ensures |ys| == |xs| && forall i :: 0 <= i < |xs| ==> ys[i] == f(xs[i])
  {
    seq(|xs|, i requires 0 <= i < |xs| => f(xs[i]))
  }

  function FlatMap<S, T>(xs: seq<S>, f: S -> seq<T>): seq<T> {
    if xs == [] then [] else FlatMap(xs[..|xs| - 1], f) + f(xs[|xs| - 1])
  }

  lemma {:induction false} FilterConcat<T>(xs: seq<T>, ys: seq<T>, p: T -> bool)
    ensures Filter(xs + ys, p) == Filter(xs, p) + Filter(ys, p)
  {
    if ys == [] {
      assert xs + ys == xs;
    } else {
      assert (xs + ys)[..|xs + ys| - 1] == xs + ys[..|ys| - 1];
      FilterConcat(xs, ys[..|ys| - 1], p);
    }
  }

  lemma FilterPrefix<T>(xs: seq<T>, ys: seq<T>, p: T -> bool)
    requires xs <= ys
    ensures Filter(xs, p) <= Filter(ys, p)
  {
    assert ys == xs + ys[|xs|..];
    FilterConcat(xs, ys[|xs|..], p);
  }

  lemma {:induction false} FilterEqual<T>(xs: seq<T>, p: T -> bool, q: T -> bool)
    requires forall x :: x in xs ==> p(x) == q(x)
    ensures Filter(xs, p) == Filter(xs, q)
  {
    if xs != [] { FilterEqual(xs[..|xs| - 1], p, q); }
  }

  lemma {:induction false} FilterAll<T>(xs: seq<T>, p: T -> bool)
    requires forall x :: x in xs ==> p(x)
    ensures Filter(xs, p) == xs
  {
    if xs != [] {
      var n := |xs| - 1;
      assert p(xs[n]) && xs == xs[..n] + [xs[n]];
      FilterAll(xs[..n], p);
    }
  }

  lemma {:induction false} FilterNone<T>(xs: seq<T>, p: T -> bool)
    requires forall x :: x in xs ==> !p(x)
    ensures Filter(xs, p) == []
  {
    if xs != [] { FilterNone(xs[..|xs| - 1], p); }
  }

  lemma {:induction false} FilterMembers<T>(xs: seq<T>, p: T -> bool, x: T)
    ensures x in Filter(xs, p) <==> x in xs && p(x)
  {
    if xs != [] {
      var n := |xs| - 1;
      FilterMembers(xs[..n], p, x);
      assert xs == xs[..n] + [xs[n]];
    }
  }

  lemma {:induction false} FilterCount<T>(xs: seq<T>, p: T -> bool, x: T)
    ensures multiset(Filter(xs, p))[x] == if p(x) then multiset(xs)[x] else 0
  {
    if xs != [] {
      var n := |xs| - 1;
      FilterCount(xs[..n], p, x);
      assert xs == xs[..n] + [xs[n]];
    }
  }

  lemma {:induction false} FlatMapEqual<S, T>(xs: seq<S>, f: S -> seq<T>, g: S -> seq<T>)
    requires forall x :: x in xs ==> f(x) == g(x)
    ensures FlatMap(xs, f) == FlatMap(xs, g)
  {
    if xs != [] { FlatMapEqual(xs[..|xs| - 1], f, g); }
  }

  lemma {:induction false} FlatMapConcat<S, T>(xs: seq<S>, ys: seq<S>, f: S -> seq<T>)
    ensures FlatMap(xs + ys, f) == FlatMap(xs, f) + FlatMap(ys, f)
  {
    if ys == [] {
      assert xs + ys == xs;
    } else {
      assert (xs + ys)[..|xs + ys| - 1] == xs + ys[..|ys| - 1];
      FlatMapConcat(xs, ys[..|ys| - 1], f);
    }
  }

  lemma {:induction false} FilterMap<S, T>(xs: seq<S>, f: S -> T, p: S -> bool, q: T -> bool)
    requires forall x :: x in xs ==> q(f(x)) == p(x)
    ensures Filter(Map(xs, f), q) == Map(Filter(xs, p), f)
  {
    if xs != [] {
      var n := |xs| - 1;
      assert xs[n] in xs;
      FilterMap(xs[..n], f, p, q);
      assert Map(xs, f)[..n] == Map(xs[..n], f);
      if p(xs[n]) {
        assert Map(Filter(xs[..n], p) + [xs[n]], f) == Map(Filter(xs[..n], p), f) + [f(xs[n])];
      }
    }
  }
}
