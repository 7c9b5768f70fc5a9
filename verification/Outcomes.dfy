/** What an enumeration yields when no driver call fails, and how runs with failures relate to it. */
module Outcomes {
  import opened ServerModel

  /** The rows that are appended, and whether the enumeration succeeds. */
  datatype Outcome<T> = Outcome(rows: seq<T>, ok: bool)

  /** One enumeration after another: the second runs only if the first succeeds. */
  function Then<T>(a: Outcome<T>, b: Outcome<T>): Outcome<T> {
    if a.ok then Outcome(a.rows + b.rows, b.ok) else a
  }

  /** One enumeration for each element, in order, up to the first that does not succeed. */
  function ForEach<S, T>(xs: seq<S>, f: S -> Outcome<T>): Outcome<T> {
    if xs == [] then Outcome([], true)
    else Then(ForEach(xs[..|xs| - 1], f), f(xs[|xs| - 1]))
  }

  /** A run that starts with `before` and ends with `after` and `rc`. Without failures it appends the rows
      of the outcome and reports whether it succeeds. With a failure it reports that, and what it has
      appended is a prefix of the outcome's rows; if `blocks` holds, a block of rows that is sorted on the
      way may be cut short before sorting, and the rows appended are only among those of the outcome. */
  ghost predicate Refines<T>(spec: Outcome<T>, blocks: bool, before: seq<T>, after: seq<T>, rc: ReturnCode,
                             failed: bool) {
    if failed then
      && !rc.Succeeded()
      && before <= after
      && (!blocks ==> after[|before|..] <= spec.rows)
      && multiset(after[|before|..]) <= multiset(spec.rows)
    else
      && rc.Succeeded() == spec.ok
      && after == before + spec.rows
  }

  lemma {:induction false} ForEachPrefix<S, T>(xs: seq<S>, f: S -> Outcome<T>, i: nat)
    requires i < |xs| && ForEach(xs[..i], f).ok
    ensures ForEach(xs[..i], f).rows + f(xs[i]).rows <= ForEach(xs, f).rows
    ensures !f(xs[i]).ok ==> ForEach(xs, f) == Outcome(ForEach(xs[..i], f).rows + f(xs[i]).rows, false)
  {
    var n := |xs| - 1;
    if i < n {
      assert xs[..n][..i] == xs[..i];
      ForEachPrefix(xs[..n], f, i);
    }
  }

  lemma ForEachOne<S, T>(x: S, f: S -> Outcome<T>)
    ensures ForEach([x], f) == f(x)
  {
    assert [x][..0] == [];
    assert [] + f(x).rows == f(x).rows;
  }

  lemma ForEachSnoc<S, T>(xs: seq<S>, f: S -> Outcome<T>, i: nat)
    requires i < |xs|
    ensures ForEach(xs[..i + 1], f) == Then(ForEach(xs[..i], f), f(xs[i]))
  {
    assert xs[..i + 1][..i] == xs[..i];
  }

  /** A failed part of a run, after a completed part, is a failed run of anything that begins with the two. */
  lemma FailedPart<T>(done: seq<T>, part: Outcome<T>, whole: Outcome<T>, blocks: bool, before: seq<T>,
                      after: seq<T>, rc: ReturnCode)
    requires done + part.rows <= whole.rows
    requires Refines(part, blocks, before + done, after, rc, true)
    ensures Refines(whole, blocks, before, after, rc, true)
  {
    var tail := after[|before + done|..];
    assert after == before + done + tail;
    assert after[|before|..] == done + tail;
    var rest := whole.rows[|done| + |part.rows|..];
    assert whole.rows == done + part.rows + rest;
  }

  /** The state of an enumeration loop that has done the first `i` elements without a failure. */
  ghost predicate Progress<S, T>(xs: seq<S>, f: S -> Outcome<T>, i: nat, before: seq<T>, now: seq<T>, failed: bool)
    requires i <= |xs|
  {
    !failed && ForEach(xs[..i], f).ok && now == before + ForEach(xs[..i], f).rows
  }

  lemma LoopStarts<S, T>(xs: seq<S>, f: S -> Outcome<T>, before: seq<T>)
    ensures Progress(xs, f, 0, before, before, false)
  {
  }

  /** One round of an enumeration loop: either the loop goes on with one more element done, or it ends
      here and the whole loop is a run of the whole enumeration. */
  lemma LoopStep<S, T>(xs: seq<S>, f: S -> Outcome<T>, i: nat, blocks: bool, before: seq<T>, mid: seq<T>,
                       after: seq<T>, rc: ReturnCode, failed: bool)
    requires i < |xs| && ForEach(xs[..i], f).ok && mid == before + ForEach(xs[..i], f).rows
    requires Refines(f(xs[i]), blocks, mid, after, rc, failed)
    ensures rc.Succeeded() ==> !failed && ForEach(xs[..i + 1], f).ok && after == before + ForEach(xs[..i + 1], f).rows
    ensures !rc.Succeeded() ==> Refines(ForEach(xs, f), blocks, before, after, rc, failed)
  {
    if failed {
      ForEachPrefix(xs, f, i);
      FailedPart(ForEach(xs[..i], f).rows, f(xs[i]), ForEach(xs, f), blocks, before, after, rc);
    } else {
      CleanStep(xs, f, i, before, mid, after);
    }
  }

  lemma CleanStep<S, T>(xs: seq<S>, f: S -> Outcome<T>, i: nat, before: seq<T>, mid: seq<T>, after: seq<T>)
    requires i < |xs| && ForEach(xs[..i], f).ok && mid == before + ForEach(xs[..i], f).rows
    requires after == mid + f(xs[i]).rows
    ensures f(xs[i]).ok ==> ForEach(xs[..i + 1], f).ok && after == before + ForEach(xs[..i + 1], f).rows
    ensures !f(xs[i]).ok ==> !ForEach(xs, f).ok && after == before + ForEach(xs, f).rows
  {
    ForEachSnoc(xs, f, i);
    ForEachPrefix(xs, f, i);
    AppendTwice(before, ForEach(xs[..i], f).rows, f(xs[i]).rows);
  }

  lemma AppendTwice<T>(a: seq<T>, b: seq<T>, c: seq<T>)
    ensures a + b + c == a + (b + c)
  {
  }

  /** A loop that appends the elements of `all` one by one and stops after `k` of them. */
  lemma StopsAfter<T>(all: seq<T>, k: nat, before: seq<T>, after: seq<T>, rc: ReturnCode, failed: bool)
    requires k <= |all| && after == before + all[..k]
    requires if failed then !rc.Succeeded() else rc.Succeeded() && k == |all|
    ensures Refines(Outcome(all, true), false, before, after, rc, failed)
  {
    assert after[|before|..] == all[..k];
    assert all == all[..k] + all[k..];
  }

  /** A run that fails before it appends anything. */
  lemma NothingAppended<T>(spec: Outcome<T>, blocks: bool, before: seq<T>, rc: ReturnCode)
    requires !rc.Succeeded()
    ensures Refines(spec, blocks, before, before, rc, true)
    ensures spec == Outcome([], false) ==> Refines(spec, blocks, before, before, rc, false)
  {
    assert before[|before|..] == [] && before + [] == before;
  }

  /** A run that collects rows aside and then appends something made from them. */
  lemma Appends<S, T>(spec: Outcome<S>, collected: seq<S>, spec': Outcome<T>, blocks: bool, before: seq<T>,
                      appended: seq<T>, rc: ReturnCode, failed: bool)
    requires Refines(spec, false, [], collected, rc, failed)
    requires spec.ok == spec'.ok
    requires collected == spec.rows ==> appended == spec'.rows
    requires collected <= spec.rows ==> blocks || appended <= spec'.rows
    requires collected <= spec.rows ==> multiset(appended) <= multiset(spec'.rows)
    ensures Refines(spec', blocks, before, before + appended, rc, failed)
  {
    assert collected[0..] == collected;
    assert (before + appended)[|before|..] == appended;
  }

  lemma PrefixCounts<T>(a: seq<T>, b: seq<T>)
    requires a <= b
    ensures multiset(a) <= multiset(b)
  {
    assert b == a + b[|a|..];
  }
}
