/**
 * Folds over sequences that the source writes as generator expressions:
 * sum(...), sum(1 for x in xs if ...), and list comprehensions with a filter.
 * Each fold recurses on the last element, so that a loop which extends a
 * prefix by one element matches one unfolding.
 */
module Folds {
  import opened Outcomes

  /** sum(xs) */
  function Sum(xs: seq<real>): real
  {
    if xs == [] then 0.0 else Sum(xs[..|xs| - 1]) + xs[|xs| - 1]
  }

  /** [x for x in xs if p(x)] */
  function Filter<T>(xs: seq<T>, p: T -> bool): (r: seq<T>)
    ensures |r| <= |xs|
    ensures forall i :: 0 <= i < |r| ==> r[i] in xs
    ensures forall i :: 0 <= i < |r| ==> p(r[i])
  {
    if xs == [] then []
    else Filter(xs[..|xs| - 1], p) + (if p(xs[|xs| - 1]) then [xs[|xs| - 1]] else [])
  }

  /** sum(1 for x in xs if p(x)) */
  function Count<T>(xs: seq<T>, p: T -> bool): nat
  {
    if xs == [] then 0
    else Count(xs[..|xs| - 1], p) + (if p(xs[|xs| - 1]) then 1 else 0)
  }

  /** The counting generator and the length of the filtered list agree. */
  lemma {:induction false} CountIsFilterLength<T>(xs: seq<T>, p: T -> bool)
    ensures Count(xs, p) == |Filter(xs, p)|
  {
    if xs != [] {
      CountIsFilterLength(xs[..|xs| - 1], p);
    }
  }

  /** An element is kept by the filter exactly when it occurs in the input and satisfies p. */
  lemma {:induction false} FilterMembership<T>(xs: seq<T>, p: T -> bool, x: T)
    ensures x in Filter(xs, p) <==> x in xs && p(x)
  {
    if xs != [] {
      var init := xs[..|xs| - 1];
      FilterMembership(init, p, x);
      assert xs == init + [xs[|xs| - 1]];
    }
  }

  /** The filter drops nothing exactly when every element satisfies p. */
  lemma {:induction false} FilterKeepsAll<T>(xs: seq<T>, p: T -> bool)
    ensures |Filter(xs, p)| == |xs| <==> forall i :: 0 <= i < |xs| ==> p(xs[i])
  {
    if xs != [] {
      var init := xs[..|xs| - 1];
      var last := xs[|xs| - 1];
      FilterKeepsAll(init, p);
      assert |Filter(xs, p)| == |Filter(init, p)| + (if p(last) then 1 else 0);
      if forall i :: 0 <= i < |xs| ==> p(xs[i]) {
        forall i | 0 <= i < |init| ensures p(init[i]) {
          assert init[i] == xs[i];
        }
      } else {
        var i :| 0 <= i < |xs| && !p(xs[i]);
        if i < |init| {
          assert init[i] == xs[i];
        }
      }
    }
  }

  /** Counting by a predicate and by its negation accounts for every element once. */
  lemma {:induction false} CountSplits<T>(xs: seq<T>, p: T -> bool, q: T -> bool)
    requires forall x :: q(x) == !p(x)
    ensures Count(xs, p) + Count(xs, q) == |xs|
  {
    if xs != [] {
      CountSplits(xs[..|xs| - 1], p, q);
    }
  }

  /** If every element lies in [lo, hi], the sum lies in [lo * n, hi * n]. */
  lemma {:induction false} SumBounds(xs: seq<real>, lo: real, hi: real)
    requires forall i :: 0 <= i < |xs| ==> lo <= xs[i] <= hi
    ensures lo * |xs| as real <= Sum(xs) <= hi * |xs| as real
  {
    if xs != [] {
      var init := xs[..|xs| - 1];
      forall i | 0 <= i < |init| ensures lo <= init[i] <= hi { assert init[i] == xs[i]; }
      SumBounds(init, lo, hi);
      assert lo * |xs| as real == lo * |init| as real + lo;
      assert hi * |xs| as real == hi * |init| as real + hi;
    }
  }

  /** The arithmetic mean of a non-empty sequence of values in [lo, hi] lies in [lo, hi]. */
  lemma MeanBounds(xs: seq<real>, lo: real, hi: real)
    requires xs != []
    requires forall i :: 0 <= i < |xs| ==> lo <= xs[i] <= hi
    ensures lo <= Mean(xs) <= hi
  {
    SumBounds(xs, lo, hi);
    DivideBounds(Sum(xs), |xs| as real, lo, hi);
  }

  lemma DivideBounds(total: real, n: real, lo: real, hi: real)
    requires n > 0.0 && lo * n <= total <= hi * n
    ensures lo <= total / n <= hi
  {
    var m := total / n;
    assert m * n == total;
  }

  /** A total divided by a count, 0 for a count of 0. */
  function Quotient(total: real, n: nat): real
  {
    if n == 0 then 0.0 else total / n as real
  }

  /** Multiplied back by a positive count, the quotient gives the total. */
  lemma QuotientTimesCount(q: real, total: real, n: nat)
    requires n > 0 && q == Quotient(total, n)
    ensures q * n as real == total
  {
    var d := n as real;
    assert (total / d) * d == total;
  }

  /** The arithmetic mean, 0 for no values. */
  function Mean(xs: seq<real>): real
  {
    Quotient(Sum(xs), |xs|)
  }

  /** The mean times the number of values is their sum; the mean of no values is 0. */
  lemma MeanTimesCount(xs: seq<real>)
    ensures Mean(xs) * |xs| as real == Sum(xs)
    ensures xs == [] ==> Mean(xs) == 0.0
  {
    if xs != [] {
      QuotientTimesCount(Mean(xs), Sum(xs), |xs|);
    }
  }

  /** A mean of values all strictly below a bound is strictly below it. */
  lemma MeanBelow(xs: seq<real>, bound: real)
    requires xs != [] && forall i :: 0 <= i < |xs| ==> xs[i] < bound
    ensures Mean(xs) < bound
  {
    var lo, hi := xs[0], xs[0];
    for i := 1 to |xs|
      invariant forall k :: 0 <= k < i ==> lo <= xs[k] <= hi
      invariant hi < bound
    {
      if xs[i] > hi { hi := xs[i]; }
      if xs[i] < lo { lo := xs[i]; }
    }
    MeanBounds(xs, lo, hi);
  }

  /** The values f gives Some for, element by element and in order: a loop that appends f(x) whenever it is not None. */
  function Collect<A, B>(xs: seq<A>, f: A -> Option<B>): (ys: seq<B>)
    ensures |ys| <= |xs|
  {
    if xs == [] then []
    else
      var last := f(xs[|xs| - 1]);
      Collect(xs[..|xs| - 1], f) + (if last.Some? then [last.value] else [])
  }

  /** Collecting one more element appends what f gives for it, if anything. */
  lemma CollectStep<A, B>(xs: seq<A>, f: A -> Option<B>, i: nat)
    requires i < |xs|
    ensures Collect(xs[..i + 1], f) == Collect(xs[..i], f) + (if f(xs[i]).Some? then [f(xs[i]).value] else [])
  {
    assert xs[..i + 1][..i] == xs[..i];
  }

  /** Collecting over two stretches one after the other gives the values of the first, then those of the second. */
  lemma {:induction false} CollectAppend<A, B>(xs: seq<A>, ys: seq<A>, f: A -> Option<B>)
    ensures Collect(xs + ys, f) == Collect(xs, f) + Collect(ys, f)
    decreases |ys|
  {
    if ys == [] {
      assert xs + ys == xs;
    } else {
      var init := ys[..|ys| - 1];
      assert (xs + ys)[..|xs + ys| - 1] == xs + init;
      assert (xs + ys)[|xs + ys| - 1] == ys[|ys| - 1];
      CollectAppend(xs, init, f);
    }
  }

  /** Every collected value is what f gives for some element. */
  lemma {:induction false} CollectFrom<A, B>(xs: seq<A>, f: A -> Option<B>, y: B)
    requires y in Collect(xs, f)
    ensures exists i :: 0 <= i < |xs| && f(xs[i]) == Some(y)
  {
    var init := xs[..|xs| - 1];
    var last := f(xs[|xs| - 1]);
    if y in Collect(init, f) {
      CollectFrom(init, f, y);
      var i :| 0 <= i < |init| && f(init[i]) == Some(y);
      assert xs[i] == init[i];
    } else {
      assert last == Some(y);
    }
  }
}
