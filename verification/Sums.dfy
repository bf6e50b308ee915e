/** Options, and sums of a weight over the elements of a sequence. */
module Sums {

  datatype Option<+T> = None | Some(value: T)

  function Sum<T>(w: T -> nat, xs: seq<T>): nat {
    if xs == [] then 0 else w(xs[0]) + Sum(w, xs[1..])
  }

  lemma {:induction false} SumAppend<T>(w: T -> nat, xs: seq<T>, x: T)
    ensures Sum(w, xs + [x]) == Sum(w, xs) + w(x)
  {
    if xs == [] {
      assert xs + [x] == [x];
    } else {
      assert (xs + [x])[1..] == xs[1..] + [x];
      SumAppend(w, xs[1..], x);
    }
  }

  /** Replacing one element moves the sum by the difference of the two weights. */
  lemma {:induction false} SumUpdate<T>(w: T -> nat, xs: seq<T>, i: nat, x: T)
    requires i < |xs|
    ensures Sum(w, xs[i := x]) + w(xs[i]) == Sum(w, xs) + w(x)
  {
    if i == 0 {
      assert xs[0 := x][1..] == xs[1..];
    } else {
      assert xs[i := x][1..] == xs[1..][i - 1 := x];
      SumUpdate(w, xs[1..], i - 1, x);
    }
  }

  /** Two sequences whose elements have pairwise equal weights have equal sums. */
  lemma {:induction false} SumPointwise<T>(w: T -> nat, xs: seq<T>, ys: seq<T>)
    requires |xs| == |ys|
    requires forall i :: 0 <= i < |xs| ==> w(xs[i]) == w(ys[i])
    ensures Sum(w, xs) == Sum(w, ys)
  {
    if xs != [] {
      SumPointwise(w, xs[1..], ys[1..]);
    }
  }

  /** A positive sum has an element of positive weight. */
  lemma {:induction false} SumPositive<T>(w: T -> nat, xs: seq<T>) returns (i: nat)
    requires Sum(w, xs) > 0
    ensures i < |xs| && w(xs[i]) > 0
  {
    if w(xs[0]) > 0 {
      i := 0;
    } else {
      var j := SumPositive(w, xs[1..]);
      i := j + 1;
    }
  }

  /** No element weighs more than the whole. */
  lemma {:induction false} SumAtLeast<T>(w: T -> nat, xs: seq<T>, i: nat)
    requires i < |xs|
    ensures w(xs[i]) <= Sum(w, xs)
  {
    if i > 0 {
      SumAtLeast(w, xs[1..], i - 1);
    }
  }

  /** Nor do two elements together. */
  lemma {:induction false} SumAtLeastTwo<T>(w: T -> nat, xs: seq<T>, i: nat, j: nat)
    requires i < j < |xs|
    ensures w(xs[i]) + w(xs[j]) <= Sum(w, xs)
  {
    if i > 0 {
      SumAtLeastTwo(w, xs[1..], i - 1, j - 1);
    } else {
      SumAtLeast(w, xs[1..], j - 1);
    }
  }
}
