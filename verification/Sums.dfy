/** Finite sums over sequences of integers. Every conservation argument in the
    project is "one entry changed by this much, so the sum changed by as much". */
module Sums {
  import opened Arithmetic

  ghost function Sum(xs: seq<int>): int {
    if xs == [] then 0 else Sum(xs[..|xs| - 1]) + xs[|xs| - 1]
  }

  /** `sum` after `x` has been added to it `n` times. */
  ghost function Added(sum: nat, n: nat, x: nat): nat
    decreases n
  {
    if n == 0 then sum else Added(sum + x, n - 1, x)
  }

  lemma {:induction false} AddedIsProduct(sum: nat, n: nat, x: nat)
    ensures Added(sum, n, x) == sum + n * x
    decreases n
  {
    if n > 0 {
      AddedIsProduct(sum + x, n - 1, x);
      OneMore(n - 1, x);
    }
  }

  lemma {:induction false} SumAppend(xs: seq<int>, x: int)
    ensures Sum(xs + [x]) == Sum(xs) + x
  {
    assert (xs + [x])[..|xs|] == xs;
  }

  lemma {:induction false} SumUpdate(xs: seq<int>, i: nat, x: int)
    requires i < |xs|
    ensures Sum(xs[i := x]) == Sum(xs) - xs[i] + x
  {
    var last := |xs| - 1;
    if i == last {
      assert xs[i := x][..last] == xs[..last];
    } else {
      SumUpdate(xs[..last], i, x);
      assert xs[i := x][..last] == xs[..last][i := x];
    }
  }

  lemma {:induction false} SumMonotone(xs: seq<int>, ys: seq<int>)
    requires |xs| == |ys|
    requires forall i :: 0 <= i < |xs| ==> xs[i] <= ys[i]
    ensures Sum(xs) <= Sum(ys)
  {
    if xs != [] {
      var last := |xs| - 1;
      SumMonotone(xs[..last], ys[..last]);
    }
  }

  lemma {:induction false} SumAdd(xs: seq<int>, ys: seq<int>, zs: seq<int>)
    requires |xs| == |ys| == |zs|
    requires forall i :: 0 <= i < |xs| ==> zs[i] == xs[i] + ys[i]
    ensures Sum(zs) == Sum(xs) + Sum(ys)
  {
    if xs != [] {
      var last := |xs| - 1;
      SumAdd(xs[..last], ys[..last], zs[..last]);
    }
  }

  lemma {:induction false} SumZero(xs: seq<int>)
    requires forall i :: 0 <= i < |xs| ==> xs[i] == 0
    ensures Sum(xs) == 0
  {
    if xs != [] {
      SumZero(xs[..|xs| - 1]);
    }
  }

  /** No entry of a non-negative sequence exceeds its sum. */
  lemma {:induction false} SumBoundsEntry(xs: seq<int>, i: nat)
    requires i < |xs|
    requires forall k :: 0 <= k < |xs| ==> 0 <= xs[k]
    ensures 0 <= xs[i] <= Sum(xs)
  {
    SumMonotone(seq(|xs|, k => 0), xs[i := 0]);
    SumZero(seq(|xs|, k => 0));
    SumUpdate(xs, i, 0);
  }
}
