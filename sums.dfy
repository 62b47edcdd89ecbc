/** Sums over amount schedules: the `reduce((sum, a) => sum + a, 0n)` folds and running sums. */
module Sums {

  function Min(a: int, b: int): int { if a <= b then a else b }

  function Max(a: int, b: int): int { if a >= b then a else b }

  /** Left fold of `+` from 0, element by element in order. */
  function Sum(xs: seq<nat>): nat
  {
    if |xs| == 0 then 0 else Sum(xs[..|xs| - 1]) + xs[|xs| - 1]
  }

  /** The running `sum` after the first `n` elements have been added. */
  function PrefixSum(xs: seq<nat>, n: nat): nat
    requires n <= |xs|
  {
    Sum(xs[..n])
  }

  lemma SumAppend(xs: seq<nat>, x: nat)
    ensures Sum(xs + [x]) == Sum(xs) + x
  {
    assert (xs + [x])[..|xs|] == xs;
  }

  lemma {:induction false} SumPrepend(x: nat, ys: seq<nat>)
    ensures Sum([x] + ys) == x + Sum(ys)
  {
    if ys != [] {
      var n := |ys| - 1;
      assert ([x] + ys)[..|ys|] == [x] + ys[..n];
      SumPrepend(x, ys[..n]);
    }
  }

  lemma PrefixSumStep(xs: seq<nat>, n: nat)
    requires n < |xs|
    ensures PrefixSum(xs, n + 1) == PrefixSum(xs, n) + xs[n]
  {
    assert xs[..n + 1] == xs[..n] + [xs[n]];
    SumAppend(xs[..n], xs[n]);
  }

  lemma PrefixSumWhole(xs: seq<nat>)
    ensures PrefixSum(xs, |xs|) == Sum(xs)
  {
    assert xs[..|xs|] == xs;
  }

  lemma PrefixSumOfPrefix(xs: seq<nat>, n: nat, k: nat)
    requires k <= n <= |xs|
    ensures PrefixSum(xs[..n], k) == PrefixSum(xs, k)
  {
    assert xs[..n][..k] == xs[..k];
  }

  /** Running sums of non-negative amounts never decrease. */
  lemma {:induction false} PrefixSumMonotone(xs: seq<nat>, m: nat, n: nat)
    requires m <= n <= |xs|
    ensures PrefixSum(xs, m) <= PrefixSum(xs, n)
  {
    if m < n {
      PrefixSumMonotone(xs, m, n - 1);
      PrefixSumStep(xs, n - 1);
    }
  }

  /** The running sum never exceeds the whole sum. */
  lemma PrefixSumBounded(xs: seq<nat>, n: nat)
    requires n <= |xs|
    ensures PrefixSum(xs, n) <= Sum(xs)
  {
    PrefixSumMonotone(xs, n, |xs|);
    PrefixSumWhole(xs);
  }
}
