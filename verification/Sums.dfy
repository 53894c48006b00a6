/** Sums over integer sequences: the arithmetic behind checker counts and pip totals. */
module Sums {
  function Sum(xs: seq<int>): int {
    if xs == [] then 0 else xs[0] + Sum(xs[1..])
  }

  lemma {:induction false} SumAppend(xs: seq<int>, ys: seq<int>)
    ensures Sum(xs + ys) == Sum(xs) + Sum(ys)
  {
    if xs == [] {
      assert xs + ys == ys;
    } else {
      assert (xs + ys)[1..] == xs[1..] + ys;
      SumAppend(xs[1..], ys);
    }
  }

  /** Replacing one term changes the sum by the difference. */
  lemma {:induction false} SumUpdate(xs: seq<int>, i: nat, v: int)
    requires i < |xs|
    ensures Sum(xs[i := v]) == Sum(xs) - xs[i] + v
  {
    if i == 0 {
      assert xs[0 := v][1..] == xs[1..];
    } else {
      assert xs[i := v][1..] == xs[1..][i - 1 := v];
      SumUpdate(xs[1..], i - 1, v);
    }
  }

  lemma {:induction false} SumNonNegative(xs: seq<int>)
    requires forall i :: 0 <= i < |xs| ==> xs[i] >= 0
    ensures Sum(xs) >= 0
    ensures forall i :: 0 <= i < |xs| ==> xs[i] <= Sum(xs)
  {
    if xs != [] {
      SumNonNegative(xs[1..]);
      forall i | 0 <= i < |xs| ensures xs[i] <= Sum(xs) {
        assert i == 0 || xs[i] == xs[1..][i - 1];
      }
    }
  }

  lemma {:induction false} SumMonotone(xs: seq<int>, ys: seq<int>)
    requires |xs| == |ys|
    requires forall i :: 0 <= i < |xs| ==> xs[i] <= ys[i]
    ensures Sum(xs) <= Sum(ys)
  {
    if xs != [] {
      SumMonotone(xs[1..], ys[1..]);
    }
  }

  /** Scaling every term scales the sum. */
  lemma {:induction false} SumScale(xs: seq<int>, ys: seq<int>, c: int)
    requires |xs| == |ys|
    requires forall i :: 0 <= i < |xs| ==> ys[i] == c * xs[i]
    ensures Sum(ys) == c * Sum(xs)
  {
    if xs != [] {
      SumScale(xs[1..], ys[1..], c);
    }
  }

  /** A cyclic shift keeps the sum. */
  lemma SumRotate(xs: seq<int>, k: nat)
    requires k <= |xs|
    ensures Sum(xs[k..] + xs[..k]) == Sum(xs)
  {
    SumAppend(xs[k..], xs[..k]);
    SumAppend(xs[..k], xs[k..]);
    assert xs[..k] + xs[k..] == xs;
  }

  /** The sum of one more term. */
  lemma SumNext(xs: seq<int>, i: nat)
    requires i < |xs|
    ensures Sum(xs[..i + 1]) == Sum(xs[..i]) + xs[i]
  {
    assert xs[..i + 1] == xs[..i] + [xs[i]];
    SumAppend(xs[..i], [xs[i]]);
    assert [xs[i]][1..] == [];
  }

  /** The order of the terms does not matter. */
  lemma {:induction false} SumReverse(xs: seq<int>, ys: seq<int>)
    requires |ys| == |xs| && forall i :: 0 <= i < |xs| ==> ys[i] == xs[|xs| - 1 - i]
    ensures Sum(ys) == Sum(xs)
  {
    if xs != [] {
      var n := |xs| - 1;
      SumReverse(xs[1..], ys[..n]);
      assert ys == ys[..n] + [xs[0]];
      SumAppend(ys[..n], [xs[0]]);
      assert [xs[0]][1..] == [];
    }
  }

  /** Where the first `n` terms are one. */
  function Ones(xs: seq<int>, n: nat): (r: set<int>)
    requires n <= |xs|
    ensures forall i :: i in r <==> 0 <= i < n && xs[i] == 1
  {
    set i | 0 <= i < n && xs[i] == 1
  }

  /** Zeros and ones add up to the number of ones. */
  lemma {:induction false} SumCounts(xs: seq<int>, n: nat)
    requires n <= |xs| && forall i :: 0 <= i < |xs| ==> xs[i] == 0 || xs[i] == 1
    ensures Sum(xs[..n]) == |Ones(xs, n)|
  {
    if n == 0 {
      assert Ones(xs, 0) == {};
    } else {
      SumCounts(xs, n - 1);
      SumNext(xs, n - 1);
      assert Ones(xs, n) == Ones(xs, n - 1) + if xs[n - 1] == 1 then {n - 1} else {};
    }
  }
}
