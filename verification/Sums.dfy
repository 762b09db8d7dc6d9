/** Sums over sequences of integers, and how they change when one entry does. */
module Sums {

  function Sum(xs: seq<int>): int {
    if xs == [] then 0 else xs[0] + Sum(xs[1..])
  }

  lemma {:induction false} SumAppend(xs: seq<int>, ys: seq<int>)
    ensures Sum(xs + ys) == Sum(xs) + Sum(ys)
  {
    if xs == [] {
      assert xs + ys == ys;
    } else {
      assert (xs + ys)[1..] == xs[1..] + ys;
      SumAppend(xs[1..], ys);
    }
  }

  lemma {:induction false} SumUpdate(xs: seq<int>, k: nat, v: int)
    requires k < |xs|
    ensures Sum(xs[k := v]) == Sum(xs) - xs[k] + v
  {
    if k == 0 {
      assert xs[0 := v][1..] == xs[1..];
    } else {
      assert xs[k := v][1..] == xs[1..][k - 1 := v];
      SumUpdate(xs[1..], k - 1, v);
    }
  }

  lemma {:induction false} SumSplit(xs: seq<int>, ys: seq<int>, zs: seq<int>)
    requires |xs| == |ys| == |zs|
    requires forall k :: 0 <= k < |xs| ==> xs[k] == ys[k] + zs[k]
    ensures Sum(xs) == Sum(ys) + Sum(zs)
  {
    if xs != [] {
      SumSplit(xs[1..], ys[1..], zs[1..]);
    }
  }

  lemma {:induction false} SumBounds(xs: seq<int>, k: nat)
    requires forall j :: 0 <= j < |xs| ==> xs[j] >= 0
    ensures Sum(xs) >= 0
    ensures k < |xs| ==> xs[k] <= Sum(xs)
  {
    if xs != [] {
      SumBounds(xs[1..], if k == 0 then 0 else k - 1);
    }
  }
}
