/** Sums and counts over sequences, defined from the last element back. */
module Counting {

  function Min(a: int, b: int): int
  {
    if a <= b then a else b
  }

  function Sum(xs: seq<nat>): nat
  {
    if xs == [] then 0 else Sum(xs[..|xs| - 1]) + xs[|xs| - 1]
  }

  /** Number of `true` entries, as `iter().filter(|&x| *x).count()` computes. */
  function CountTrue(bs: seq<bool>): nat
  {
    if bs == [] then 0 else CountTrue(bs[..|bs| - 1]) + (if bs[|bs| - 1] then 1 else 0)
  }

  lemma {:induction false} SumAppend(a: seq<nat>, b: seq<nat>)
    ensures Sum(a + b) == Sum(a) + Sum(b)
    decreases |b|
  {
    if b == [] {
      assert a + b == a;
    } else {
      assert (a + b)[..|a + b| - 1] == a + b[..|b| - 1];
      SumAppend(a, b[..|b| - 1]);
    }
  }

  lemma {:induction false} CountTrueBounds(bs: seq<bool>)
    ensures CountTrue(bs) <= |bs|
    ensures CountTrue(bs) > 0 <==> exists i :: 0 <= i < |bs| && bs[i]
    decreases |bs|
  {
    if bs != [] {
      var init := bs[..|bs| - 1];
      CountTrueBounds(init);
      assert forall i :: 0 <= i < |init| ==> init[i] == bs[i];
    }
  }

  lemma {:induction false} CountTruePrefix(bs: seq<bool>, i: nat)
    requires i <= |bs|
    ensures CountTrue(bs[..i]) <= CountTrue(bs)
    decreases |bs| - i
  {
    if i < |bs| {
      CountTruePrefix(bs, i + 1);
      assert bs[..i + 1][..i] == bs[..i];
    } else {
      assert bs[..i] == bs;
    }
  }

  lemma CountTrueAllFalse(n: nat)
    ensures CountTrue(seq(n, _ => false)) == 0
  {
    CountTrueBounds(seq(n, _ => false));
  }
}
