/** Sums of a measure over the elements of a sequence. */
module Sums {

  ghost function Total<T>(xs: seq<T>, f: T -> int): int {
    if xs == [] then 0 else f(xs[0]) + Total(xs[1..], f)
  }

  lemma {:induction false} TotalOfUpdate<T>(xs: seq<T>, k: nat, x: T, f: T -> int)
    requires k < |xs|
    ensures Total(xs[k := x], f) == Total(xs, f) - f(xs[k]) + f(x)
  {
    if k > 0 {
      assert xs[k := x][1..] == xs[1..][k - 1 := x];
      TotalOfUpdate(xs[1..], k - 1, x, f);
    } else {
      assert xs[k := x][1..] == xs[1..];
    }
  }

  lemma {:induction false} TotalOfAppend<T>(xs: seq<T>, ys: seq<T>, f: T -> int)
    ensures Total(xs + ys, f) == Total(xs, f) + Total(ys, f)
  {
    if xs == [] {
      assert xs + ys == ys;
    } else {
      assert (xs + ys)[1..] == xs[1..] + ys;
      TotalOfAppend(xs[1..], ys, f);
    }
  }

  lemma TotalOfOne<T>(x: T, f: T -> int)
    ensures Total([x], f) == f(x)
  {
    assert [x][1..] == [];
  }

  lemma {:induction false} TotalIsNonNegative<T>(xs: seq<T>, f: T -> int)
    requires forall k :: 0 <= k < |xs| ==> f(xs[k]) >= 0
    ensures Total(xs, f) >= 0
    ensures forall k :: 0 <= k < |xs| ==> f(xs[k]) <= Total(xs, f)
  {
    if xs != [] {
      assert forall k :: 0 <= k < |xs[1..]| ==> xs[1..][k] == xs[k + 1];
      TotalIsNonNegative(xs[1..], f);
      forall k | 0 <= k < |xs|
        ensures f(xs[k]) <= Total(xs, f)
      {
        if k > 0 {
          assert xs[1..][k - 1] == xs[k];
        }
      }
    }
  }

  /** A count weighed against a smaller one: if the first drops, or stays and the second does, the whole drops. */
  lemma ProductDecreases(was: int, now: int, k: int, localWas: int, localNow: int)
    requires 0 <= now <= was && 0 <= localNow < k && 0 <= localWas
    requires now < was || localNow < localWas
    ensures 0 <= now * k + localNow < was * k + localWas
  {
    if now < was {
      assert (now + 1) * k <= was * k;
    } else {
      assert now * k == was * k;
    }
  }
}
