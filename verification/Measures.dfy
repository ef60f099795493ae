/**
 Sizes and sums for termination measures.

 Every scheduler is shown to come to an end by a measure that each of its steps
 makes smaller.  The larger part of it is always the same: one number for each
 transaction, the work still ahead of it, summed up over all transactions.  A
 worker's step lowers the number of the transaction it works for and leaves the
 others alone, or, where transactions can throw each other back, does not raise
 them.  The numbers themselves are made of the sizes of finite sets and maps:
 keys still to be read, writes still to be applied, neighbours still to be
 decremented; hence the lemmas about subsets, bounded sets and removals.
 */
module Measures {

  function Sum(xs: seq<nat>): nat {
    if xs == [] then 0 else Sum(xs[..|xs| - 1]) + xs[|xs| - 1]
  }

  /** One number falls and no other grows: the sum falls. */
  lemma {:induction false} SumDrops(xs: seq<nat>, ys: seq<nat>, x: nat)
    requires |xs| == |ys| && x < |xs| && ys[x] < xs[x]
    requires forall i | 0 <= i < |xs| && i != x :: ys[i] <= xs[i]
    ensures Sum(ys) < Sum(xs)
    decreases |xs|
  {
    var n := |xs| - 1;
    if x == n {
      SumNotAbove(xs[..n], ys[..n]);
    } else {
      SumDrops(xs[..n], ys[..n], x);
    }
  }

  lemma {:induction false} SumNotAbove(xs: seq<nat>, ys: seq<nat>)
    requires |xs| == |ys| && forall i | 0 <= i < |xs| :: ys[i] <= xs[i]
    ensures Sum(ys) <= Sum(xs)
    decreases |xs|
  {
    if xs != [] {
      SumNotAbove(xs[..|xs| - 1], ys[..|xs| - 1]);
    }
  }

  lemma {:induction false} SubsetSize<T>(x: set<T>, y: set<T>)
    requires x <= y
    ensures |x| <= |y|
  {
    if x != {} {
      var e :| e in x;
      SubsetSize(x - {e}, y - {e});
    }
  }

  lemma {:induction false} BoundedSize(x: set<nat>, n: nat)
    requires forall t | t in x :: t < n
    ensures |x| <= n
  {
    if n == 0 {
      assert x == {};
    } else {
      BoundedSize(x - {n - 1}, n - 1);
      SubsetSize(x, (x - {n - 1}) + {n - 1});
    }
  }

  lemma KeysWithin<K, V>(m: map<K, V>, keys: set<K>)
    requires m.Keys <= keys
    ensures |m| <= |keys|
  {
    SubsetSize(m.Keys, keys);
    assert |m.Keys| == |m|;
  }

  lemma RemovalShrinks<K, V>(m: map<K, V>, k: K)
    requires k in m
    ensures |m - {k}| < |m|
  {
    assert (m - {k}).Keys == m.Keys - {k};
    assert |m.Keys| == |m| && |(m - {k}).Keys| == |m - {k}|;
  }
}
