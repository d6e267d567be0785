// The k-th smallest key of a sequence, by sorting and by counting.
module OrderStatistics {
  import opened Sequences
  import opened Sorting

  // Elements whose key is at most p.
  function CountAtMost<T>(xs: seq<T>, key: T -> real, p: real): nat {
    if xs == [] then 0 else CountAtMost(xs[..|xs|-1], key, p) + if key(xs[|xs|-1]) <= p then 1 else 0
  }

  // Elements whose key is below p.
  function CountBelow<T>(xs: seq<T>, key: T -> real, p: real): nat {
    if xs == [] then 0 else CountBelow(xs[..|xs|-1], key, p) + if key(xs[|xs|-1]) < p then 1 else 0
  }

  // p is the k-th smallest key: fewer than k keys are below it, at least k at most it.
  ghost predicate IsKth<T>(xs: seq<T>, key: T -> real, k: nat, p: real) {
    CountBelow(xs, key, p) < k <= CountAtMost(xs, key, p)
  }

  // The k-th element of the sorted sequence, as the source indexes it.
  function Kth<T>(xs: seq<T>, key: T -> real, k: nat): real
    requires 1 <= k <= |xs|
  {
    SortKeeps(xs, key);
    key(SortBy(xs, key)[k-1])
  }

  lemma {:induction false} CountConcat<T>(xs: seq<T>, ys: seq<T>, key: T -> real, p: real)
    ensures CountAtMost(xs + ys, key, p) == CountAtMost(xs, key, p) + CountAtMost(ys, key, p)
    ensures CountBelow(xs + ys, key, p) == CountBelow(xs, key, p) + CountBelow(ys, key, p)
  {
    if ys == [] {
      assert xs + ys == xs;
    } else {
      var n := |ys| - 1;
      assert (xs + ys)[..|xs|+n] == xs + ys[..n];
      CountConcat(xs, ys[..n], key, p);
    }
  }

  // Counting does not depend on the order.
  lemma {:induction false} CountPermutation<T>(xs: seq<T>, ys: seq<T>, key: T -> real, p: real)
    requires multiset(xs) == multiset(ys)
    ensures CountAtMost(xs, key, p) == CountAtMost(ys, key, p)
    ensures CountBelow(xs, key, p) == CountBelow(ys, key, p)
  {
    SameElements(xs, ys);
    if xs != [] {
      var n := |xs| - 1;
      var j := IndexOf(ys, xs[n]);
      WithoutLast(xs, ys, j);
      CountPermutation(xs[..n], ys[..j] + ys[j+1..], key, p);
      CountWithout(ys, j, key, p);
    }
  }

  lemma WithoutLast<T>(xs: seq<T>, ys: seq<T>, j: nat)
    requires multiset(xs) == multiset(ys) && xs != [] && j < |ys| && ys[j] == xs[|xs|-1]
    ensures multiset(xs[..|xs|-1]) == multiset(ys[..j] + ys[j+1..])
  {
    var n := |xs| - 1;
    assert ys == (ys[..j] + [xs[n]]) + ys[j+1..];
    assert xs == xs[..n] + [xs[n]];
    assert multiset(ys) - multiset{xs[n]} == multiset(ys[..j] + ys[j+1..]);
    assert multiset(xs) - multiset{xs[n]} == multiset(xs[..n]);
  }

  lemma CountWithout<T>(ys: seq<T>, j: nat, key: T -> real, p: real)
    requires j < |ys|
    ensures var rest := ys[..j] + ys[j+1..];
      && CountAtMost(ys, key, p) == CountAtMost(rest, key, p) + (if key(ys[j]) <= p then 1 else 0)
      && CountBelow(ys, key, p) == CountBelow(rest, key, p) + (if key(ys[j]) < p then 1 else 0)
  {
    CountConcat(ys[..j] + [ys[j]], ys[j+1..], key, p);
    CountConcat(ys[..j], ys[j+1..], key, p);
    assert (ys[..j] + [ys[j]])[..j] == ys[..j];
    assert ys == (ys[..j] + [ys[j]]) + ys[j+1..];
  }

  lemma {:induction false} CountLength<T>(xs: seq<T>, key: T -> real, p: real)
    ensures CountBelow(xs, key, p) <= CountAtMost(xs, key, p) <= |xs|
  {
    if xs != [] { CountLength(xs[..|xs|-1], key, p); }
  }

  lemma {:induction false} CountGap<T>(xs: seq<T>, key: T -> real, p: real, q: real)
    requires p < q
    ensures CountAtMost(xs, key, p) <= CountBelow(xs, key, q)
  {
    if xs != [] { CountGap(xs[..|xs|-1], key, p, q); }
  }

  lemma {:induction false} CountAll<T>(xs: seq<T>, key: T -> real, p: real)
    requires forall x :: x in xs ==> key(x) <= p
    ensures CountAtMost(xs, key, p) == |xs|
  {
    if xs != [] { CountAll(xs[..|xs|-1], key, p); }
  }

  lemma {:induction false} CountNone<T>(xs: seq<T>, key: T -> real, p: real)
    requires forall x :: x in xs ==> key(x) >= p
    ensures CountBelow(xs, key, p) == 0
  {
    if xs != [] { CountNone(xs[..|xs|-1], key, p); }
  }

  lemma SortedCounts<T>(zs: seq<T>, key: T -> real, k: nat)
    requires SortedBy(zs, key) && 1 <= k <= |zs|
    ensures IsKth(zs, key, k, key(zs[k-1]))
  {
    var p := key(zs[k-1]);
    assert zs == zs[..k] + zs[k..] && zs == zs[..k-1] + zs[k-1..];
    CountConcat(zs[..k], zs[k..], key, p);
    CountConcat(zs[..k-1], zs[k-1..], key, p);
    CountAll(zs[..k], key, p);
    CountNone(zs[k-1..], key, p);
    CountLength(zs[..k-1], key, p);
  }

  // Sorting finds the k-th smallest key.
  lemma KthIsKth<T>(xs: seq<T>, key: T -> real, k: nat)
    requires 1 <= k <= |xs|
    ensures IsKth(xs, key, k, Kth(xs, key, k))
  {
    hide SortBy, CountBelow, CountAtMost;
    var zs := SortBy(xs, key);
    SortKeeps(xs, key);
    SortSorts(xs, key);
    SortedCounts(zs, key, k);
    CountPermutation(xs, zs, key, key(zs[k-1]));
  }

  // It is the key of an element.
  lemma KthMember<T>(xs: seq<T>, key: T -> real, k: nat) returns (x: T)
    requires 1 <= k <= |xs|
    ensures x in xs && key(x) == Kth(xs, key, k)
  {
    SortKeeps(xs, key);
    var zs := SortBy(xs, key);
    x := zs[k-1];
    assert x in multiset(zs);
    assert x in multiset(xs);
  }

  lemma KthUnique<T>(xs: seq<T>, key: T -> real, k: nat, p: real)
    requires 1 <= k <= |xs|
    ensures IsKth(xs, key, k, p) <==> p == Kth(xs, key, k)
  {
    var q := Kth(xs, key, k);
    KthIsKth(xs, key, k);
    if p < q { CountGap(xs, key, p, q); }
    if q < p { CountGap(xs, key, q, p); }
  }

  lemma KthPermutation<T>(xs: seq<T>, ys: seq<T>, key: T -> real, k: nat)
    requires multiset(xs) == multiset(ys) && 1 <= k <= |xs|
    ensures |ys| == |xs| && Kth(ys, key, k) == Kth(xs, key, k)
  {
    SameElements(xs, ys);
    var p := Kth(xs, key, k);
    KthIsKth(xs, key, k);
    CountPermutation(xs, ys, key, p);
    KthUnique(ys, key, k, p);
  }

  lemma KthMonotone<T>(xs: seq<T>, key: T -> real, j: nat, k: nat)
    requires 1 <= j <= k <= |xs|
    ensures Kth(xs, key, j) <= Kth(xs, key, k)
  {
    SortKeeps(xs, key);
    SortSorts(xs, key);
  }

  // If every key of ys is at least the key of xs at its position, so is every order statistic.
  lemma {:induction false} CountDominates<T, U>(xs: seq<T>, key: T -> real, ys: seq<U>, other: U -> real, p: real)
    requires |xs| == |ys| && forall i :: 0 <= i < |xs| ==> key(xs[i]) <= other(ys[i])
    ensures CountAtMost(ys, other, p) <= CountAtMost(xs, key, p)
  {
    if xs != [] { CountDominates(xs[..|xs|-1], key, ys[..|ys|-1], other, p); }
  }

  lemma KthDominates<T, U>(xs: seq<T>, key: T -> real, ys: seq<U>, other: U -> real, k: nat)
    requires |xs| == |ys| && (forall i :: 0 <= i < |xs| ==> key(xs[i]) <= other(ys[i])) && 1 <= k <= |xs|
    ensures Kth(xs, key, k) <= Kth(ys, other, k)
  {
    var p, q := Kth(xs, key, k), Kth(ys, other, k);
    KthIsKth(xs, key, k);
    KthIsKth(ys, other, k);
    CountDominates(xs, key, ys, other, q);
    if q < p { CountGap(xs, key, q, p); }
  }

  // One more element never raises a fixed order statistic.
  lemma KthExtra<T>(xs: seq<T>, x: T, key: T -> real, k: nat)
    requires 1 <= k <= |xs|
    ensures Kth(xs + [x], key, k) <= Kth(xs, key, k)
  {
    var p, q := Kth(xs, key, k), Kth(xs + [x], key, k);
    KthIsKth(xs, key, k);
    KthIsKth(xs + [x], key, k);
    assert (xs + [x])[..|xs|] == xs;
    if p < q { CountGap(xs + [x], key, p, q); }
  }
}
