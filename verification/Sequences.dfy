// Finite sums over sequences, and sequences without repetitions.
module Sequences {

  ghost predicate Distinct<T>(xs: seq<T>) {
    forall i, j :: 0 <= i < j < |xs| ==> xs[i] != xs[j]
  }

  function ToSet<T>(xs: seq<T>): set<T> {
    set x | x in xs
  }

  // Position of x in a sequence that contains it: the first one.
  function IndexOf<T(==)>(xs: seq<T>, x: T): (i: nat)
    requires x in xs
    ensures i < |xs| && xs[i] == x
  {
    if xs[0] == x then 0 else 1 + IndexOf(xs[1..], x)
  }

  lemma {:induction false} IndexOfFirst<T>(xs: seq<T>, x: T)
    requires x in xs
    ensures forall j :: 0 <= j < IndexOf(xs, x) ==> xs[j] != x
  {
    if xs[0] != x { IndexOfFirst(xs[1..], x); }
  }

  function Sum<T>(xs: seq<T>, f: T -> real): real {
    if xs == [] then 0.0 else Sum(xs[..|xs|-1], f) + f(xs[|xs|-1])
  }

  lemma TakeStep<T>(xs: seq<T>, k: nat)
    requires k < |xs|
    ensures xs[..k+1] == xs[..k] + [xs[k]]
    ensures xs[..|xs|] == xs
  {}

  lemma TakeAll<T>(xs: seq<T>)
    ensures xs[..|xs|] == xs && xs[..0] == []
  {}

  lemma SplitLast<T>(xs: seq<T>)
    requires xs != []
    ensures forall x :: x in xs <==> x in xs[..|xs|-1] || x == xs[|xs|-1]
  {
    assert xs == xs[..|xs|-1] + [xs[|xs|-1]];
  }

  lemma AppendSet<T>(xs: seq<T>, x: T)
    ensures ToSet(xs + [x]) == ToSet(xs) + {x}
    ensures (xs + [x])[..|xs|] == xs
  {}

  lemma TakeStepSet<T>(xs: seq<T>, k: nat)
    requires k < |xs|
    ensures ToSet(xs[..k+1]) == ToSet(xs[..k]) + {xs[k]}
  {
    TakeStep(xs, k);
  }

  lemma SumAppend<T>(xs: seq<T>, x: T, f: T -> real)
    ensures Sum(xs + [x], f) == Sum(xs, f) + f(x)
  {
    assert (xs + [x])[..|xs|] == xs;
  }

  lemma {:induction false} SumConcat<T>(xs: seq<T>, ys: seq<T>, f: T -> real)
    ensures Sum(xs + ys, f) == Sum(xs, f) + Sum(ys, f)
  {
    if ys == [] {
      assert xs + ys == xs;
    } else {
      var n := |ys| - 1;
      SumConcat(xs, ys[..n], f);
      assert xs + ys == (xs + ys[..n]) + [ys[n]];
      SumAppend(xs + ys[..n], ys[n], f);
    }
  }

  lemma {:induction false} SumCong<T>(xs: seq<T>, f: T -> real, g: T -> real)
    requires forall x :: x in xs ==> f(x) == g(x)
    ensures Sum(xs, f) == Sum(xs, g)
  {
    if xs != [] { SumCong(xs[..|xs|-1], f, g); }
  }

  function SumReals(rs: seq<real>): real {
    if rs == [] then 0.0 else SumReals(rs[..|rs|-1]) + rs[|rs|-1]
  }

  lemma {:induction false} SumByIndex<T>(xs: seq<T>, rs: seq<real>, f: T -> real)
    requires |rs| == |xs| && forall j :: 0 <= j < |xs| ==> rs[j] == f(xs[j])
    ensures SumReals(rs) == Sum(xs, f)
  {
    if xs != [] { SumByIndex(xs[..|xs|-1], rs[..|rs|-1], f); }
  }

  function Times(a: real, b: real): real {
    a * b
  }

  function Scaled<T(!new)>(a: real, f: T -> real): T -> real {
    x => Times(a, f(x))
  }

  function Added<T(!new)>(f: T -> real, g: T -> real): T -> real {
    x => f(x) + g(x)
  }

  lemma {:induction false} SumScaled<T(!new)>(xs: seq<T>, a: real, f: T -> real)
    ensures Sum(xs, Scaled(a, f)) == Times(a, Sum(xs, f))
  {
    if xs != [] {
      var n := |xs| - 1;
      SumScaled(xs[..n], a, f);
      Distribute(a, Sum(xs[..n], f), f(xs[n]));
    }
  }

  lemma Distribute(a: real, b: real, c: real)
    ensures Times(a, b + c) == Times(a, b) + Times(a, c)
  {}

  lemma {:induction false} SumAdded<T(!new)>(xs: seq<T>, f: T -> real, g: T -> real)
    ensures Sum(xs, Added(f, g)) == Sum(xs, f) + Sum(xs, g)
  {
    if xs != [] { SumAdded(xs[..|xs|-1], f, g); }
  }

  lemma {:induction false} SumZero<T>(xs: seq<T>, f: T -> real)
    requires forall x :: x in xs ==> f(x) == 0.0
    ensures Sum(xs, f) == 0.0
  {
    if xs != [] { SumZero(xs[..|xs|-1], f); }
  }

  // All terms but one vanish.
  lemma {:induction false} SumOne<T>(xs: seq<T>, x: T, f: T -> real)
    requires Distinct(xs) && x in xs && forall y :: y in xs && y != x ==> f(y) == 0.0
    ensures Sum(xs, f) == f(x)
  {
    var n := |xs| - 1;
    if xs[n] == x {
      assert x !in xs[..n];
      SumZero(xs[..n], f);
    } else {
      SumOne(xs[..n], x, f);
    }
  }

  lemma {:induction false} SumMonotone<T>(xs: seq<T>, f: T -> real, g: T -> real)
    requires forall x :: x in xs ==> f(x) <= g(x)
    ensures Sum(xs, f) <= Sum(xs, g)
  {
    if xs != [] { SumMonotone(xs[..|xs|-1], f, g); }
  }

  lemma {:induction false} DistinctSize<T>(xs: seq<T>)
    requires Distinct(xs)
    ensures |ToSet(xs)| == |xs|
  {
    if xs == [] {
      assert ToSet(xs) == {};
    } else {
      var n := |xs| - 1;
      DistinctSize(xs[..n]);
      assert ToSet(xs) == ToSet(xs[..n]) + {xs[n]};
    }
  }

  // A sum does not depend on the order of its terms.
  lemma {:induction false} SumPermutation<T>(xs: seq<T>, ys: seq<T>, f: T -> real)
    requires Distinct(xs) && Distinct(ys) && ToSet(xs) == ToSet(ys)
    ensures Sum(xs, f) == Sum(ys, f)
  {
    DistinctSize(xs);
    DistinctSize(ys);
    if xs != [] {
      var n := |xs| - 1;
      var x := xs[n];
      assert x in ToSet(ys);
      var j := IndexOf(ys, x);
      Removed(xs, ys, j);
      SumPermutation(xs[..n], ys[..j] + ys[j+1..], f);
      SumConcat(ys[..j], ys[j+1..], f);
      SumConcat(ys[..j] + [x], ys[j+1..], f);
      SumAppend(ys[..j], x, f);
      assert ys == ys[..j] + [x] + ys[j+1..];
    }
  }

  // Without the last element of xs, wherever ys holds it, the two still list the same.
  lemma Removed<T>(xs: seq<T>, ys: seq<T>, j: nat)
    requires Distinct(xs) && Distinct(ys) && ToSet(xs) == ToSet(ys) && xs != [] && j < |ys| && ys[j] == xs[|xs|-1]
    ensures var rest := ys[..j] + ys[j+1..];
      Distinct(rest) && Distinct(xs[..|xs|-1]) && ToSet(xs[..|xs|-1]) == ToSet(rest)
  {
    var n, rest := |xs| - 1, ys[..j] + ys[j+1..];
    forall u ensures u in ToSet(xs[..n]) <==> u in ToSet(rest) {
      if u in rest {
        assert u in ToSet(ys);
        assert u in xs;
      }
      if u in xs[..n] {
        assert u in ToSet(xs);
        assert u in ToSet(ys);
        assert u != xs[n];
      }
    }
  }

  lemma {:induction false} DistinctFits<T>(xs: seq<T>, s: set<T>)
    requires Distinct(xs) && forall x :: x in xs ==> x in s
    ensures |xs| <= |s|
  {
    if xs != [] {
      var n := |xs| - 1;
      assert xs[n] !in xs[..n];
      DistinctFits(xs[..n], s - {xs[n]});
    }
  }

  lemma DistinctParts<T>(xs: seq<T>, ys: seq<T>)
    requires Distinct(xs + ys)
    ensures Distinct(xs) && Distinct(ys)
    ensures forall x :: x in xs ==> x !in ys
  {
    var zs := xs + ys;
    assert forall i :: 0 <= i < |xs| ==> xs[i] == zs[i];
    assert forall i :: 0 <= i < |ys| ==> ys[i] == zs[|xs| + i];
  }

  lemma DistinctJoin<T>(xs: seq<T>, ys: seq<T>)
    requires Distinct(xs) && Distinct(ys) && forall x :: x in xs ==> x !in ys
    ensures Distinct(xs + ys)
  {
    var zs := xs + ys;
    forall i, j | 0 <= i < j < |zs| ensures zs[i] != zs[j] {
      if i < |xs| <= j { assert xs[i] in xs; }
    }
  }
}
