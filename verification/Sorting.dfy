// Stable sorting by a real key, as the source's sort(key=...) does.
module Sorting {
  import opened Sequences

  ghost predicate SortedBy<T>(xs: seq<T>, key: T -> real) {
    forall i, j :: 0 <= i < j < |xs| ==> key(xs[i]) <= key(xs[j])
  }

  // Places x after every element whose key is not larger.
  function Insert<T>(ys: seq<T>, x: T, key: T -> real): seq<T> {
    if ys == [] then [x]
    else
      var n := |ys| - 1;
      if key(ys[n]) <= key(x) then ys + [x] else Insert(ys[..n], x, key) + [ys[n]]
  }

  function SortBy<T>(xs: seq<T>, key: T -> real): seq<T> {
    if xs == [] then [] else Insert(SortBy(xs[..|xs|-1], key), xs[|xs|-1], key)
  }

  lemma {:induction false} InsertKeeps<T>(ys: seq<T>, x: T, key: T -> real)
    ensures multiset(Insert(ys, x, key)) == multiset(ys) + multiset{x}
  {
    if ys != [] {
      var n := |ys| - 1;
      assert ys == ys[..n] + [ys[n]];
      if key(ys[n]) > key(x) { InsertKeeps(ys[..n], x, key); }
    }
  }

  lemma {:induction false} SortKeeps<T>(xs: seq<T>, key: T -> real)
    ensures multiset(SortBy(xs, key)) == multiset(xs)
    ensures |SortBy(xs, key)| == |xs|
  {
    SortKeepsElements(xs, key);
    SameLength(SortBy(xs, key), xs);
  }

  lemma {:induction false} SortKeepsElements<T>(xs: seq<T>, key: T -> real)
    ensures multiset(SortBy(xs, key)) == multiset(xs)
  {
    if xs != [] {
      hide Insert;
      var n := |xs| - 1;
      SortKeepsElements(xs[..n], key);
      InsertKeeps(SortBy(xs[..n], key), xs[n], key);
      LastElement(xs);
    }
  }

  lemma LastElement<T>(xs: seq<T>)
    requires xs != []
    ensures multiset(xs) == multiset(xs[..|xs|-1]) + multiset{xs[|xs|-1]}
  {
    assert xs == xs[..|xs|-1] + [xs[|xs|-1]];
  }

  lemma SameLength<T>(xs: seq<T>, ys: seq<T>)
    requires multiset(xs) == multiset(ys)
    ensures |xs| == |ys|
  {
    assert |multiset(xs)| == |xs| && |multiset(ys)| == |ys|;
  }

  lemma {:induction false} InsertSorted<T>(ys: seq<T>, x: T, key: T -> real)
    requires SortedBy(ys, key)
    ensures SortedBy(Insert(ys, x, key), key)
  {
    if ys != [] {
      var n := |ys| - 1;
      if key(ys[n]) > key(x) {
        InsertSorted(ys[..n], x, key);
        InsertBelow(ys[..n], x, ys[n], key);
      }
    }
  }

  // What bounds the elements and x bounds the elements with x inserted.
  lemma {:induction false} InsertBelow<T>(ys: seq<T>, x: T, top: T, key: T -> real)
    requires key(x) <= key(top) && forall y :: y in ys ==> key(y) <= key(top)
    ensures forall z :: z in Insert(ys, x, key) ==> key(z) <= key(top)
  {
    if ys != [] { InsertBelow(ys[..|ys|-1], x, top, key); }
  }

  lemma {:induction false} SortSorts<T>(xs: seq<T>, key: T -> real)
    ensures SortedBy(SortBy(xs, key), key)
  {
    if xs != [] {
      SortSorts(xs[..|xs|-1], key);
      InsertSorted(SortBy(xs[..|xs|-1], key), xs[|xs|-1], key);
    }
  }

  // The first element after sorting is the first one of least key.
  lemma {:induction false} InsertFirst<T>(ys: seq<T>, x: T, key: T -> real)
    requires SortedBy(ys, key)
    ensures Insert(ys, x, key) != []
    ensures Insert(ys, x, key)[0] == if ys != [] && key(ys[0]) <= key(x) then ys[0] else x
  {
    if ys != [] { InsertFirst(ys[..|ys|-1], x, key); }
  }

  ghost predicate FirstLeast<T>(xs: seq<T>, key: T -> real, i: nat) {
    && i < |xs|
    && (forall j :: 0 <= j < |xs| ==> key(xs[i]) <= key(xs[j]))
    && (forall j :: 0 <= j < i ==> key(xs[i]) < key(xs[j]))
  }

  lemma {:induction false} FirstSorted<T>(xs: seq<T>, key: T -> real) returns (i: nat)
    requires xs != []
    ensures FirstLeast(xs, key, i) && SortBy(xs, key) != [] && SortBy(xs, key)[0] == xs[i]
  {
    var n := |xs| - 1;
    SortSorts(xs[..n], key);
    InsertFirst(SortBy(xs[..n], key), xs[n], key);
    if n == 0 {
      i := 0;
    } else {
      var before := FirstSorted(xs[..n], key);
      i := if key(xs[before]) <= key(xs[n]) then before else n;
      assert forall j :: 0 <= j < n ==> xs[..n][j] == xs[j];
    }
  }

  lemma SameElements<T>(xs: seq<T>, ys: seq<T>)
    requires multiset(xs) == multiset(ys)
    ensures |xs| == |ys|
    ensures forall x :: x in xs <==> x in ys
  {
    assert |multiset(xs)| == |xs| && |multiset(ys)| == |ys|;
    forall x ensures x in xs <==> x in ys {
      assert x in xs <==> x in multiset(xs);
      assert x in ys <==> x in multiset(ys);
    }
  }

  lemma {:induction false} DistinctIsMultiset<T>(xs: seq<T>)
    ensures Distinct(xs) <==> forall x :: multiset(xs)[x] <= 1
  {
    if xs != [] {
      var n := |xs| - 1;
      DistinctIsMultiset(xs[..n]);
      assert xs == xs[..n] + [xs[n]];
      if Distinct(xs) {
        assert Distinct(xs[..n]) && xs[n] !in xs[..n];
        assert multiset(xs[..n])[xs[n]] == 0;
      } else {
        RepeatCounts(xs);
      }
    }
  }

  lemma RepeatCounts<T>(xs: seq<T>)
    requires !Distinct(xs)
    ensures exists x :: multiset(xs)[x] >= 2
  {
    var i, j :| 0 <= i < j < |xs| && xs[i] == xs[j];
    assert xs == xs[..i] + [xs[i]] + xs[i+1..j] + [xs[j]] + xs[j+1..];
    assert multiset(xs)[xs[i]] >= 2;
  }

  lemma SortDistinct<T>(xs: seq<T>, key: T -> real)
    requires Distinct(xs)
    ensures Distinct(SortBy(xs, key))
    ensures forall x :: x in SortBy(xs, key) <==> x in xs
  {
    SortKeeps(xs, key);
    SameElements(SortBy(xs, key), xs);
    DistinctIsMultiset(xs);
    DistinctIsMultiset(SortBy(xs, key));
  }
}
