// Holm-Bonferroni correction: the cumulative-max adjusted values, the sequential
// step-down test they stand for, and a closed form that does not mention ranks.
module Holm {
  import opened Wrappers
  import opened Sequences
  import opened Sorting
  import opened OrderStatistics

  datatype Ranked = Ranked(at: nat, p: real)

  function PValue(): Ranked -> real {
    (x: Ranked) => x.p
  }

  function Same(): real -> real {
    (p: real) => p
  }

  function Enumerated(ps: seq<real>): seq<Ranked> {
    if ps == [] then [] else Enumerated(ps[..|ps|-1]) + [Ranked(|ps|-1, ps[|ps|-1])]
  }

  // sorted(enumerate(p_values), key=p): ties keep their input order.
  function ByPValue(ps: seq<real>): seq<Ranked> {
    SortBy(Enumerated(ps), PValue())
  }

  // p times the number k of remaining hypotheses.
  function Weight(p: real, k: nat): real {
    p * (k as real)
  }

  function Scaled(p: real, k: nat): real {
    Min(Weight(p, k), 1.0)
  }

  // Largest scaled value over the first ranks.
  function Cumulative(zs: seq<Ranked>, n: nat, count: nat): real
    requires count <= |zs| <= n
  {
    if count == 0 then 0.0 else Max(Cumulative(zs, n, count - 1), Scaled(zs[count-1].p, n - (count - 1)))
  }

  ghost predicate Probabilities(ps: seq<real>) {
    forall p :: p in ps ==> 0.0 <= p <= 1.0
  }

  // ---------------------------------------------------------------- ranks

  lemma {:induction false} EnumeratedAt(ps: seq<real>)
    ensures |Enumerated(ps)| == |ps| && forall i :: 0 <= i < |ps| ==> Enumerated(ps)[i] == Ranked(i, ps[i])
  {
    if ps != [] { EnumeratedAt(ps[..|ps|-1]); }
  }

  // The ranking lists every hypothesis once.
  ghost predicate Ranking(ps: seq<real>, zs: seq<Ranked>) {
    && |zs| == |ps| && SortedBy(zs, PValue())
    && (forall r :: 0 <= r < |zs| ==> zs[r].at < |ps| && zs[r].p == ps[zs[r].at])
    && (forall r, s :: 0 <= r < s < |zs| ==> zs[r].at != zs[s].at)
    && (forall i :: 0 <= i < |ps| ==> Ranked(i, ps[i]) in zs)
  }

  lemma RankingOf(ps: seq<real>)
    ensures Ranking(ps, ByPValue(ps))
  {
    var es, zs := Enumerated(ps), ByPValue(ps);
    EnumeratedAt(ps);
    SortKeeps(es, PValue());
    SortSorts(es, PValue());
    SortDistinct(es, PValue());
    hide *;
    EachRanked(ps, es, zs);
  }

  // A rearrangement of the numbered p-values is a ranking if it is sorted.
  lemma EachRanked(ps: seq<real>, es: seq<Ranked>, zs: seq<Ranked>)
    requires |es| == |zs| == |ps| && (forall i :: 0 <= i < |ps| ==> es[i] == Ranked(i, ps[i]))
    requires SortedBy(zs, PValue()) && Distinct(zs) && forall z :: z in zs <==> z in es
    ensures Ranking(ps, zs)
  {
    hide SortedBy;
    forall r | 0 <= r < |zs| ensures zs[r].at < |ps| && zs[r] == Ranked(zs[r].at, ps[zs[r].at]) {
      assert zs[r] in es;
    }
    forall i | 0 <= i < |ps| ensures Ranked(i, ps[i]) in zs { assert es[i] in es; }
  }

  lemma RankOf(ps: seq<real>, i: nat) returns (r: nat)
    requires i < |ps|
    ensures |ByPValue(ps)| == |ps| && r < |ps| && ByPValue(ps)[r] == Ranked(i, ps[i])
  {
    RankingOf(ps);
    r :| 0 <= r < |ByPValue(ps)| && ByPValue(ps)[r] == Ranked(i, ps[i]);
  }

  // ---------------------------------------------------------------- holm_bonferroni

  // The corrected value and verdict of hypothesis i.
  ghost predicate Corrected(ps: seq<real>, alpha: real, i: nat, adjusted: real, significant: bool) {
    && |ByPValue(ps)| == |ps|
    && exists r :: 0 <= r < |ps| && ByPValue(ps)[r].at == i
         && adjusted == Cumulative(ByPValue(ps), |ps|, r + 1) && significant == (adjusted < alpha)
  }

  // The entries of the first ranks are written.
  ghost predicate Filled(zs: seq<Ranked>, alpha: real, rank: nat, adjusted: seq<real>, significant: seq<bool>) {
    && rank <= |zs| == |adjusted| == |significant|
    && forall r :: 0 <= r < rank ==> EntryFilled(zs, alpha, r, adjusted, significant)
  }

  ghost predicate EntryFilled(zs: seq<Ranked>, alpha: real, r: nat, adjusted: seq<real>, significant: seq<bool>)
    requires r < |zs| == |adjusted| == |significant|
  {
    && zs[r].at < |zs|
    && adjusted[zs[r].at] == Cumulative(zs, |zs|, r + 1)
    && significant[zs[r].at] == (Cumulative(zs, |zs|, r + 1) < alpha)
  }

  lemma FillStep(ps: seq<real>, zs: seq<Ranked>, alpha: real, rank: nat, adjusted: seq<real>, significant: seq<bool>)
    requires Ranking(ps, zs) && rank < |zs| && Filled(zs, alpha, rank, adjusted, significant)
    ensures zs[rank].at < |zs|
    ensures var c := Cumulative(zs, |zs|, rank + 1);
      Filled(zs, alpha, rank + 1, adjusted[zs[rank].at := c], significant[zs[rank].at := c < alpha])
  {
    hide Cumulative;
    forall r | 0 <= r < rank ensures EntryFilled(zs, alpha, r, adjusted, significant) && zs[r].at != zs[rank].at {}
  }

  method HolmBonferroni(ps: seq<real>, alpha: real) returns (results: seq<(real, bool)>)
    ensures |results| == |ps|
    ensures forall i :: 0 <= i < |ps| ==> Corrected(ps, alpha, i, results[i].0, results[i].1)
  {
    hide ByPValue, Ranking;
    var n := |ps|;
    var indexed := ByPValue(ps);
    RankingOf(ps);
    RankingSize(ps);
    var adjusted := new real[n](_ => 0.0);
    var significant := new bool[n](_ => false);
    var cumulativeMax := 0.0;
    var rank := 0;
    while rank < n
      invariant 0 <= rank <= n && cumulativeMax == Cumulative(indexed, n, rank)
      invariant Filled(indexed, alpha, rank, adjusted[..], significant[..])
    {
      FillStep(ps, indexed, alpha, rank, adjusted[..], significant[..]);
      var at, p := indexed[rank].at, indexed[rank].p;
      var k := n - rank;
      cumulativeMax := Max(cumulativeMax, Min(Weight(p, k), 1.0));
      adjusted[at] := cumulativeMax;
      significant[at] := cumulativeMax < alpha;
      rank := rank + 1;
    }
    results := Zip(adjusted[..], significant[..]);
    forall i | 0 <= i < n ensures Corrected(ps, alpha, i, results[i].0, results[i].1) {
      var r := RankOf(ps, i);
      assert EntryFilled(indexed, alpha, r, adjusted[..], significant[..]);
    }
  }

  function Zip(xs: seq<real>, ys: seq<bool>): (zs: seq<(real, bool)>)
    requires |xs| == |ys|
    ensures |zs| == |xs| && forall i :: 0 <= i < |zs| ==> zs[i] == (xs[i], ys[i])
  {
    seq(|xs|, i requires 0 <= i < |xs| => (xs[i], ys[i]))
  }

  lemma RankingSize(ps: seq<real>)
    ensures |ByPValue(ps)| == |ps|
  {
    RankingOf(ps);
  }

  // ---------------------------------------------------------------- the sequential test

  // The step-down procedure rejects the hypotheses before the first rank whose p-value
  // times the number of remaining hypotheses reaches alpha.
  ghost predicate StepDownRejects(zs: seq<Ranked>, alpha: real, rank: nat)
    requires rank < |zs|
  {
    forall i :: 0 <= i <= rank ==> Weight(zs[i].p, |zs| - i) < alpha
  }

  lemma {:induction false} CumulativeBelow(zs: seq<Ranked>, n: nat, count: nat, alpha: real)
    requires count <= |zs| <= n && 1 <= count
    requires forall i :: 0 <= i < |zs| ==> zs[i].p >= 0.0
    ensures Cumulative(zs, n, count) < alpha <==> forall i :: 0 <= i < count ==> Scaled(zs[i].p, n - i) < alpha
    ensures Cumulative(zs, n, count) >= 0.0
    decreases count
  {
    ScaledNonNegative(zs[count-1].p, n - (count - 1));
    if count > 1 { CumulativeBelow(zs, n, count - 1, alpha); }
  }

  lemma ScaledNonNegative(p: real, k: nat)
    requires p >= 0.0
    ensures Scaled(p, k) >= 0.0
  {
    assert Weight(p, k) >= 0.0;
  }

  lemma MarkedAtRank(zs: seq<Ranked>, alpha: real, r: nat)
    requires r < |zs| && alpha <= 1.0 && forall i :: 0 <= i < |zs| ==> zs[i].p >= 0.0
    ensures Cumulative(zs, |zs|, r + 1) < alpha <==> StepDownRejects(zs, alpha, r)
  {
    hide Weight;
    CumulativeBelow(zs, |zs|, r + 1, alpha);
    if StepDownRejects(zs, alpha, r) {
      assert forall k :: 0 <= k < r + 1 ==> Scaled(zs[k].p, |zs| - k) < alpha;
    } else {
      var k :| 0 <= k <= r && !(Weight(zs[k].p, |zs| - k) < alpha);
      assert !(Scaled(zs[k].p, |zs| - k) < alpha);
    }
  }

  // Up to level one the marked hypotheses are exactly those the sequential test rejects.
  lemma MarksWhatStepDownRejects(ps: seq<real>, alpha: real, i: nat, adjusted: real, significant: bool)
    requires Probabilities(ps) && alpha <= 1.0 && i < |ps| && Corrected(ps, alpha, i, adjusted, significant)
    ensures exists r ::
      0 <= r < |ByPValue(ps)| && ByPValue(ps)[r].at == i && (significant <==> StepDownRejects(ByPValue(ps), alpha, r))
  {
    hide ByPValue, Cumulative, StepDownRejects;
    var zs := ByPValue(ps);
    RanksNonNegative(ps);
    var r :|
      0 <= r < |ps| && zs[r].at == i && adjusted == Cumulative(zs, |ps|, r + 1) && significant == (adjusted < alpha);
    MarkedAtRank(zs, alpha, r);
  }

  lemma RanksNonNegative(ps: seq<real>)
    requires Probabilities(ps)
    ensures forall k :: 0 <= k < |ByPValue(ps)| ==> 0.0 <= ByPValue(ps)[k].p <= 1.0
  {
    RankingOf(ps);
    forall k | 0 <= k < |ByPValue(ps)| ensures 0.0 <= ByPValue(ps)[k].p <= 1.0 {
      assert ps[ByPValue(ps)[k].at] in ps;
    }
  }

  // The cap breaks the correspondence above level one: everything is then marked.
  lemma CapMarksEverything(alpha: real) returns (ps: seq<real>)
    requires alpha > 1.0
    ensures Probabilities(ps) && |ps| >= 1 && |ByPValue(ps)| == |ps|
    ensures Cumulative(ByPValue(ps), |ps|, 1) < alpha && !StepDownRejects(ByPValue(ps), alpha, 0)
  {
    var n: nat := alpha.Floor + 1;
    ps := seq(n, _ => 1.0);
    RankingOf(ps);
    assert ByPValue(ps)[0].p == 1.0;
    assert Weight(1.0, n) >= alpha;
  }

  // ---------------------------------------------------------------- closed form

  // Hypotheses whose p-value is at least q.
  function AtLeast(ps: seq<real>, q: real): nat {
    CountLength(ps, Same(), q);
    |ps| - CountBelow(ps, Same(), q)
  }

  // a is the largest min(1, q * #{j : p_j >= q}) over the p-values q up to p.
  ghost predicate IsAdjusted(ps: seq<real>, p: real, a: real) {
    && (forall q :: q in ps && q <= p ==> Scaled(q, AtLeast(ps, q)) <= a)
    && (exists q :: q in ps && q <= p && Scaled(q, AtLeast(ps, q)) == a)
  }

  lemma AdjustedUnique(ps: seq<real>, p: real, a: real, b: real)
    requires IsAdjusted(ps, p, a) && IsAdjusted(ps, p, b)
    ensures a == b
  {}

  lemma {:induction false} CountEnumerated(ps: seq<real>, q: real)
    ensures CountBelow(Enumerated(ps), PValue(), q) == CountBelow(ps, Same(), q)
  {
    if ps != [] {
      CountEnumerated(ps[..|ps|-1], q);
      var es := Enumerated(ps[..|ps|-1]);
      assert Enumerated(ps)[..|es|] == es;
    }
  }

  lemma CountRanked(ps: seq<real>, q: real)
    ensures CountBelow(ByPValue(ps), PValue(), q) == CountBelow(ps, Same(), q)
  {
    CountEnumerated(ps, q);
    SortKeeps(Enumerated(ps), PValue());
    CountPermutation(Enumerated(ps), ByPValue(ps), PValue(), q);
  }

  lemma {:induction false} CountAllBelow(zs: seq<Ranked>, q: real)
    requires forall z :: z in zs ==> z.p < q
    ensures CountBelow(zs, PValue(), q) == |zs|
  {
    if zs != [] { CountAllBelow(zs[..|zs|-1], q); }
  }

  // At most r values are below the one at rank r; exactly r when it is the first of its ties.
  lemma BelowRank(zs: seq<Ranked>, r: nat)
    requires SortedBy(zs, PValue()) && r < |zs|
    ensures CountBelow(zs, PValue(), zs[r].p) <= r
    ensures (forall k :: 0 <= k < r ==> zs[k].p < zs[r].p) ==> CountBelow(zs, PValue(), zs[r].p) == r
  {
    var q := zs[r].p;
    assert zs == zs[..r] + zs[r..];
    CountConcat(zs[..r], zs[r..], PValue(), q);
    CountNone(zs[r..], PValue(), q);
    CountLength(zs[..r], PValue(), q);
    if forall k :: 0 <= k < r ==> zs[k].p < zs[r].p { CountAllBelow(zs[..r], q); }
  }

  // The first rank holding a given value.
  lemma FirstRank(ps: seq<real>, q: real, r: nat) returns (f: nat)
    requires q in ps && r < |ByPValue(ps)| && q <= ByPValue(ps)[r].p
    ensures |ByPValue(ps)| == |ps| && f <= r && ByPValue(ps)[f].p == q && AtLeast(ps, q) == |ps| - f
  {
    var zs := ByPValue(ps);
    RankingOf(ps);
    var i :| 0 <= i < |ps| && ps[i] == q;
    var k := RankOf(ps, i);
    f := FirstOfTies(zs, k);
    BelowRank(zs, f);
    CountRanked(ps, q);
  }

  // The first of the ties of the value at rank k.
  lemma {:induction false} FirstOfTies(zs: seq<Ranked>, k: nat) returns (f: nat)
    requires SortedBy(zs, PValue()) && k < |zs|
    ensures f <= k && zs[f].p == zs[k].p && forall j :: 0 <= j < f ==> zs[j].p < zs[k].p
    decreases k
  {
    if k == 0 {
      f := 0;
    } else if zs[k-1].p == zs[k].p {
      f := FirstOfTies(zs, k - 1);
    } else {
      f := k;
      assert PValue()(zs[k-1]) <= PValue()(zs[k]);
      forall j | 0 <= j < k ensures zs[j].p < zs[k].p {
        if j < k - 1 { assert PValue()(zs[j]) <= PValue()(zs[k-1]); }
      }
    }
  }

  lemma ScaledMonotone(p: real, k: nat, m: nat)
    requires p >= 0.0 && k <= m
    ensures Scaled(p, k) <= Scaled(p, m)
  {
    var gap := (m - k) as real;
    assert m as real == k as real + gap;
    assert p * (k as real + gap) == p * (k as real) + p * gap;
    assert p * gap >= 0.0;
  }

  // The largest scaled value is one of them.
  lemma {:induction false} CumulativeReached(zs: seq<Ranked>, n: nat, count: nat) returns (k: nat)
    requires 1 <= count <= |zs| <= n
    requires forall i :: 0 <= i < |zs| ==> zs[i].p >= 0.0
    ensures k < count && Cumulative(zs, n, count) == Scaled(zs[k].p, n - k)
    ensures forall i :: 0 <= i < count ==> Scaled(zs[i].p, n - i) <= Cumulative(zs, n, count)
    decreases count
  {
    ScaledNonNegative(zs[count-1].p, n - (count - 1));
    if count == 1 {
      k := 0;
    } else {
      k := CumulativeReached(zs, n, count - 1);
      if Cumulative(zs, n, count - 1) < Scaled(zs[count-1].p, n - (count - 1)) { k := count - 1; }
    }
  }

  lemma RankAtLeast(ps: seq<real>, k: nat)
    requires k < |ps|
    ensures |ByPValue(ps)| == |ps| && |ps| - k <= AtLeast(ps, ByPValue(ps)[k].p)
  {
    hide SortBy;
    RankingOf(ps);
    BelowRank(ByPValue(ps), k);
    CountRanked(ps, ByPValue(ps)[k].p);
  }

  lemma RankOrder(ps: seq<real>, k: nat, r: nat)
    requires k <= r < |ps|
    ensures |ByPValue(ps)| == |ps| && ByPValue(ps)[k].p in ps && ByPValue(ps)[k].p <= ByPValue(ps)[r].p
  {
    RankingOf(ps);
    var zs := ByPValue(ps);
    assert ps[zs[k].at] in ps;
    if k < r { assert PValue()(zs[k]) <= PValue()(zs[r]); }
  }

  // The cumulative maximum over the ranks up to r is the closed form of the value at r.
  lemma ClosedForm(ps: seq<real>, r: nat)
    requires Probabilities(ps) && r < |ps|
    ensures |ByPValue(ps)| == |ps| && IsAdjusted(ps, ByPValue(ps)[r].p, Cumulative(ByPValue(ps), |ps|, r + 1))
  {
    hide ByPValue, Scaled, Cumulative, AtLeast;
    RankOrder(ps, r, r);
    RanksNonNegative(ps);
    var zs, n := ByPValue(ps), |ps|;
    var a := Cumulative(zs, n, r + 1);
    var k := CumulativeReached(zs, n, r + 1);
    forall q | q in ps && q <= zs[r].p ensures Scaled(q, AtLeast(ps, q)) <= a {
      var f := FirstRank(ps, q, r);
      assert Scaled(zs[f].p, n - f) <= a;
    }
    RankOrder(ps, k, r);
    RankAtLeast(ps, k);
    ScaledMonotone(zs[k].p, n - k, AtLeast(ps, zs[k].p));
    assert Scaled(zs[k].p, AtLeast(ps, zs[k].p)) <= a;
  }

  lemma ScaledRange(p: real, k: nat)
    requires 0.0 <= p <= 1.0 && k >= 1
    ensures p <= Scaled(p, k) <= 1.0
  {
    ScaledMonotone(p, 1, k);
  }

  // Each corrected value is the closed form of its p-value, between it and one.
  lemma CorrectedValue(ps: seq<real>, alpha: real, i: nat, adjusted: real, significant: bool)
    requires Probabilities(ps) && i < |ps| && Corrected(ps, alpha, i, adjusted, significant)
    ensures IsAdjusted(ps, ps[i], adjusted) && ps[i] <= adjusted <= 1.0
  {
    hide ByPValue, Scaled, Cumulative, AtLeast, IsAdjusted;
    var zs := ByPValue(ps);
    var r :| 0 <= r < |ps| && zs[r].at == i && adjusted == Cumulative(zs, |ps|, r + 1);
    RankValue(ps, r);
    ClosedForm(ps, r);
    RanksNonNegative(ps);
    var k := CumulativeReached(zs, |ps|, r + 1);
    ScaledRange(zs[k].p, |ps| - k);
    ScaledRange(ps[i], |ps| - r);
  }

  // A p-value times a count of hypotheses, at most one.
  function Bonferroni(p: real, k: nat): real {
    if p * (k as real) < 1.0 then p * (k as real) else 1.0
  }

  lemma ScaledExactly(p: real, k: nat)
    ensures Scaled(p, k) == Bonferroni(p, k)
  {}

  // The closed form on numbers: the corrected value is the largest product, at most one, of a
  // p-value up to this one and the number of p-values not below that one.
  lemma CorrectedExactly(ps: seq<real>, alpha: real, i: nat, adjusted: real, significant: bool)
    requires Probabilities(ps) && i < |ps| && Corrected(ps, alpha, i, adjusted, significant)
    ensures forall q :: q in ps && q <= ps[i] ==> Bonferroni(q, AtLeast(ps, q)) <= adjusted
    ensures exists q :: q in ps && q <= ps[i] && Bonferroni(q, AtLeast(ps, q)) == adjusted
    ensures significant <==> adjusted < alpha
  {
    CorrectedValue(ps, alpha, i, adjusted, significant);
    hide Scaled, Bonferroni, AtLeast, Corrected;
    forall q ensures Scaled(q, AtLeast(ps, q)) == Bonferroni(q, AtLeast(ps, q)) { ScaledExactly(q, AtLeast(ps, q)); }
  }

  // The sequential test on numbers: each p-value up to the rank, times the hypotheses that
  // remain with it, stays below alpha.
  lemma StepDownExactly(zs: seq<Ranked>, alpha: real, rank: nat)
    requires rank < |zs|
    ensures StepDownRejects(zs, alpha, rank) <==> forall i :: 0 <= i <= rank ==> zs[i].p * ((|zs| - i) as real) < alpha
  {
    forall i | 0 <= i <= rank ensures Weight(zs[i].p, |zs| - i) == zs[i].p * ((|zs| - i) as real) {}
  }

  lemma RankValue(ps: seq<real>, r: nat)
    requires r < |ps|
    ensures |ByPValue(ps)| == |ps| && ByPValue(ps)[r].at < |ps| && ByPValue(ps)[r].p == ps[ByPValue(ps)[r].at]
  {
    RankingOf(ps);
  }

  // The correction commutes with every permutation of the p-values, ties included:
  // equal p-values of the two inputs get equal corrected values and verdicts.
  lemma PermutationEquivariant(ps: seq<real>, qs: seq<real>, alpha: real, i: nat, j: nat, a: (real, bool),
          b: (real, bool))
    requires multiset(ps) == multiset(qs) && Probabilities(ps) && i < |ps| && j < |qs| && ps[i] == qs[j]
    requires Corrected(ps, alpha, i, a.0, a.1) && Corrected(qs, alpha, j, b.0, b.1)
    ensures a == b
  {
    SameElements(ps, qs);
    CorrectedValue(ps, alpha, i, a.0, a.1);
    CorrectedValue(qs, alpha, j, b.0, b.1);
    forall q ensures AtLeast(ps, q) == AtLeast(qs, q) { CountPermutation(ps, qs, Same(), q); }
    AdjustedUnique(ps, ps[i], a.0, b.0);
  }
}
