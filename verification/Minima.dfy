// The first minimum of a sequence of costs: what every "if cost < best" loop of
// the source computes.
module Minima {
  import opened Wrappers

  // Cost of the chosen position; infinity when nothing is chosen.
  function Score(xs: seq<Ext>, best: Option<nat>): Ext
    requires best.Some? ==> best.value < |xs|
  {
    if best.Some? then xs[best.value] else Inf
  }

  // Position of the first smallest finite entry.
  function ArgMin(xs: seq<Ext>): (best: Option<nat>)
    ensures best.Some? ==> best.value < |xs| && xs[best.value].Fin?
  {
    if xs == [] then None
    else
      var n := |xs| - 1;
      var best := ArgMin(xs[..n]);
      if Less(xs[n], Score(xs[..n], best)) then Some(n) else best
  }

  lemma {:induction false} ArgMinLeast(xs: seq<Ext>)
    ensures ArgMin(xs).None? <==> forall i :: 0 <= i < |xs| ==> xs[i].Inf?
    ensures forall i :: 0 <= i < |xs| ==> AtMost(Score(xs, ArgMin(xs)), xs[i])
    ensures ArgMin(xs).Some? ==> forall i :: 0 <= i < ArgMin(xs).value ==> Less(xs[ArgMin(xs).value], xs[i])
  {
    if xs != [] { ArgMinLeast(xs[..|xs|-1]); }
  }

  lemma ArgMinStep(xs: seq<Ext>, k: nat)
    requires k < |xs|
    ensures ArgMin(xs[..k+1]) == if Less(xs[k], Score(xs[..k], ArgMin(xs[..k]))) then Some(k) else ArgMin(xs[..k])
    ensures xs[..|xs|] == xs
  {
    assert xs[..k+1][..k] == xs[..k];
  }
}
