// Pieces shared by the sample pipelines and networks.
module Samples {
  import opened Wrappers
  import opened Graphs
  import opened Topologies
  import opened Feasibility

  const FIRST: StageId := "1"
  const SECOND: StageId := "2"
  const THIRD: StageId := "3"
  const FOURTH: StageId := "4"

  const NODE_A: NodeId := "A"
  const NODE_B: NodeId := "B"

  lemma NamesDiffer()
    ensures FIRST != SECOND && FIRST != THIRD && FIRST != FOURTH
    ensures SECOND != THIRD && SECOND != FOURTH && THIRD != FOURTH
    ensures NODE_A != NODE_B
  {
    assert FIRST[0] != SECOND[0] && FIRST[0] != THIRD[0] && FIRST[0] != FOURTH[0];
    assert SECOND[0] != THIRD[0] && SECOND[0] != FOURTH[0] && THIRD[0] != FOURTH[0];
    assert NODE_A[0] != NODE_B[0];
  }

  function Plain(id: StageId): Stage {
    Stage(id, "", 1.0, None, None)
  }

  const FREE_OF_CHARGE := Weights(0.0, 0.0, 0.0)

  // A latency no bound refuses, and not positive.
  function Near(es: seq<Edge>): real {
    if es == [] then 0.0 else -Max(-Near(es[..|es|-1]), -es[|es|-1].bound)
  }

  lemma {:induction false} NearBounds(es: seq<Edge>)
    ensures Near(es) <= 0.0 && forall e :: e in es ==> Near(es) <= e.bound
  {
    if es != [] { NearBounds(es[..|es|-1]); }
  }

  // A latency every bound refuses.
  function Far(es: seq<Edge>): real {
    if es == [] then 1.0 else Max(Far(es[..|es|-1]), es[|es|-1].bound + 1.0)
  }

  lemma {:induction false} FarBounds(es: seq<Edge>)
    ensures forall e :: e in es ==> Far(es) > e.bound + TOLERANCE
  {
    if es != [] { FarBounds(es[..|es|-1]); }
  }
}
