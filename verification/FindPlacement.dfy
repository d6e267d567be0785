// find_placement: dynamic programming and redistribution on in-trees, the greedy
// pass on every other graph.
module FindPlacement {
  import opened Wrappers
  import opened Sequences
  import opened Graphs
  import opened PipelineDags
  import opened Topologies
  import opened Feasibility
  import opened Greedy
  import opened TreeOptimality
  import opened Redistribution

  // p is what the in-tree branch returns: an optimal assignment after redistribution.
  ghost predicate SpreadOptimum(pr: Problem, order: seq<StageId>, optimum: Placement, p: Placement)
    requires ValidProblem(pr)
  {
    && IsTopoOrder(pr.g, order) && Optimal(pr, optimum)
    && p == Spread(pr, Ledger(optimum, LoadsOf(pr, optimum), []), order).p
  }

  ghost predicate GreedyResult(pr: Problem, order: seq<StageId>, p: Placement)
    requires ValidProblem(pr)
  {
    IsTopoOrder(pr.g, order) && GreedyRun(pr, order, |order|, p)
  }

  // What find_placement answers. In-trees: an error exactly when no assignment meets the
  // stage and edge constraints, otherwise a redistributed optimum. Other graphs: the
  // greedy placement, or an error at a stage no node can take.
  ghost predicate Answers(pr: Problem, r: Result<Placement, ()>)
    requires ValidProblem(pr)
  {
    && (pr.g.ids == [] ==> r == Ok(map[]))
    && (InTree(pr.g) ==> (r.Error? <==> forall q :: !TreeFeasible(pr, q)))
    && (InTree(pr.g) && r.Ok? ==> exists order, optimum :: SpreadOptimum(pr, order, optimum, r.value))
    && (pr.g.ids != [] && !InTree(pr.g) && r.Ok? ==> exists order :: GreedyResult(pr, order, r.value))
    && (!InTree(pr.g) && r.Error? ==>
          exists order, k: nat, p :: IsTopoOrder(pr.g, order) && GreedyStuck(pr, order, k, p))
  }

  method Find(dag: PipelineDAG, t: Topology, gov: Governance, w: Weights) returns (r: Result<Placement, ()>)
    requires dag.Valid() && ValidTopology(t)
    ensures Answers(Problem(dag.View(), t, gov, w), r)
  {
    hide Agree, ValidTopology, TreeFeasible, Spread, GreedyRun, GreedyStuck, Acyclic, WellFormed, IsTopoOrder, Cost;
    var pr := Problem(dag.View(), t, gov, w);
    if |dag.ids| == 0 {
      EmptyIsNoTree(pr.g);
      return Ok(map[]);
    }
    var sorted := dag.TopologicalSort();
    var order := sorted.value;
    var tree := dag.IsTree();
    if !tree {
      var greedy := GreedyPlacement(pr, order);
      if greedy.Error? {
        return Error(());
      }
      assert GreedyResult(pr, order, greedy.value);
      return Ok(greedy.value);
    }
    var sinks := dag.Sinks();
    OnlySink(pr.g, sinks);
    var solved := SolveTree(pr, order, sinks);
    if solved.Error? {
      return Error(());
    }
    OptimalTotal(pr, solved.value);
    var st := Redistribute(pr, order, solved.value);
    assert SpreadOptimum(pr, order, solved.value, st.p);
    return Ok(st.p);
  }

  lemma EmptyIsNoTree(g: Graph)
    requires g.ids == []
    ensures !InTree(g)
  {}

  lemma OptimalTotal(pr: Problem, p: Placement)
    requires ValidProblem(pr) && Optimal(pr, p)
    ensures Total(pr, p) && TreeFeasible(pr, p)
  {}

  // ---------------------------------------------------------------- what the result is worth

  // General graphs: the checker accepts every result, provided that among parallel
  // edges the last one is the tightest.
  lemma GeneralResultFeasible(pr: Problem, order: seq<StageId>, p: Placement)
    requires ValidProblem(pr) && GreedyResult(pr, order, p) && IndexedTightest(pr.g)
    ensures Total(pr, p) && Feasible(pr, p)
  {
    GreedySound(pr, order, p);
  }

  ghost predicate NoFanIn(g: Graph) {
    forall v :: v in g.ids ==> |Preds(g.edges, v)| <= 1
  }

  // In-trees without fan-in: the result is optimal, and the checker accepts it
  // exactly when its own load overloads no node.
  lemma ChainResultOptimal(pr: Problem, order: seq<StageId>, optimum: Placement, p: Placement)
    requires ValidProblem(pr) && InTree(pr.g) && NoFanIn(pr.g) && SpreadOptimum(pr, order, optimum, p)
    ensures Optimal(pr, p)
    ensures Feasible(pr, p) <==> CapacityFeasible(pr, p)
  {
    forall v | v in order ensures |Preds(pr.g.edges, v)| <= 1 { assert v in ToSet(order); }
    ChainUntouched(pr, Ledger(optimum, LoadsOf(pr, optimum), []), order);
    TreeFeasibleIffCapacity(pr, p);
  }

  lemma SpreadTotal(pr: Problem, order: seq<StageId>, p: Placement)
    requires LedgerExact(pr, Spread(pr, Ledger(p, LoadsOf(pr, p), []), order))
    ensures Total(pr, Spread(pr, Ledger(p, LoadsOf(pr, p), []), order).p)
  {}
}
