// When find_placement keeps its promise on in-trees: conditions on the pipeline and the
// nodes that a caller can check before asking.
module Acceptance {
  import opened Sequences
  import opened Graphs
  import opened Topologies
  import opened Feasibility
  import opened TreeOptimality
  import opened Redistribution
  import opened FindPlacement
  import opened Samples

  // ---------------------------------------------------------------- hops that are never refused

  predicate Fits(pr: Problem, s: StageId, n: NodeId) {
    s in pr.g.stages && n in NodeIds(pr.t) && FitsAlone(pr.g.stages[s], GetNode(pr.t, n), pr.gov)
  }

  ghost predicate HopFree(pr: Problem, e: Edge, a: NodeId, b: NodeId)
    requires ValidProblem(pr) && a in NodeIds(pr.t) && b in NodeIds(pr.t)
  {
    LatencyHolds(pr, e.bound, a, b) && TrustHolds(pr, a, b)
  }

  // No pair of nodes that fit the two ends refuses the hop.
  ghost predicate EdgeFree(pr: Problem, e: Edge)
    requires ValidProblem(pr)
  {
    forall a, b :: Fits(pr, e.source, a) && Fits(pr, e.target, b) ==> HopFree(pr, e, a, b)
  }

  ghost predicate FreeNetwork(pr: Problem)
    requires ValidProblem(pr)
  {
    forall e :: e in pr.g.edges ==> EdgeFree(pr, e)
  }

  // A stage that redistribution may move.
  ghost predicate Sibling(g: Graph, s: StageId) {
    exists v :: v in g.ids && s in Preds(g.edges, v) && |Preds(g.edges, v)| >= 2
  }

  // The edges at such stages are free.
  ghost predicate FreeAroundFanIns(pr: Problem)
    requires ValidProblem(pr)
  {
    forall e :: e in pr.g.edges && (Sibling(pr.g, e.source) || Sibling(pr.g, e.target)) ==> EdgeFree(pr, e)
  }

  lemma FreeHop(pr: Problem, p: Placement, e: Edge)
    requires ValidProblem(pr) && Total(pr, p) && StagesFit(pr, p) && e in pr.g.edges && EdgeFree(pr, e)
    ensures EdgeAllowed(pr, p, e)
  {
    hide ValidTopology, FitsAlone;
    EndsPlaced(pr, p, e);
    assert Fits(pr, e.source, p[e.source]) && Fits(pr, e.target, p[e.target]);
    assert HopFree(pr, e, p[e.source], p[e.target]);
  }

  // ---------------------------------------------------------------- only siblings move

  lemma {:induction false} MoveAllOthers(pr: Problem, st: Ledger, cs: seq<StageId>, s: StageId)
    requires s !in cs && s in st.p
    ensures s in MoveAll(pr, st, cs).p && MoveAll(pr, st, cs).p[s] == st.p[s]
  {
    if cs != [] {
      hide BestAlternative;
      MoveAllOthers(pr, st, cs[..|cs|-1], s);
    }
  }

  lemma PlanIsSiblings(pr: Problem, p: Placement, v: StageId, s: StageId)
    requires v in pr.g.ids && s in Plan(pr, p, v)
    ensures Sibling(pr.g, s)
  {
    var preds := Preds(pr.g.edges, v);
    MovableOfListed(pr, preds, p, HostNodes(preds, p), s);
  }

  lemma {:induction false} MovableOfListed(pr: Problem, preds: seq<StageId>, p: Placement, hosts: seq<NodeId>,
          s: StageId)
    requires s in MovableOf(pr, preds, p, hosts)
    ensures s in preds
  {
    var n := |hosts| - 1;
    MovableKnown(pr, preds, p, hosts[n]);
    if s !in Movable(pr, preds, p, hosts[n]) { MovableOfListed(pr, preds, p, hosts[..n], s); }
  }

  lemma {:induction false} OthersStay(pr: Problem, st: Ledger, order: seq<StageId>, s: StageId)
    requires (forall v :: v in order ==> v in pr.g.ids) && s in st.p && !Sibling(pr.g, s)
    ensures s in Spread(pr, st, order).p && Spread(pr, st, order).p[s] == st.p[s]
  {
    if order != [] {
      hide Plan, MoveAll, Sibling;
      var n := |order| - 1;
      var before := Spread(pr, st, order[..n]);
      OthersStay(pr, st, order[..n], s);
      if s in Plan(pr, before.p, order[n]) { PlanIsSiblings(pr, before.p, order[n], s); }
      MoveAllOthers(pr, before, Plan(pr, before.p, order[n]), s);
    }
  }

  // ---------------------------------------------------------------- what redistribution keeps

  // Any in-tree: the result places every stage on a node that admits it and adds no
  // overload to the optimum's; where no hop at a fan-in's siblings is refused it still
  // meets the constraints of the dynamic program.
  lemma TreeResultSafe(pr: Problem, order: seq<StageId>, optimum: Placement, p: Placement)
    requires ValidProblem(pr) && NonNegativeDemands(pr) && InTree(pr.g) && SpreadOptimum(pr, order, optimum, p)
    ensures Total(pr, p) && StagesFit(pr, p) && NoNewOverload(pr, optimum, p)
    ensures FreeAroundFanIns(pr) ==> TreeFeasible(pr, p)
  {
    hide Spread, NoNewOverload, LedgerExact, ValidTopology, FreeAroundFanIns, EdgeAllowed;
    var s :| IsOnlySink(pr.g, s);
    RedistributionSafe(pr, order, optimum, s);
    SpreadTotal(pr, order, optimum);
    if FreeAroundFanIns(pr) {
      forall e | e in pr.g.edges ensures EdgeAllowed(pr, p, e) { HopKept(pr, order, optimum, p, e); }
    }
  }

  lemma HopKept(pr: Problem, order: seq<StageId>, optimum: Placement, p: Placement, e: Edge)
    requires ValidProblem(pr) && SpreadOptimum(pr, order, optimum, p) && Total(pr, p) && StagesFit(pr, p)
    requires e in pr.g.edges && FreeAroundFanIns(pr)
    ensures EdgeAllowed(pr, p, e)
  {
    hide ValidTopology, Sibling, EdgeFree, Spread, LoadsOf, Cost, FitsAlone;
    if Sibling(pr.g, e.source) || Sibling(pr.g, e.target) {
      FreeHop(pr, p, e);
    } else {
      EndsPlaced(pr, optimum, e);
      forall v | v in order ensures v in pr.g.ids { assert v in ToSet(order); }
      OthersStay(pr, Ledger(optimum, LoadsOf(pr, optimum), []), order, e.source);
      OthersStay(pr, Ledger(optimum, LoadsOf(pr, optimum), []), order, e.target);
      assert EdgeAllowed(pr, optimum, e);
    }
  }

  // ---------------------------------------------------------------- room

  // Demand of the stages that fit node n alone.
  function FittingOn(pr: Problem, n: NodeId): StageId -> real {
    (s: StageId) => if Fits(pr, s, n) then pr.g.stages[s].demand else 0.0
  }

  // Every node can take, together, all the stages that fit it alone.
  ghost predicate RoomForAll(pr: Problem) {
    forall n :: n in NodeIds(pr.t) && (exists s :: Fits(pr, s, n)) ==>
      Sum(pr.g.ids, FittingOn(pr, n)) <= GetNode(pr.t, n).Residual() + TOLERANCE
  }

  lemma RoomSuffices(pr: Problem, p: Placement)
    requires ValidProblem(pr) && NonNegativeDemands(pr) && TreeFeasible(pr, p) && RoomForAll(pr)
    ensures CapacityFeasible(pr, p)
  {
    hide ValidTopology, FitsAlone, EdgeAllowed;
    forall u | u in p ensures NodeLoad(pr, p, p[u]) <= GetNode(pr.t, p[u]).Residual() + TOLERANCE {
      var n := p[u];
      assert Fits(pr, u, n);
      forall s | s in pr.g.ids ensures LoadOn(pr, p, n)(s) <= FittingOn(pr, n)(s) {
        assert s in ToSet(pr.g.ids);
        if s in p && p[s] == n { assert Fits(pr, s, n); }
      }
      SumMonotone(pr.g.ids, LoadOn(pr, p, n), FittingOn(pr, n));
    }
  }

  // q with every stage that fits n moved to n.
  function Gathered(pr: Problem, q: Placement, n: NodeId): Placement {
    map s | s in q :: if Fits(pr, s, n) then n else q[s]
  }

  lemma GatheredTotal(pr: Problem, q: Placement, n: NodeId)
    requires Total(pr, q) && n in NodeIds(pr.t)
    ensures Total(pr, Gathered(pr, q, n))
  {
    hide Fits;
  }

  lemma GatheredStage(pr: Problem, q: Placement, n: NodeId, s: StageId)
    requires Total(pr, q) && n in NodeIds(pr.t) && s in q && FitsAlone(StageOf(pr, s), GetNode(pr.t, q[s]), pr.gov)
    ensures Total(pr, Gathered(pr, q, n)) && FitsAlone(StageOf(pr, s), GetNode(pr.t, Gathered(pr, q, n)[s]), pr.gov)
  {
    GatheredTotal(pr, q, n);
    hide FitsAlone, GetNode, NodeIds;
  }

  lemma GatheredFeasible(pr: Problem, q: Placement, n: NodeId)
    requires ValidProblem(pr) && TreeFeasible(pr, q) && FreeNetwork(pr) && n in NodeIds(pr.t)
    ensures TreeFeasible(pr, Gathered(pr, q, n))
  {
    GatheredTotal(pr, q, n);
    var p := Gathered(pr, q, n);
    hide ValidProblem, FitsAlone, EdgeAllowed, Gathered, EdgeFree, GetNode, NodeIds;
    forall s | s in p ensures FitsAlone(StageOf(pr, s), GetNode(pr.t, p[s]), pr.gov) { GatheredStage(pr, q, n, s); }
    forall e | e in pr.g.edges ensures EdgeAllowed(pr, p, e) { FreeHop(pr, p, e); }
  }

  lemma GatheredOverloads(pr: Problem, q: Placement, n: NodeId)
    requires ValidProblem(pr) && NonNegativeDemands(pr) && Total(pr, q) && n in NodeIds(pr.t)
    requires (exists s :: Fits(pr, s, n)) && Sum(pr.g.ids, FittingOn(pr, n)) > GetNode(pr.t, n).Residual() + TOLERANCE
    ensures Assigns(pr, Gathered(pr, q, n)) && !CapacityFeasible(pr, Gathered(pr, q, n))
  {
    GatheredTotal(pr, q, n);
    hide ValidTopology, FitsAlone, GetNode, NodeIds;
    var p := Gathered(pr, q, n);
    forall s | s in pr.g.ids ensures FittingOn(pr, n)(s) <= LoadOn(pr, p, n)(s) { GatheredLoad(pr, q, n, s); }
    SumMonotone(pr.g.ids, FittingOn(pr, n), LoadOn(pr, p, n));
    var s :| Fits(pr, s, n);
    assert s in p && p[s] == n;
  }

  lemma GatheredLoad(pr: Problem, q: Placement, n: NodeId, s: StageId)
    requires WellFormed(pr.g) && NonNegativeDemands(pr) && Total(pr, q) && s in pr.g.ids
    ensures FittingOn(pr, n)(s) <= LoadOn(pr, Gathered(pr, q, n), n)(s)
  {
    hide FitsAlone, GetNode, NodeIds;
    assert s in ToSet(pr.g.ids);
  }

  lemma FeasibleTotal(pr: Problem, p: Placement)
    requires ValidProblem(pr) && TreeFeasible(pr, p)
    ensures Total(pr, p)
  {}

  lemma NoRoom(pr: Problem) returns (n: NodeId)
    requires !RoomForAll(pr)
    ensures n in NodeIds(pr.t) && (exists s :: Fits(pr, s, n))
    ensures Sum(pr.g.ids, FittingOn(pr, n)) > GetNode(pr.t, n).Residual() + TOLERANCE
  {
    n :| n in NodeIds(pr.t) && (exists s :: Fits(pr, s, n)) &&
         Sum(pr.g.ids, FittingOn(pr, n)) > GetNode(pr.t, n).Residual() + TOLERANCE;
  }

  // Without room on some node, an assignment overloads it.
  lemma Overloading(pr: Problem) returns (p: Placement)
    requires ValidProblem(pr) && NonNegativeDemands(pr) && FreeNetwork(pr) && !RoomForAll(pr)
    requires exists q :: TreeFeasible(pr, q)
    ensures TreeFeasible(pr, p) && Assigns(pr, p) && !CapacityFeasible(pr, p)
  {
    hide ValidProblem, TreeFeasible, FreeNetwork, RoomForAll, Fits, CapacityFeasible, GetNode, NodeIds;
    var n := NoRoom(pr);
    var q :| TreeFeasible(pr, q);
    FeasibleTotal(pr, q);
    GatheredFeasible(pr, q, n);
    GatheredOverloads(pr, q, n);
    p := Gathered(pr, q, n);
  }

  // On a network that refuses no hop, every assignment meeting the constraints passes the
  // checker exactly when every node has room for all its fitting stages.
  lemma AssignmentsAccepted(pr: Problem)
    requires ValidProblem(pr) && NonNegativeDemands(pr) && InTree(pr.g) && FreeNetwork(pr)
    requires exists q :: TreeFeasible(pr, q)
    ensures (forall p :: TreeFeasible(pr, p) ==> Feasible(pr, p)) <==> RoomForAll(pr)
  {
    hide ValidProblem, TreeFeasible, FreeNetwork, RoomForAll, CapacityFeasible, Feasible;
    forall p | TreeFeasible(pr, p) ensures Assigns(pr, p) && (Feasible(pr, p) <==> CapacityFeasible(pr, p)) {
      FeasibleTotal(pr, p);
      TreeFeasibleIffCapacity(pr, p);
    }
    if RoomForAll(pr) {
      forall p | TreeFeasible(pr, p) ensures CapacityFeasible(pr, p) { RoomSuffices(pr, p); }
    } else {
      var p := Overloading(pr);
    }
  }

  // ---------------------------------------------------------------- answers

  // On any in-tree find_placement's answer passes the checker, redistribution included.
  lemma TreeResultAccepted(pr: Problem, order: seq<StageId>, optimum: Placement, p: Placement)
    requires ValidProblem(pr) && NonNegativeDemands(pr) && InTree(pr.g) && SpreadOptimum(pr, order, optimum, p)
    requires FreeAroundFanIns(pr) && RoomForAll(pr)
    ensures Total(pr, p) && Feasible(pr, p)
  {
    hide ValidProblem, TreeFeasible, FreeAroundFanIns, RoomForAll, SpreadOptimum, Total, StagesFit, NoNewOverload;
    hide Feasible, CapacityFeasible;
    TreeResultSafe(pr, order, optimum, p);
    RoomSuffices(pr, p);
    TreeFeasibleIffCapacity(pr, p);
  }

  // Without fan-in the room alone is enough, whatever the network refuses.
  lemma ChainResultAccepted(pr: Problem, order: seq<StageId>, optimum: Placement, p: Placement)
    requires ValidProblem(pr) && NonNegativeDemands(pr) && InTree(pr.g) && NoFanIn(pr.g)
    requires SpreadOptimum(pr, order, optimum, p)
    requires RoomForAll(pr)
    ensures Total(pr, p) && Feasible(pr, p)
  {
    hide ValidProblem, Cost, NoFanIn, RoomForAll, SpreadOptimum, Total, Feasible, CapacityFeasible;
    ChainResultOptimal(pr, order, optimum, p);
    OptimalTotal(pr, p);
    RoomSuffices(pr, p);
  }

  // Every answer of find_placement to the pipeline, whatever the weights and the order,
  // passes the checker.
  ghost predicate AnswersAccepted(pr: Problem)
    requires ValidProblem(pr)
  {
    forall w, order, optimum, p :: SpreadOptimum(pr.(w := w), order, optimum, p) ==>
      Assigns(pr.(w := w), p) && Feasible(pr.(w := w), p)
  }

  // Weights change neither the constraints nor the room.
  lemma SameButWeights(pr: Problem, w: Weights)
    requires ValidProblem(pr)
    ensures ValidProblem(pr.(w := w)) && (RoomForAll(pr.(w := w)) <==> RoomForAll(pr))
  {
    var other := pr.(w := w);
    forall s, n ensures Fits(other, s, n) <==> Fits(pr, s, n) {}
    forall n ensures Sum(pr.g.ids, FittingOn(other, n)) == Sum(pr.g.ids, FittingOn(pr, n)) {
      SumCong(pr.g.ids, FittingOn(other, n), FittingOn(pr, n));
    }
  }

  lemma SameAssignment(pr: Problem, w: Weights, p: Placement)
    requires ValidProblem(pr)
    ensures TreeFeasible(pr.(w := w), p) <==> TreeFeasible(pr, p)
  {
    var other := pr.(w := w);
    hide ValidTopology, WellFormed, FitsAlone, EdgeAllowed, GetNode, NodeIds;
    if Total(pr, p) {
      forall e | e in pr.g.edges ensures EdgeAllowed(other, p, e) <==> EdgeAllowed(pr, p, e) { SameHop(pr, w, p, e); }
    }
  }

  lemma SameHop(pr: Problem, w: Weights, p: Placement, e: Edge)
    requires ValidProblem(pr) && Assigns(pr, p)
    ensures Assigns(pr.(w := w), p) && (EdgeAllowed(pr.(w := w), p, e) <==> EdgeAllowed(pr, p, e))
  {
    hide ValidTopology, WellFormed;
  }

  // Without weights every assignment is optimal, and without fan-in it is an answer.
  lemma FreeAnswer(pr: Problem, order: seq<StageId>, p: Placement)
    requires ValidProblem(pr) && NoFanIn(pr.g) && IsTopoOrder(pr.g, order) && TreeFeasible(pr, p)
    ensures SpreadOptimum(pr.(w := FREE_OF_CHARGE), order, p, p)
  {
    var free := pr.(w := FREE_OF_CHARGE);
    hide ValidTopology, FitsAlone, TreeFeasible, LoadsOf, Spread;
    SameAssignment(pr, FREE_OF_CHARGE, p);
    assert forall q :: Cost(free, q) == 0.0;
    forall v | v in order ensures |Preds(free.g.edges, v)| <= 1 { assert v in ToSet(order); }
    ChainUntouched(free, Ledger(p, LoadsOf(free, p), []), order);
  }

  // On in-trees without fan-in over a network that refuses no hop, find_placement keeps
  // its promise, whatever the weights, exactly when every node has room for all the
  // stages that fit it.
  lemma AnswersAcceptedExactly(pr: Problem, order: seq<StageId>)
    requires ValidProblem(pr) && NonNegativeDemands(pr) && InTree(pr.g) && NoFanIn(pr.g) && FreeNetwork(pr)
    requires IsTopoOrder(pr.g, order) && exists q :: TreeFeasible(pr, q)
    ensures AnswersAccepted(pr) <==> RoomForAll(pr)
  {
    hide ValidTopology, WellFormed, TreeFeasible, FreeNetwork, RoomForAll, CapacityFeasible, SpreadOptimum, NoFanIn;
    if RoomForAll(pr) {
      forall w, other, optimum, p | SpreadOptimum(pr.(w := w), other, optimum, p)
        ensures Assigns(pr.(w := w), p) && Feasible(pr.(w := w), p)
      {
        SameButWeights(pr, w);
        ChainResultAccepted(pr.(w := w), other, optimum, p);
      }
    } else {
      var p := Overloading(pr);
      FreeAnswer(pr, order, p);
      OverloadSeen(pr, p);
    }
  }

  lemma OverloadSeen(pr: Problem, p: Placement)
    requires ValidProblem(pr) && Assigns(pr, p) && !CapacityFeasible(pr, p)
    ensures var free := pr.(w := FREE_OF_CHARGE); ValidProblem(free) && Assigns(free, p) && !Feasible(free, p)
  {
    var free := pr.(w := FREE_OF_CHARGE);
    forall n ensures NodeLoad(free, p, n) == NodeLoad(pr, p, n) {
      SumCong(pr.g.ids, LoadOn(free, p, n), LoadOn(pr, p, n));
    }
  }
}
