// Concrete inputs on which the code does less than its documentation says.
module Counterexamples {
  import opened Wrappers
  import opened Sequences
  import opened Minima
  import opened Graphs
  import opened Topologies
  import opened Feasibility
  import opened Greedy
  import opened TreeOptimality
  import opened FindPlacement
  import opened Market
  import opened GreedyCompleteness
  import opened GreedyExactness
  import opened RedistributionExactness
  import opened MarketSovereignty
  import opened Samples

  // ---------------------------------------------------------------- shared pieces

  // Two nodes of one domain, 10 apart.
  function TwoNodes(capacity: real): Topology {
    Topology(
      [Unit(NODE_A, "", "flat", capacity, 0.0, None), Unit(NODE_B, "", "flat", capacity, 0.0, None)],
      map[(NODE_A, NODE_B) := 10.0])
  }

  lemma TwoEdges(e: Edge, f: Edge, x: StageId)
    ensures Preds([e, f], x) == (if e.target == x then [e.source] else []) + (if f.target == x then [f.source] else [])
    ensures Succs([e, f], x) == (if e.source == x then [e.target] else []) + (if f.source == x then [f.target] else [])
    ensures GetEdge([e, f], f.source, f.target) == Some(f)
  {
    var es: seq<Edge> := [];
    assert Preds(es, x) == [] && Succs(es, x) == [];
    assert [e, f][..1] == [e] && [e][..0] == es;
    assert Preds([e], x) == Preds(es, x) + if e.target == x then [e.source] else [];
    assert Succs([e], x) == Succs(es, x) + if e.source == x then [e.target] else [];
  }

  const LATENCY_ONLY := Weights(1.0, 0.0, 0.0)

  const NO_RULES := Governance({}, map[])

  lemma TwoNodesFacts(capacity: real)
    ensures var t := TwoNodes(capacity);
      && ValidTopology(t) && NodeIds(t) == [NODE_A, NODE_B]
      && GetNode(t, NODE_A) == t.nodes[0] && GetNode(t, NODE_B) == t.nodes[1]
      && Latency(t, NODE_A, NODE_B) == 10.0 && Latency(t, NODE_B, NODE_A) == 10.0
  {
    NamesDiffer();
    var t := TwoNodes(capacity);
    assert NodeIds(t) == [NODE_A, NODE_B];
    GetNodeAt(t, 0);
    GetNodeAt(t, 1);
  }

  // ---------------------------------------------------------------- the optimum of a chain may not fit

  function Chain(bounds: seq<real>): Graph {
    Graph([FIRST, SECOND], map[FIRST := Plain(FIRST), SECOND := Plain(SECOND)],
          seq(|bounds|, i requires 0 <= i < |bounds| => Edge(FIRST, SECOND, bounds[i])))
  }

  function ChainProblem(bounds: seq<real>): Problem {
    Problem(Chain(bounds), TwoNodes(1.0), NO_RULES, LATENCY_ONLY)
  }

  lemma ChainFacts(bounds: seq<real>)
    ensures ValidProblem(ChainProblem(bounds)) && FIRST != SECOND
  {
    TwoNodesFacts(1.0);
    assert FIRST[0] != SECOND[0];
    assert Chain(bounds).stages.Keys == {FIRST, SECOND} == ToSet(Chain(bounds).ids);
  }

  lemma ChainTree()
    ensures InTree(Chain([100.0])) && NoFanIn(Chain([100.0])) && Chain([100.0]).edges == [Edge(FIRST, SECOND, 100.0)]
  {
    var g := Chain([100.0]);
    var e := Edge(FIRST, SECOND, 100.0);
    assert FIRST[0] != SECOND[0];
    assert g.edges == [e] && g.edges[..0] == [];
    assert Succs(g.edges, FIRST) == [SECOND] && Succs(g.edges, SECOND) == [];
    assert Preds(g.edges, FIRST) == [] && Preds(g.edges, SECOND) == [FIRST];
    assert IsOnlySink(g, SECOND);
  }

  // Demand two unit stages put on a node.
  lemma ChainLoad(bounds: seq<real>, p: Placement, n: NodeId)
    requires FIRST in p && SECOND in p
    ensures NodeLoad(ChainProblem(bounds), p, n) ==
      (if p[FIRST] == n then 1.0 else 0.0) + (if p[SECOND] == n then 1.0 else 0.0)
  {
    var pr := ChainProblem(bounds);
    ChainFacts(bounds);
    var ids := pr.g.ids;
    assert ids[..1] == [FIRST] && ids[..1][..0] == [];
    assert Sum([FIRST], LoadOn(pr, p, n)) == LoadOn(pr, p, n)(FIRST);
  }

  lemma ChainCost(p: Placement)
    requires Total(ChainProblem([100.0]), p)
    ensures Cost(ChainProblem([100.0]), p) == if p[FIRST] == p[SECOND] then 0.0 else 10.0
  {
    var pr := ChainProblem([100.0]);
    ChainFacts([100.0]);
    ChainTree();
    TwoNodesFacts(1.0);
    var es := pr.g.edges;
    assert es[..0] == [];
    assert Sum(es, LatencyOf(pr, p)) == LatencyOf(pr, p)(es[0]);
    EndsPlaced(pr, p, es[0]);
  }

  // On a two-stage chain a feasible placement exists, and yet every optimum the dynamic
  // program may choose, and so every answer of find_placement, overloads its node.
  lemma ChainOptimumOverloads()
    ensures var pr := ChainProblem([100.0]);
      && ValidProblem(pr) && InTree(pr.g)
      && (exists q :: Total(pr, q) && Feasible(pr, q))
      && (forall order, optimum, p :: SpreadOptimum(pr, order, optimum, p) ==> Total(pr, p) && !Feasible(pr, p))
  {
    var pr := ChainProblem([100.0]);
    ChainFacts([100.0]);
    ChainTree();
    SplitIsFeasible();
    hide ValidTopology, WellFormed, InTree, SpreadOptimum, Feasible;
    forall order, optimum, p | SpreadOptimum(pr, order, optimum, p) ensures Total(pr, p) && !Feasible(pr, p) {
      ChainAnswerOverloads(order, optimum, p);
    }
  }

  lemma ChainAnswerOverloads(order: seq<StageId>, optimum: Placement, p: Placement)
    requires ValidProblem(ChainProblem([100.0])) && SpreadOptimum(ChainProblem([100.0]), order, optimum, p)
    ensures Total(ChainProblem([100.0]), p) && !Feasible(ChainProblem([100.0]), p)
  {
    ChainTree();
    hide ValidProblem, SpreadOptimum, Feasible, InTree, NoFanIn, CapacityFeasible, Optimal;
    ChainResultOptimal(ChainProblem([100.0]), order, optimum, p);
    OptimumIsColocated(p);
  }

  // Every stage fits every node alone, and no rule separates the nodes.
  lemma Unrestricted(bounds: seq<real>, p: Placement)
    requires FIRST in p && SECOND in p && p.Keys == {FIRST, SECOND} && p[FIRST] in {NODE_A, NODE_B}
    requires p[SECOND] in {NODE_A, NODE_B}
    ensures ValidProblem(ChainProblem(bounds)) && Total(ChainProblem(bounds), p)
    ensures forall s :: s in p ==>
      FitsAlone(StageOf(ChainProblem(bounds), s), GetNode(ChainProblem(bounds).t, p[s]), NO_RULES)
    ensures forall s :: s in p ==> GetNode(ChainProblem(bounds).t, p[s]).Residual() == 1.0
    ensures SovereigntyFeasible(ChainProblem(bounds), p) && SliceFeasible(ChainProblem(bounds), p)
    ensures TrustHolds(ChainProblem(bounds), p[FIRST], p[SECOND])
  {
    hide GetNode, NodeIds, ValidTopology, TwoNodes;
    ChainFacts(bounds);
    forall s | s in p ensures OnPlainNode(ChainProblem(bounds), p[s], 1.0) { NodeFacts(1.0, p[s]); }
  }

  ghost predicate OnPlainNode(pr: Problem, n: NodeId, capacity: real) {
    n in NodeIds(pr.t) && GetNode(pr.t, n) == Unit(n, "", "flat", capacity, 0.0, None)
  }

  lemma NodeFacts(capacity: real, n: NodeId)
    requires n in {NODE_A, NODE_B}
    ensures n in NodeIds(TwoNodes(capacity))
    ensures GetNode(TwoNodes(capacity), n) == Unit(n, "", "flat", capacity, 0.0, None)
  {
    TwoNodesFacts(capacity);
  }

  lemma SplitIsFeasible()
    ensures ValidProblem(ChainProblem([100.0]))
    ensures var q := map[FIRST := NODE_A, SECOND := NODE_B];
      Total(ChainProblem([100.0]), q) && Feasible(ChainProblem([100.0]), q)
  {
    var pr, q := ChainProblem([100.0]), map[FIRST := NODE_A, SECOND := NODE_B];
    Unrestricted([100.0], q);
    hide ValidTopology, WellFormed, SovereigntyFeasible, SliceFeasible, TrustHolds;
    hide NodeLoad, FitsAlone, GetNode, NodeIds, TwoNodes;
    SplitHolds(q);
  }

  lemma SplitHolds(q: Placement)
    requires ValidProblem(ChainProblem([100.0])) && Total(ChainProblem([100.0]), q)
    requires q == map[FIRST := NODE_A, SECOND := NODE_B]
    requires forall s :: s in q ==> GetNode(ChainProblem([100.0]).t, q[s]).Residual() == 1.0
    requires TrustHolds(ChainProblem([100.0]), q[FIRST], q[SECOND])
    ensures CapacityFeasible(ChainProblem([100.0]), q) && LatencyFeasible(ChainProblem([100.0]), q)
    ensures TrustFeasible(ChainProblem([100.0]), q)
  {
    hide ValidTopology, WellFormed, TrustHolds, NodeLoad, GetNode, NodeIds;
    ChainTree();
    TwoNodesFacts(1.0);
    NamesDiffer();
    assert FIRST[0] != SECOND[0];
    ChainLoad([100.0], q, NODE_A);
    ChainLoad([100.0], q, NODE_B);
  }

  lemma OptimumIsColocated(p: Placement)
    requires ValidProblem(ChainProblem([100.0])) && Optimal(ChainProblem([100.0]), p)
    ensures Total(ChainProblem([100.0]), p) && !CapacityFeasible(ChainProblem([100.0]), p)
  {
    var pr := ChainProblem([100.0]);
    hide ValidTopology, WellFormed, NodeLoad, FitsAlone, GetNode, IndexOf, Cost;
    ColocatedAllowed();
    TwoNodesFacts(1.0);
    assert FIRST in pr.g.stages && SECOND in pr.g.stages;
    ChainCost(p);
    ChainCost(map[FIRST := NODE_A, SECOND := NODE_A]);
    ChainLoad([100.0], p, p[FIRST]);
    OneUnit(p[FIRST]);
  }

  lemma OneUnit(n: NodeId)
    requires n in NodeIds(TwoNodes(1.0))
    ensures GetNode(TwoNodes(1.0), n).Residual() == 1.0
  {
    TwoNodesFacts(1.0);
  }

  lemma ColocatedAllowed()
    ensures ValidProblem(ChainProblem([100.0]))
    ensures TreeFeasible(ChainProblem([100.0]), map[FIRST := NODE_A, SECOND := NODE_A])
  {
    var q := map[FIRST := NODE_A, SECOND := NODE_A];
    Unrestricted([100.0], q);
    hide ValidTopology, WellFormed, FitsAlone, GetNode, IndexOf, TrustHolds, SovereigntyFeasible, SliceFeasible;
    ChainTree();
  }

  // ---------------------------------------------------------------- redistribution may break a latency bound

  // Two sources feed one sink within 5, on two large nodes 10 apart.
  function Funnel(): Graph {
    Graph([FIRST, SECOND, THIRD], map[FIRST := Plain(FIRST), SECOND := Plain(SECOND), THIRD := Plain(THIRD)],
          [Edge(FIRST, THIRD, 5.0), Edge(SECOND, THIRD, 5.0)])
  }

  // The funnel on a network whose idle third node is too far from the others.
  ghost function FunnelProblem(): Problem
    requires IsTopoOrder(Funnel(), Funnel().ids)
  {
    Network(Funnel(), Funnel().ids, Distant(Funnel()))
  }

  lemma FunnelTree()
    ensures WellFormed(Funnel()) && InTree(Funnel()) && !NoFanIn(Funnel())
  {
    NamesDiffer();
    var e, f := Edge(FIRST, THIRD, 5.0), Edge(SECOND, THIRD, 5.0);
    TwoEdges(e, f, FIRST);
    TwoEdges(e, f, SECOND);
    TwoEdges(e, f, THIRD);
    hide Succs, Preds;
    assert Funnel().stages.Keys == {FIRST, SECOND, THIRD} == ToSet(Funnel().ids);
    assert IsOnlySink(Funnel(), THIRD);
  }

  // Three stages listed in a topological order.
  lemma ThreeInOrder(g: Graph)
    requires g.ids == [FIRST, SECOND, THIRD]
    requires forall e :: e in g.edges ==> (e.source, e.target) in {(FIRST, SECOND), (FIRST, THIRD), (SECOND, THIRD)}
    ensures IsTopoOrder(g, g.ids)
  {
    NamesDiffer();
    IndexOfDistinct(g.ids, 0);
    IndexOfDistinct(g.ids, 1);
    IndexOfDistinct(g.ids, 2);
    hide IndexOf;
    assert FIRST in g.ids && SECOND in g.ids && THIRD in g.ids;
  }

  // A feasible optimum exists, and yet every answer of find_placement is infeasible:
  // the redistribution pass moved a source out of its latency bound.
  lemma RedistributionBreaksLatency(order: seq<StageId>, optimum: Placement, p: Placement)
    requires IsTopoOrder(Funnel(), Funnel().ids) && ValidProblem(FunnelProblem())
    requires SpreadOptimum(FunnelProblem(), order, optimum, p)
    ensures Total(FunnelProblem(), optimum) && Feasible(FunnelProblem(), optimum)
    ensures Assigns(FunnelProblem(), p) && !LatencyFeasible(FunnelProblem(), p)
  {
    FunnelTree();
    FarBounds(Funnel().edges);
    hide ValidProblem, WellFormed, InTree, NoFanIn, SpreadOptimum, IsTopoOrder, Network, Feasible, Far;
    FanInBreaks(Funnel(), Funnel().ids, Distant(Funnel()), order, optimum, p);
  }

  // Such answers exist.
  lemma FunnelHasAnswer() returns (optimum: Placement, p: Placement)
    ensures IsTopoOrder(Funnel(), Funnel().ids) && ValidProblem(FunnelProblem())
    ensures SpreadOptimum(FunnelProblem(), Funnel().ids, optimum, p)
  {
    FunnelTree();
    ThreeInOrder(Funnel());
    FarBounds(Funnel().edges);
    hide ValidProblem, WellFormed, InTree, SpreadOptimum, IsTopoOrder, Network, Far;
    optimum := OnSides(Funnel(), Funnel().ids);
    p := AnswerExists(Funnel(), Funnel().ids, Distant(Funnel()));
  }

  // ---------------------------------------------------------------- parallel edges hide a bound from the greedy pass

  // Two parallel edges: the index holds only the second one, whose bound is looser. With
  // every stage on a node of its own, the greedy result breaks the first one's bound.
  lemma ParallelEdgesMissed()
    ensures var g, tight := Chain([5.0, 100.0]), Edge(FIRST, SECOND, 5.0);
      && WellFormed(g) && IsTopoOrder(g, [FIRST, SECOND]) && tight in g.edges && ValidProblem(Spaced(g))
      && GreedyRun(Spaced(g), [FIRST, SECOND], 2, AtHome(g)) && Violates(Spaced(g), AtHome(g), TooSlow(tight))
  {
    var g, tight, loose := Chain([5.0, 100.0]), Edge(FIRST, SECOND, 5.0), Edge(FIRST, SECOND, 100.0);
    ChainFacts([5.0, 100.0]);
    assert g.edges == [tight, loose] && [tight, loose][0] == tight;
    TwoEdges(tight, loose, SECOND);
    IndexOfDistinct(g.ids, 0);
    IndexOfDistinct(g.ids, 1);
    hide ValidTopology, GetEdge, GreedyRun;
    LooseIndexMissed(g, g.ids, tight);
  }

  // ---------------------------------------------------------------- the greedy pass misses a feasible placement

  // One source feeds two stages.
  function FanOut(): Graph {
    Graph([FIRST, SECOND, THIRD], map[FIRST := Plain(FIRST), SECOND := Plain(SECOND), THIRD := Plain(THIRD)],
          [Edge(FIRST, SECOND, 5.0), Edge(FIRST, THIRD, 5.0)])
  }

  lemma FanOutFacts()
    ensures WellFormed(FanOut()) && !InTree(FanOut())
    ensures Preds(FanOut().edges, FIRST) == [] && Preds(FanOut().edges, SECOND) == [FIRST]
  {
    NamesDiffer();
    var e, f := Edge(FIRST, SECOND, 5.0), Edge(FIRST, THIRD, 5.0);
    TwoEdges(e, f, FIRST);
    TwoEdges(e, f, SECOND);
    hide Succs, Preds;
    assert |Succs(FanOut().edges, FIRST)| == 2 && FIRST in FanOut().ids;
    assert FanOut().stages.Keys == {FIRST, SECOND, THIRD} == ToSet(FanOut().ids);
  }

  lemma FirstHosted()
    ensures FanOut().ids[1] == SECOND && Hosted(FIRST, FanOut().ids[..1]) == map[FIRST := REMOTE]
  {
    assert FanOut().ids[..1] == [FIRST];
  }

  // The source goes to the first node, which is too far from the only node of its
  // successor: the pass gives up, although every stage fits on a node of its own.
  lemma GreedyMissesFeasible()
    ensures !InTree(FanOut())
    ensures Missed(FanOut(), FanOut().ids, Strayed(FanOut(), FIRST), 1, map[FIRST := REMOTE], OwnPlaces(FanOut()))
  {
    FanOutFacts();
    ThreeInOrder(FanOut());
    FirstHosted();
    hide WellFormed, InTree, IsTopoOrder, Missed, Strayed, Preds, Hosted, OwnPlaces;
    StrayedMissed(FanOut(), FanOut().ids, 1, FIRST);
  }

  // ---------------------------------------------------------------- the market sends a stage away from its domain

  // Ten at home, one away, and two for the way.
  function CheapAbroad(): Exchange {
    Exchange(Problem(Graph([], map[], []), Topology([], map[]), NO_RULES, LATENCY_ONLY), ["home", "away"],
             map["home" := map["sense" := 10.0], "away" := map["sense" := 1.0]], 2.0, "home", false)
  }

  // A stage that declares the local domain, a single worker, away: the market answers with
  // it, and the checker reports the violation.
  lemma MarketLeavesDomain()
    ensures var ex, p := OneWorker(CheapAbroad(), "sense", "home", "away"), map[STAGE := WORKER];
      && ListsPrices(ex) && ValidProblem(ex.pr) && Assigns(ex.pr, p)
      && MarketSovereignty.Answers(ex, None, p) && Violates(ex.pr, p, OutsideDomain(STAGE))
  {
    AwayChosen();
    OneWorkerValid(CheapAbroad(), "sense", "home", "away");
    OneWorkerAnswers(CheapAbroad(), "sense", "home", "away");
    BothPriced();
    hide ValidProblem, CheapAbroad, OneWorker, Choose, MarketSovereignty.Answers, ListsPrices, Violates;
    OutsideHome(OneWorker(CheapAbroad(), "sense", "home", "away").pr);
  }

  lemma OutsideHome(pr: Problem)
    requires pr == OneWorker(CheapAbroad(), "sense", "home", "away").pr && ValidProblem(pr)
    requires NodeIds(pr.t) == [WORKER] && GetNode(pr.t, WORKER) == pr.t.nodes[0]
    ensures var p := map[STAGE := WORKER]; Assigns(pr, p) && Violates(pr, p, OutsideDomain(STAGE))
  {
    hide ValidProblem, NodeIds, GetNode;
    assert "home"[0] != "away"[0];
  }

  lemma BothPriced()
    ensures ListsPrices(OneWorker(CheapAbroad(), "sense", "home", "away")) && "home" != "away"
  {
    assert "home"[0] != "away"[0];
    assert ToSet(["home", "away"]) == {"home", "away"};
  }

  lemma AwayChosen()
    ensures Choose(CheapAbroad(), "sense").domain == "away"
  {
    var scores := RemoteScores(CheapAbroad(), "sense");
    assert "home"[0] != "away"[0];
    assert scores[0] == Inf && scores[1] == Fin(1.0);
    ArgMinLeast(scores);
  }
}
