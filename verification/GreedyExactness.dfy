// When the checker accepts every greedy result: the exact condition on the edge list.
module GreedyExactness {
  import opened Wrappers
  import opened Minima
  import opened Sequences
  import opened Graphs
  import opened Topologies
  import opened Feasibility
  import opened Greedy
  import opened Samples

  // ---------------------------------------------------------------- one node for each stage

  // Demands nothing and may only run in the domain that bears its name.
  function OwnStage(s: StageId): Stage {
    Stage(s, "", 0.0, None, Some(s))
  }

  function OwnNode(s: StageId): Unit {
    Unit(s, s, "flat", 0.0, 0.0, None)
  }

  function OwnNodes(ids: seq<StageId>): seq<Unit> {
    seq(|ids|, i requires 0 <= i < |ids| => OwnNode(ids[i]))
  }

  // Two ends are as far apart as the indexed edge between them tolerates.
  function Gap(es: seq<Edge>, u: StageId, v: StageId): real {
    var e, f := GetEdge(es, u, v), GetEdge(es, v, u);
    if e.Some? then e.value.bound + TOLERANCE else if f.Some? then f.value.bound + TOLERANCE else 0.0
  }

  // The pipeline g on a network with a domain and a node for each stage, all trusting each other.
  function Spaced(g: Graph): Problem {
    Problem(Graph(g.ids, map s | s in g.ids :: OwnStage(s), g.edges),
            Topology(OwnNodes(g.ids), map u, v | u in g.ids && v in g.ids :: (u, v) := Gap(g.edges, u, v)),
            Governance({}, map u, v | u in g.ids && v in g.ids :: (u, v) := 1.0),
            FREE_OF_CHARGE)
  }

  // Every stage on its own node.
  function AtHome(g: Graph): Placement {
    map s | s in g.ids :: s
  }

  lemma NoReturn(g: Graph, order: seq<StageId>, u: StageId, v: StageId)
    requires IsTopoOrder(g, order) && GetEdge(g.edges, u, v).Some?
    ensures GetEdge(g.edges, v, u).None? && u != v
  {
    TopoEdge(g, order, u, v);
    Adjacent(g.edges, v, u);
    if HasEdge(g.edges, v, u) { TopoEdge(g, order, v, u); }
  }

  lemma GapSymmetric(g: Graph, order: seq<StageId>, u: StageId, v: StageId)
    requires IsTopoOrder(g, order)
    ensures Gap(g.edges, u, v) == Gap(g.edges, v, u)
  {
    if GetEdge(g.edges, u, v).Some? { NoReturn(g, order, u, v); }
    if GetEdge(g.edges, v, u).Some? { NoReturn(g, order, v, u); }
  }

  lemma SpacedNodes(g: Graph)
    requires WellFormed(g)
    ensures NodeIds(Spaced(g).t) == g.ids
    ensures forall s :: s in g.ids ==> GetNode(Spaced(g).t, s) == OwnNode(s)
  {
    var t := Spaced(g).t;
    assert NodeIds(t) == g.ids;
    forall s | s in g.ids ensures GetNode(t, s) == OwnNode(s) {
      var i := IndexOf(g.ids, s);
      GetNodeAt(t, i);
    }
  }

  lemma SpacedGraph(g: Graph)
    requires WellFormed(g)
    ensures WellFormed(Spaced(g).g) && Spaced(g).g.ids == g.ids && Spaced(g).g.edges == g.edges
  {
    assert Spaced(g).g.stages.Keys == ToSet(g.ids);
  }

  lemma SpacedSymmetric(g: Graph, order: seq<StageId>, a: NodeId, b: NodeId)
    requires IsTopoOrder(g, order)
    requires (a, b) in Spaced(g).t.latency && (b, a) in Spaced(g).t.latency
    ensures Spaced(g).t.latency[(a, b)] == Spaced(g).t.latency[(b, a)]
  {
    GapSymmetric(g, order, a, b);
    hide Gap, IsTopoOrder;
  }

  lemma SpacedValid(g: Graph, order: seq<StageId>)
    requires WellFormed(g) && IsTopoOrder(g, order)
    ensures ValidProblem(Spaced(g))
  {
    var t := Spaced(g).t;
    SpacedNodes(g);
    SpacedGraph(g);
    assert forall a, b :: a in g.ids && b in g.ids ==> (a, b) in t.latency;
    hide Spaced, GetNode, NodeIds, IsTopoOrder;
    forall a, b | (a, b) in t.latency && (b, a) in t.latency ensures t.latency[(a, b)] == t.latency[(b, a)] {
      SpacedSymmetric(g, order, a, b);
    }
  }

  // Each hop exhausts the bound of its indexed edge.
  lemma SpacedHop(g: Graph, order: seq<StageId>, u: StageId, v: StageId)
    requires WellFormed(g) && IsTopoOrder(g, order) && ValidProblem(Spaced(g)) && GetEdge(g.edges, u, v).Some?
    ensures u in NodeIds(Spaced(g).t) && v in NodeIds(Spaced(g).t) && HopAllowed(Spaced(g), u, v, u, v)
    ensures Latency(Spaced(g).t, u, v) == GetEdge(g.edges, u, v).value.bound + TOLERANCE
  {
    NoReturn(g, order, u, v);
    SpacedNodes(g);
    hide ValidProblem, GetNode, NodeIds;
    assert u in g.ids && v in g.ids;
    assert (u, v) in Spaced(g).t.latency && (u, v) in Spaced(g).gov.trust;
  }

  // ---------------------------------------------------------------- the greedy run stays at home

  lemma NoLoad(g: Graph, p: Placement, n: NodeId)
    ensures NodeLoad(Spaced(g), p, n) == 0.0
  {
    SumZero(Spaced(g).g.ids, LoadOn(Spaced(g), p, n));
  }

  // A stage fits the node of its own domain and no other.
  lemma FitsHomeOnly(g: Graph, s: StageId, n: NodeId)
    requires WellFormed(g) && s in g.ids && n in g.ids
    ensures n in NodeIds(Spaced(g).t) && s in Spaced(g).g.stages
    ensures FitsAlone(Spaced(g).g.stages[s], GetNode(Spaced(g).t, n), Spaced(g).gov) <==> n == s
  {
    SpacedNodes(g);
    hide GetNode, NodeIds;
  }

  lemma HopsAllowed(g: Graph, order: seq<StageId>, p: Placement, s: StageId)
    requires WellFormed(g) && IsTopoOrder(g, order) && ValidProblem(Spaced(g)) && Assigns(Spaced(g), p)
    requires (forall c :: c in p ==> p[c] == c) && s in NodeIds(Spaced(g).t)
    ensures forall c :: c in Preds(g.edges, s) ==> PredAllows(Spaced(g), s, s, p, c)
    ensures forall c :: c in Succs(g.edges, s) ==> SuccAllows(Spaced(g), s, s, p, c)
  {
    hide ValidProblem, GetNode, NodeIds, HopAllowed, Spaced, IsTopoOrder;
    forall c | c in Preds(g.edges, s) ensures PredAllows(Spaced(g), s, s, p, c) {
      Adjacent(g.edges, c, s);
      SpacedHop(g, order, c, s);
    }
    forall c | c in Succs(g.edges, s) ensures SuccAllows(Spaced(g), s, s, p, c) {
      Adjacent(g.edges, s, c);
      SpacedHop(g, order, s, c);
    }
  }

  lemma OnlyHomeFits(g: Graph, order: seq<StageId>, p: Placement, s: StageId, n: NodeId)
    requires WellFormed(g) && IsTopoOrder(g, order) && ValidProblem(Spaced(g)) && Assigns(Spaced(g), p)
    requires (forall c :: c in p ==> p[c] == c) && s in g.ids && n in g.ids
    ensures s in Spaced(g).g.stages && n in NodeIds(Spaced(g).t)
    ensures NodeFeasible(Spaced(g), p, s, n) <==> n == s
  {
    SpacedGraph(g);
    FitsHomeOnly(g, s, n);
    NoLoad(g, p, n);
    hide ValidProblem, GetNode, NodeIds, PredAllows, SuccAllows, FitsAlone, Spaced, IsTopoOrder;
    if n == s { HopsAllowed(g, order, p, s); }
  }

  lemma HomeChosen(g: Graph, order: seq<StageId>, p: Placement, s: StageId)
    requires WellFormed(g) && IsTopoOrder(g, order) && ValidProblem(Spaced(g)) && Assigns(Spaced(g), p)
    requires (forall c :: c in p ==> p[c] == c) && s in g.ids
    ensures GreedyChoice(Spaced(g), p, s, s)
  {
    var pr := Spaced(g);
    var scores := Scores(pr, p, s);
    SpacedNodes(g);
    ArgMinLeast(scores);
    hide ValidProblem, NodeFeasible, Increment, GetNode, ArgMin;
    forall i | 0 <= i < |scores| ensures scores[i].Fin? <==> g.ids[i] == s {
      OnlyHomeFits(g, order, p, s, g.ids[i]);
    }
    assert scores[IndexOf(g.ids, s)].Fin?;
  }

  lemma HomeAssigns(g: Graph, order: seq<StageId>)
    requires WellFormed(g) && IsTopoOrder(g, order)
    ensures Assigns(Spaced(g), AtHome(g)) && AtHome(g).Keys == ToSet(order)
  {
    SpacedNodes(g);
    assert AtHome(g).Keys == ToSet(g.ids);
  }

  lemma HomeAt(g: Graph, order: seq<StageId>, j: nat)
    requires WellFormed(g) && IsTopoOrder(g, order) && ValidProblem(Spaced(g)) && j < |order|
    requires Assigns(Spaced(g), AtHome(g))
    ensures ChosenAt(Spaced(g), order, j, AtHome(g))
  {
    hide ValidProblem, GreedyChoice, NodeIds, IsTopoOrder, WellFormed;
    KnownStage(g, order, j);
    HomeChosen(g, order, Restrict(AtHome(g), order[..j]), order[j]);
  }

  lemma KnownStage(g: Graph, order: seq<StageId>, j: nat)
    requires IsTopoOrder(g, order) && j < |order|
    ensures order[j] in g.ids
  {
    assert order[j] in ToSet(order);
  }

  lemma HomeIsGreedy(g: Graph, order: seq<StageId>)
    requires WellFormed(g) && IsTopoOrder(g, order) && ValidProblem(Spaced(g))
    ensures GreedyRun(Spaced(g), order, |order|, AtHome(g))
  {
    HomeAssigns(g, order);
    TakeAll(order);
    hide ValidProblem, ChosenAt, Assigns, IsTopoOrder, WellFormed;
    forall j | 0 <= j < |order| ensures ChosenAt(Spaced(g), order, j, AtHome(g)) { HomeAt(g, order, j); }
  }

  // ---------------------------------------------------------------- the exact condition

  // pr is a pipeline with the stage ids and edges of g, and p a greedy result for it.
  ghost predicate GreedyOn(g: Graph, order: seq<StageId>, pr: Problem, p: Placement) {
    pr.g.ids == g.ids && pr.g.edges == g.edges && ValidProblem(pr) && GreedyRun(pr, order, |order|, p)
  }

  // The checker accepts every greedy result over this order: whatever the stages, the
  // network, the rules and the weights.
  ghost predicate AlwaysAccepted(g: Graph, order: seq<StageId>) {
    forall pr, p :: GreedyOn(g, order, pr, p) ==> Feasible(pr, p)
  }

  // An edge whose parallel edge in the index is looser is missed at home.
  lemma LooseIndexMissed(g: Graph, order: seq<StageId>, e: Edge)
    requires WellFormed(g) && IsTopoOrder(g, order) && e in g.edges
    requires !Indexed(g, e)
    ensures ValidProblem(Spaced(g)) && GreedyRun(Spaced(g), order, |order|, AtHome(g))
    ensures Violates(Spaced(g), AtHome(g), TooSlow(e)) && !Feasible(Spaced(g), AtHome(g))
  {
    SpacedValid(g, order);
    HomeIsGreedy(g, order);
    HomeAssigns(g, order);
    hide ValidProblem, NodeIds, GreedyRun, WellFormed, IsTopoOrder, Feasible;
    HomeTooSlow(g, order, e);
    NoViolations(Spaced(g), AtHome(g));
  }

  lemma HomeTooSlow(g: Graph, order: seq<StageId>, e: Edge)
    requires WellFormed(g) && IsTopoOrder(g, order) && e in g.edges && !Indexed(g, e)
    requires ValidProblem(Spaced(g)) && Assigns(Spaced(g), AtHome(g))
    ensures Violates(Spaced(g), AtHome(g), TooSlow(e))
  {
    SpacedGraph(g);
    HomeEnds(g, e);
    HomeSlow(g, order, e);
    hide ValidProblem, Spaced, AtHome, IsTopoOrder, WellFormed, Assigns, LatencyHolds;
  }

  lemma HomeSlow(g: Graph, order: seq<StageId>, e: Edge)
    requires WellFormed(g) && IsTopoOrder(g, order) && e in g.edges && !Indexed(g, e) && ValidProblem(Spaced(g))
    ensures HasLatency(Spaced(g).t, e.source, e.target) && !LatencyHolds(Spaced(g), e.bound, e.source, e.target)
  {
    EdgeIndexed(g, e);
    SpacedHop(g, order, e.source, e.target);
    hide ValidProblem, Spaced, IsTopoOrder, WellFormed, GetEdge, HopAllowed, Latency;
  }

  lemma HomeEnds(g: Graph, e: Edge)
    requires WellFormed(g) && e in g.edges
    ensures e.source in AtHome(g) && e.target in AtHome(g)
    ensures AtHome(g)[e.source] == e.source && AtHome(g)[e.target] == e.target
  {}

  // The checker accepts all greedy results of a pipeline's edges exactly when, among
  // parallel edges, the indexed one is the tightest.
  lemma AcceptedIffTightest(g: Graph, order: seq<StageId>)
    requires WellFormed(g) && IsTopoOrder(g, order)
    ensures AlwaysAccepted(g, order) <==> IndexedTightest(g)
  {
    if IndexedTightest(g) {
      forall pr, p | GreedyOn(g, order, pr, p) ensures Feasible(pr, p) { GreedySound(pr, order, p); }
    } else {
      var e :| e in g.edges && !Indexed(g, e);
      LooseIndexMissed(g, order, e);
      assert GreedyOn(g, order, Spaced(g), AtHome(g));
    }
  }

  lemma EdgeIndexed(g: Graph, e: Edge)
    requires e in g.edges
    ensures GetEdge(g.edges, e.source, e.target).Some?
  {
    Adjacent(g.edges, e.source, e.target);
    assert HasEdge(g.edges, e.source, e.target);
  }
}
