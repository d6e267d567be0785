// When the redistribution pass keeps the latency and trust bounds that the table
// enforced: the exact condition on the pipeline.
module RedistributionExactness {
  import opened Wrappers
  import opened Sequences
  import opened Sorting
  import opened Graphs
  import opened Topologies
  import opened Feasibility
  import opened TreeOptimality
  import opened Redistribution
  import opened FindPlacement
  import opened Acceptance
  import opened Samples

  // ---------------------------------------------------------------- a pass that moves nothing changes nothing

  lemma {:induction false} StillMoves(pr: Problem, st: Ledger, cs: seq<StageId>)
    ensures |st.moved| <= |MoveAll(pr, st, cs).moved|
    ensures |st.moved| == |MoveAll(pr, st, cs).moved| ==>
      MoveAll(pr, st, cs) == st && forall c :: c in cs ==> MoveOne(pr, st, c) == st
  {
    if cs != [] {
      hide BestAlternative;
      StillMoves(pr, st, cs[..|cs|-1]);
    }
  }

  lemma {:induction false} StillSpread(pr: Problem, st: Ledger, order: seq<StageId>)
    ensures |st.moved| <= |Spread(pr, st, order).moved|
    ensures |st.moved| == |Spread(pr, st, order).moved| ==>
      Spread(pr, st, order) == st && forall v :: v in order ==> MoveAll(pr, st, Plan(pr, st.p, v)) == st
  {
    if order != [] {
      hide MoveAll, Plan;
      var n := |order| - 1;
      var before := Spread(pr, st, order[..n]);
      StillSpread(pr, st, order[..n]);
      StillMoves(pr, before, Plan(pr, before.p, order[n]));
    }
  }

  // Predecessors that share a node: all but the heaviest are offered.
  lemma {:induction false} AllColocated(preds: seq<StageId>, p: Placement, n: NodeId)
    requires forall c :: c in preds ==> c in p && p[c] == n
    ensures Colocated(preds, p, n) == preds
  {
    if preds != [] {
      var i := |preds| - 1;
      assert preds[i] in preds;
      AllColocated(preds[..i], p, n);
      assert preds == preds[..i] + [preds[i]];
    }
  }

  lemma {:induction false} OneHost(preds: seq<StageId>, p: Placement, n: NodeId)
    requires forall c :: c in preds ==> c in p && p[c] == n
    ensures HostNodes(preds, p) == if preds == [] then [] else [n]
  {
    if preds != [] {
      var i := |preds| - 1;
      assert preds[i] in preds;
      OneHost(preds[..i], p, n);
    }
  }

  lemma SharedNodeOffers(pr: Problem, p: Placement, v: StageId, n: NodeId) returns (c: StageId)
    requires |Preds(pr.g.edges, v)| >= 2
    requires forall c :: c in Preds(pr.g.edges, v) ==> c in p && p[c] == n
    ensures c in Plan(pr, p, v) && c in Preds(pr.g.edges, v)
  {
    var preds := Preds(pr.g.edges, v);
    AllColocated(preds, p, n);
    OneHost(preds, p, n);
    var group := SortBy(preds, NegatedDemand(pr));
    SortKeeps(preds, NegatedDemand(pr));
    hide SortBy, Colocated, HostNodes;
    assert Movable(pr, preds, p, n) == group[1..];
    assert [n][..0] == [];
    assert MovableOf(pr, preds, p, [n]) == MovableOf(pr, preds, p, []) + group[1..];
    c := group[1];
    assert c == group[1..][0];
    MovableKnown(pr, preds, p, n);
  }

  // ---------------------------------------------------------------- two nodes at home and one away

  const EVEN: NodeId := "even"
  const ODD: NodeId := "odd"
  const AWAY: NodeId := "away"

  lemma NodesDiffer()
    ensures EVEN != ODD && EVEN != AWAY && ODD != AWAY && "home" != "away" && ODD != "flat" && EVEN != "flat"
  {
    assert EVEN[0] != ODD[0] && EVEN[0] != AWAY[0] && ODD[0] != AWAY[0] && "home"[0] != "away"[0];
    assert ODD[0] != "flat"[0] && EVEN[0] != "flat"[0];
  }

  lemma NextLater(g: Graph, order: seq<StageId>, v: StageId)
    requires IsTopoOrder(g, order) && v in order && Succs(g.edges, v) != []
    ensures Succs(g.edges, v)[0] in order && IndexOf(order, v) < IndexOf(order, Succs(g.edges, v)[0])
  {
    Adjacent(g.edges, v, Succs(g.edges, v)[0]);
    TopoEdge(g, order, v, Succs(g.edges, v)[0]);
  }

  // The number of edges down to the sink is even.
  ghost predicate IsEven(g: Graph, order: seq<StageId>, v: StageId)
    requires IsTopoOrder(g, order) && v in order
    decreases |order| - IndexOf(order, v)
  {
    var next := Succs(g.edges, v);
    if next == [] then true
    else
      NextLater(g, order, v);
      !IsEven(g, order, next[0])
  }

  ghost function Side(g: Graph, order: seq<StageId>, v: StageId): NodeId
    requires IsTopoOrder(g, order) && v in order
  {
    if IsEven(g, order, v) then EVEN else ODD
  }

  // An idle stage that only its side and the node away admit, the sink only its side.
  ghost function SideStage(g: Graph, order: seq<StageId>, v: StageId): Stage
    requires IsTopoOrder(g, order) && v in order
  {
    Stage(v, "", 0.0, Some(Side(g, order, v)), if Succs(g.edges, v) == [] then Some("home") else None)
  }

  function Nodes(): seq<Unit> {
    [Unit(EVEN, "home", EVEN, 0.0, 0.0, None), Unit(ODD, "home", ODD, 0.0, 0.0, None),
     Unit(AWAY, "away", "flat", 0.0, 0.0, None)]
  }

  // How far away is, and how far home trusts it.
  datatype Terms = Terms(far: real, trust: real, w: Weights)

  ghost function Network(g: Graph, order: seq<StageId>, x: Terms): Problem
    requires IsTopoOrder(g, order)
  {
    Problem(Graph(g.ids, map v | v in order :: SideStage(g, order, v), g.edges),
            Topology(Nodes(), map[(EVEN, ODD) := Near(g.edges), (EVEN, AWAY) := x.far, (ODD, AWAY) := x.far]),
            Governance({}, map[("home", "away") := x.trust]), x.w)
  }

  ghost function OnSides(g: Graph, order: seq<StageId>): Placement
    requires IsTopoOrder(g, order)
  {
    map v | v in order :: Side(g, order, v)
  }

  // No edge may cross between home and away.
  ghost predicate Refuses(g: Graph, x: Terms) {
    x.trust <= 0.0 || forall e :: e in g.edges ==> x.far > e.bound + TOLERANCE
  }

  lemma NetworkTopology(g: Graph, order: seq<StageId>, x: Terms)
    requires IsTopoOrder(g, order)
    ensures var t := Network(g, order, x).t;
      && ValidTopology(t) && NodeIds(t) == [EVEN, ODD, AWAY]
      && GetNode(t, EVEN) == Nodes()[0] && GetNode(t, ODD) == Nodes()[1] && GetNode(t, AWAY) == Nodes()[2]
  {
    NodesDiffer();
    hide IsTopoOrder, SideStage, Near;
    var t := Network(g, order, x).t;
    assert NodeIds(t) == [EVEN, ODD, AWAY];
    GetNodeAt(t, 0);
    GetNodeAt(t, 1);
    GetNodeAt(t, 2);
  }

  lemma NetworkGraph(g: Graph, order: seq<StageId>, x: Terms)
    requires WellFormed(g) && IsTopoOrder(g, order)
    ensures WellFormed(Network(g, order, x).g) && Network(g, order, x).g.stages.Keys == ToSet(order)
  {
    hide IsEven, Near;
    assert Network(g, order, x).g.stages.Keys == ToSet(order);
  }

  lemma NetworkValid(g: Graph, order: seq<StageId>, x: Terms)
    requires WellFormed(g) && IsTopoOrder(g, order)
    ensures ValidProblem(Network(g, order, x))
    ensures NodeIds(Network(g, order, x).t) == [EVEN, ODD, AWAY]
    ensures var t := Network(g, order, x).t;
      GetNode(t, EVEN) == Nodes()[0] && GetNode(t, ODD) == Nodes()[1] && GetNode(t, AWAY) == Nodes()[2]
    ensures Network(g, order, x).g.stages.Keys == ToSet(order)
  {
    NetworkTopology(g, order, x);
    NetworkGraph(g, order, x);
    hide IsTopoOrder, WellFormed, ValidTopology, Network, GetNode, NodeIds, Nodes;
  }

  // ---------------------------------------------------------------- what the network admits

  lemma UnitAdmits(g: Graph, order: seq<StageId>, gov: Governance, v: StageId, i: nat)
    requires IsTopoOrder(g, order) && v in order && i < 3 && gov.localTypes == {}
    ensures FitsAlone(SideStage(g, order, v), Nodes()[i], gov) <==>
      Nodes()[i].nodeId == Side(g, order, v) || (i == 2 && Succs(g.edges, v) != [])
  {
    NodesDiffer();
    hide IsEven, IsTopoOrder, Succs;
  }

  function Position(n: NodeId): nat {
    if n == EVEN then 0 else if n == ODD then 1 else 2
  }

  lemma NodeKnown(g: Graph, order: seq<StageId>, x: Terms, n: NodeId)
    requires WellFormed(g) && IsTopoOrder(g, order) && n in [EVEN, ODD, AWAY]
    ensures Nodes()[Position(n)].nodeId == n && (Position(n) == 2 <==> n == AWAY)
    ensures var t := Network(g, order, x).t; n in NodeIds(t) && GetNode(t, n) == Nodes()[Position(n)]
  {
    NodesDiffer();
    NetworkValid(g, order, x);
    hide ValidProblem, GetNode, NodeIds, IsTopoOrder, WellFormed, Network;
  }

  lemma StageKnown(g: Graph, order: seq<StageId>, x: Terms, v: StageId)
    requires IsTopoOrder(g, order) && v in order
    ensures var pr := Network(g, order, x);
      v in pr.g.stages && pr.g.stages[v] == SideStage(g, order, v) && pr.gov.localTypes == {}
  {
    hide SideStage, IsTopoOrder;
  }

  lemma StageFits(g: Graph, order: seq<StageId>, x: Terms, v: StageId, n: NodeId)
    requires WellFormed(g) && IsTopoOrder(g, order) && v in order && n in [EVEN, ODD, AWAY]
    ensures var pr := Network(g, order, x); v in pr.g.stages && n in NodeIds(pr.t)
    ensures var pr := Network(g, order, x);
      FitsAlone(pr.g.stages[v], GetNode(pr.t, n), pr.gov) <==>
      n == Side(g, order, v) || (n == AWAY && Succs(g.edges, v) != [])
  {
    NodeKnown(g, order, x, n);
    StageKnown(g, order, x, v);
    assert Position(n) < 3;
    hide *;
    UnitAdmits(g, order, Network(g, order, x).gov, v, Position(n));
  }

  lemma CrossingRefused(g: Graph, order: seq<StageId>, x: Terms, e: Edge, a: NodeId, b: NodeId)
    requires WellFormed(g) && IsTopoOrder(g, order) && Refuses(g, x) && e in g.edges
    requires a in [EVEN, ODD, AWAY] && b in [EVEN, ODD, AWAY] && (a == AWAY <==> b != AWAY)
    requires ValidProblem(Network(g, order, x))
    ensures var pr := Network(g, order, x); a in NodeIds(pr.t) && b in NodeIds(pr.t) && HasLatency(pr.t, a, b)
    ensures x.far > e.bound + TOLERANCE ==> !LatencyHolds(Network(g, order, x), e.bound, a, b)
    ensures x.trust <= 0.0 ==> !TrustHolds(Network(g, order, x), a, b)
  {
    NodesDiffer();
    NetworkValid(g, order, x);
    hide ValidProblem, GetNode, NodeIds, IsTopoOrder, WellFormed, Near;
  }

  lemma EndsKnown(g: Graph, order: seq<StageId>, e: Edge)
    requires IsTopoOrder(g, order) && e in g.edges
    ensures e.source in order && e.target in order && e.target in Succs(g.edges, e.source)
  {
    Adjacent(g.edges, e.source, e.target);
    assert HasEdge(g.edges, e.source, e.target);
  }

  // Without fan-out the ends of an edge are on different sides.
  lemma SidesAlternate(g: Graph, order: seq<StageId>, e: Edge)
    requires WellFormed(g) && IsTopoOrder(g, order) && NoFanOut(g) && e in g.edges
    ensures e.source in order && e.target in order && Side(g, order, e.source) != Side(g, order, e.target)
  {
    NodesDiffer();
    EndsKnown(g, order, e);
    NextLater(g, order, e.source);
    assert |Succs(g.edges, e.source)| <= 1;
  }

  lemma HomeHop(g: Graph, order: seq<StageId>, x: Terms, e: Edge)
    requires WellFormed(g) && IsTopoOrder(g, order) && NoFanOut(g) && e in g.edges
    requires ValidProblem(Network(g, order, x)) && Assigns(Network(g, order, x), OnSides(g, order))
    ensures EdgeAllowed(Network(g, order, x), OnSides(g, order), e)
  {
    NodesDiffer();
    SidesAlternate(g, order, e);
    NetworkValid(g, order, x);
    NearBounds(g.edges);
    hide ValidProblem, GetNode, NodeIds, IsTopoOrder, WellFormed, Near, IsEven, Assigns;
  }

  lemma HomeTotal(g: Graph, order: seq<StageId>, x: Terms)
    requires WellFormed(g) && IsTopoOrder(g, order)
    ensures ValidProblem(Network(g, order, x)) && Total(Network(g, order, x), OnSides(g, order))
  {
    NetworkValid(g, order, x);
    hide ValidProblem, GetNode, NodeIds, IsTopoOrder, IsEven;
  }

  lemma HomeAllowed(g: Graph, order: seq<StageId>, x: Terms)
    requires WellFormed(g) && IsTopoOrder(g, order) && NoFanOut(g)
    ensures ValidProblem(Network(g, order, x)) && TreeFeasible(Network(g, order, x), OnSides(g, order))
  {
    HomeTotal(g, order, x);
    NetworkEdges(g, order, x);
    AllowedHere(g, order, x, Network(g, order, x), OnSides(g, order));
  }

  lemma AllowedHere(g: Graph, order: seq<StageId>, x: Terms, pr: Problem, p: Placement)
    requires WellFormed(g) && IsTopoOrder(g, order) && NoFanOut(g) && ValidProblem(pr) && Total(pr, p)
    requires pr == Network(g, order, x) && p == OnSides(g, order) && pr.g.edges == g.edges
    ensures TreeFeasible(pr, p)
  {
    hide ValidProblem, GetNode, NodeIds, IsTopoOrder, WellFormed, IsEven, EdgeAllowed, FitsAlone, NoFanOut, Network;
    forall v | v in p ensures FitsAlone(StageOf(pr, v), GetNode(pr.t, p[v]), pr.gov) {
      StageFits(g, order, x, v, p[v]);
    }
    forall e | e in pr.g.edges ensures EdgeAllowed(pr, p, e) { HomeHop(g, order, x, e); }
  }

  lemma NetworkEdges(g: Graph, order: seq<StageId>, x: Terms)
    requires IsTopoOrder(g, order)
    ensures var pr := Network(g, order, x); pr.g.edges == g.edges && pr.g.ids == g.ids
  {}

  // Nobody may start away, because the sink is at home.
  lemma {:induction false} OnlyHome(g: Graph, order: seq<StageId>, x: Terms, q: Placement, v: StageId)
    requires WellFormed(g) && IsTopoOrder(g, order) && Refuses(g, x) && v in order
    requires ValidProblem(Network(g, order, x)) && TreeFeasible(Network(g, order, x), q)
    ensures v in q && q[v] == Side(g, order, v)
    decreases |order| - IndexOf(order, v)
  {
    PlacedThere(g, order, x, q, v);
    hide ValidProblem, GetNode, NodeIds, IsTopoOrder, WellFormed, IsEven, TreeFeasible, FitsAlone, Network, Refuses;
    if Succs(g.edges, v) != [] && q[v] == AWAY {
      NextLater(g, order, v);
      var w := Succs(g.edges, v)[0];
      OnlyHome(g, order, x, q, w);
      NodesDiffer();
      Adjacent(g.edges, v, w);
      var e :| e in g.edges && e.source == v && e.target == w;
      HopKnown(g, order, x, q, e);
      CrossingRefused(g, order, x, e, q[v], q[w]);
      RefusalKnown(g, x, e);
      assert false;
    }
  }

  lemma RefusalKnown(g: Graph, x: Terms, e: Edge)
    requires Refuses(g, x) && e in g.edges
    ensures x.trust <= 0.0 || x.far > e.bound + TOLERANCE
  {}

  lemma PlacedThere(g: Graph, order: seq<StageId>, x: Terms, q: Placement, v: StageId)
    requires WellFormed(g) && IsTopoOrder(g, order) && v in order
    requires ValidProblem(Network(g, order, x)) && TreeFeasible(Network(g, order, x), q)
    ensures v in q && q[v] in [EVEN, ODD, AWAY]
    ensures q[v] == Side(g, order, v) || (q[v] == AWAY && Succs(g.edges, v) != [])
  {
    NetworkValid(g, order, x);
    hide ValidProblem, GetNode, IsTopoOrder, WellFormed, IsEven, FitsAlone, EdgeAllowed;
    assert v in q && q[v] in NodeIds(Network(g, order, x).t);
    StageFits(g, order, x, v, q[v]);
  }

  lemma HopKnown(g: Graph, order: seq<StageId>, x: Terms, q: Placement, e: Edge)
    requires IsTopoOrder(g, order) && e in g.edges
    requires ValidProblem(Network(g, order, x)) && TreeFeasible(Network(g, order, x), q)
    ensures Assigns(Network(g, order, x), q) && EdgeAllowed(Network(g, order, x), q, e)
  {
    hide IsTopoOrder, EdgeAllowed, FitsAlone;
  }

  // So the placement at home is the only one the table allows, and it is optimal for all weights.
  lemma HomeIsOptimum(g: Graph, order: seq<StageId>, x: Terms, q: Placement)
    requires WellFormed(g) && IsTopoOrder(g, order) && NoFanOut(g) && Refuses(g, x)
    requires ValidProblem(Network(g, order, x))
    ensures TreeFeasible(Network(g, order, x), q) <==> q == OnSides(g, order)
  {
    HomeAllowed(g, order, x);
    hide ValidProblem, IsTopoOrder, WellFormed, NoFanOut, Refuses, TreeFeasible, Network, OnSides, Side;
    if TreeFeasible(Network(g, order, x), q) {
      forall v | v in order ensures v in q && q[v] == Side(g, order, v) { OnlyHome(g, order, x, q, v); }
      AllowedKeys(g, order, x, q);
      SameAsHome(g, order, q);
    }
  }

  lemma AllowedKeys(g: Graph, order: seq<StageId>, x: Terms, q: Placement)
    requires WellFormed(g) && IsTopoOrder(g, order)
    requires ValidProblem(Network(g, order, x)) && TreeFeasible(Network(g, order, x), q)
    ensures q.Keys == ToSet(order)
  {
    NetworkGraph(g, order, x);
    hide ValidProblem, IsTopoOrder, WellFormed, FitsAlone, EdgeAllowed, Network, GetNode, NodeIds;
  }

  lemma SameAsHome(g: Graph, order: seq<StageId>, q: Placement)
    requires IsTopoOrder(g, order) && q.Keys == ToSet(order)
    requires forall v :: v in order ==> v in q && q[v] == Side(g, order, v)
    ensures q == OnSides(g, order)
  {
    hide IsTopoOrder, Side;
    assert forall v :: v in q ==> v in order;
  }

  lemma Idle(g: Graph, order: seq<StageId>, x: Terms, p: Placement, n: NodeId)
    requires IsTopoOrder(g, order)
    ensures NodeLoad(Network(g, order, x), p, n) == 0.0
  {
    hide IsEven, IsTopoOrder;
    SumZero(g.ids, LoadOn(Network(g, order, x), p, n));
  }

  lemma HomeFeasible(g: Graph, order: seq<StageId>, x: Terms)
    requires WellFormed(g) && IsTopoOrder(g, order) && NoFanOut(g)
    ensures ValidProblem(Network(g, order, x)) && Total(Network(g, order, x), OnSides(g, order))
    ensures Feasible(Network(g, order, x), OnSides(g, order))
  {
    var pr, p := Network(g, order, x), OnSides(g, order);
    HomeTotal(g, order, x);
    HomeAllowed(g, order, x);
    hide ValidProblem, TreeFeasible, IsTopoOrder, WellFormed, IsEven, NodeLoad, Feasible, GetNode;
    forall v | v in p ensures NodeLoad(pr, p, p[v]) <= GetNode(pr.t, p[v]).Residual() + TOLERANCE {
      Idle(g, order, x, p, p[v]);
      assert GetNode(pr.t, p[v]) in Nodes();
    }
    TreeFeasibleIffCapacity(pr, p);
  }

  // ---------------------------------------------------------------- a fan-in sends a stage away

  // A stage with a successor leaves its side: the node away is idle and admits it.
  lemma Leaves(g: Graph, order: seq<StageId>, x: Terms, c: StageId)
    requires WellFormed(g) && IsTopoOrder(g, order) && c in order && Succs(g.edges, c) != []
    ensures var pr, p := Network(g, order, x), OnSides(g, order);
      MoveOne(pr, Ledger(p, LoadsOf(pr, p), []), c) != Ledger(p, LoadsOf(pr, p), [])
  {
    var pr, p := Network(g, order, x), OnSides(g, order);
    AwayTakes(g, order, x, c);
    StageKnown(g, order, x, c);
    hide ValidProblem, IsTopoOrder, WellFormed, BestAlternative, AltScore, LoadsOf, Side, Network;
    AlternativeLeast(pr, pr.g.stages[c], p[c], LoadsOf(pr, p), 2);
  }

  lemma AwayTakes(g: Graph, order: seq<StageId>, x: Terms, c: StageId)
    requires WellFormed(g) && IsTopoOrder(g, order) && c in order && Succs(g.edges, c) != []
    ensures var pr, p := Network(g, order, x), OnSides(g, order);
      && |pr.t.nodes| == 3 && c in pr.g.stages
      && AltScore(pr, pr.g.stages[c], p[c], LoadsOf(pr, p), pr.t.nodes[2]).Fin?
  {
    var pr, p := Network(g, order, x), OnSides(g, order);
    NodesDiffer();
    StageKnown(g, order, x, c);
    UnitAdmits(g, order, pr.gov, c, 2);
    Idle(g, order, x, p, AWAY);
    hide IsTopoOrder, WellFormed, IsEven, NodeLoad, FitsAlone;
    assert LoadEntry(LoadsOf(pr, p), AWAY) == 0.0;
  }

  lemma FanInMoves(g: Graph, order: seq<StageId>, x: Terms, other: seq<StageId>, v: StageId)
    requires WellFormed(g) && IsTopoOrder(g, order) && NoFanOut(g) && v in other && |Preds(g.edges, v)| >= 2
    ensures var pr, p := Network(g, order, x), OnSides(g, order);
      Spread(pr, Ledger(p, LoadsOf(pr, p), []), other).moved != []
  {
    var pr, p := Network(g, order, x), OnSides(g, order);
    var start := Ledger(p, LoadsOf(pr, p), []);
    var c := Offered(g, order, pr, v);
    Leaves(g, order, x, c);
    hide *;
    StillMoves(pr, start, Plan(pr, p, v));
    StillSpread(pr, start, other);
  }

  lemma Offered(g: Graph, order: seq<StageId>, pr: Problem, v: StageId) returns (c: StageId)
    requires WellFormed(g) && IsTopoOrder(g, order) && NoFanOut(g) && |Preds(g.edges, v)| >= 2
    requires pr.g.edges == g.edges
    ensures c in Plan(pr, OnSides(g, order), v) && c in order && Succs(g.edges, c) != []
  {
    PredsTogether(g, order, v);
    hide IsEven, Plan, WellFormed, IsTopoOrder, OnSides;
    c := SharedNodeOffers(pr, OnSides(g, order), v, OnSides(g, order)[Preds(g.edges, v)[0]]);
    Adjacent(g.edges, c, v);
    TopoEdge(g, order, c, v);
  }

  // All predecessors of a stage are on the other side.
  lemma PredSide(g: Graph, order: seq<StageId>, c: StageId, v: StageId)
    requires WellFormed(g) && IsTopoOrder(g, order) && NoFanOut(g) && c in Preds(g.edges, v)
    ensures c in order && v in order && Side(g, order, c) == if Side(g, order, v) == EVEN then ODD else EVEN
  {
    Adjacent(g.edges, c, v);
    var e :| e in g.edges && e.source == c && e.target == v;
    SidesAlternate(g, order, e);
    hide WellFormed, IsTopoOrder, NoFanOut, Preds, IsEven;
  }

  lemma PredsTogether(g: Graph, order: seq<StageId>, v: StageId)
    requires WellFormed(g) && IsTopoOrder(g, order) && NoFanOut(g)
    ensures forall c, d :: c in Preds(g.edges, v) && d in Preds(g.edges, v) ==>
      c in OnSides(g, order) && d in OnSides(g, order) && OnSides(g, order)[c] == OnSides(g, order)[d]
  {
    hide WellFormed, IsTopoOrder, NoFanOut, Preds, Side;
    forall c, d | c in Preds(g.edges, v) && d in Preds(g.edges, v)
      ensures c in OnSides(g, order) && d in OnSides(g, order) && OnSides(g, order)[c] == OnSides(g, order)[d]
    {
      PredSide(g, order, c, v);
      PredSide(g, order, d, v);
    }
  }

  // On the way from a stage away to the sink at home some edge crosses.
  lemma {:induction false} Crosses(g: Graph, order: seq<StageId>, p: Placement, v: StageId) returns (e: Edge)
    requires IsTopoOrder(g, order) && v in order && (forall u :: u in order ==> u in p) && p[v] == AWAY
    requires forall u :: u in order && Succs(g.edges, u) == [] ==> p[u] != AWAY
    ensures e in g.edges && e.source in p && e.target in p && p[e.source] == AWAY && p[e.target] != AWAY
    decreases |order| - IndexOf(order, v)
  {
    NextLater(g, order, v);
    var w := Succs(g.edges, v)[0];
    Adjacent(g.edges, v, w);
    if p[w] == AWAY {
      e := Crosses(g, order, p, w);
    } else {
      e :| e in g.edges && e.source == v && e.target == w;
    }
  }

  lemma SomethingMoves(g: Graph, order: seq<StageId>, x: Terms, other: seq<StageId>)
    requires WellFormed(g) && IsTopoOrder(g, order) && NoFanOut(g) && !NoFanIn(g) && ToSet(other) == ToSet(g.ids)
    ensures var pr, p := Network(g, order, x), OnSides(g, order);
      Spread(pr, Ledger(p, LoadsOf(pr, p), []), other).moved != []
  {
    var v :| v in g.ids && |Preds(g.edges, v)| > 1;
    assert v in ToSet(other);
    hide *;
    FanInMoves(g, order, x, other, v);
  }

  // An answer places every stage where it fits, and some stage not on its side.
  lemma AnswerMoved(g: Graph, order: seq<StageId>, x: Terms, other: seq<StageId>, p: Placement)
    requires WellFormed(g) && InTree(g) && IsTopoOrder(g, order) && !NoFanIn(g) && ValidProblem(Network(g, order, x))
    requires SpreadOptimum(Network(g, order, x), other, OnSides(g, order), p)
    ensures Total(Network(g, order, x), p) && StagesFit(Network(g, order, x), p)
    ensures exists v :: v in order && v in p && p[v] != Side(g, order, v)
  {
    var pr, home := Network(g, order, x), OnSides(g, order);
    var s :| IsOnlySink(g, s);
    HomeAllowed(g, order, x);
    assert IsTopoOrder(g, other) by { SameOrder(pr.g, g, other); }
    SafeHere(g, order, x, other, s);
    SomethingMoves(g, order, x, other);
    var st := Spread(pr, Ledger(home, LoadsOf(pr, home), []), other);
    hide ValidProblem, WellFormed, InTree, NoFanIn, IsTopoOrder, Spread, LoadsOf, Network, Side, Total, StagesFit;
    assert st.p == p;
    assert st.moved[0] in st.moved;
  }

  lemma SafeHere(g: Graph, order: seq<StageId>, x: Terms, other: seq<StageId>, s: StageId)
    requires WellFormed(g) && InTree(g) && IsTopoOrder(g, order) && IsTopoOrder(g, other) && IsOnlySink(g, s)
    requires var pr := Network(g, order, x); ValidProblem(pr) && TreeFeasible(pr, OnSides(g, order))
    ensures var pr, home := Network(g, order, x), OnSides(g, order);
      var st := Spread(pr, Ledger(home, LoadsOf(pr, home), []), other);
      Total(pr, st.p) && MovedOnly(home, st) && StagesFit(pr, st.p)
  {
    var pr, home := Network(g, order, x), OnSides(g, order);
    hide ValidProblem, WellFormed, IsEven, Spread, LoadsOf, FitsAlone, EdgeAllowed, NoFanOut, IsTopoOrder;
    assert IsOnlySink(pr.g, s);
    assert IsTopoOrder(pr.g, other) by { SameOrder(g, pr.g, other); }
    RedistributionSafe(pr, other, home, s);
  }

  lemma SameOrder(g: Graph, h: Graph, order: seq<StageId>)
    requires IsTopoOrder(g, order) && h.ids == g.ids && h.edges == g.edges
    ensures IsTopoOrder(h, order)
  {}

  // On this network the placement at home is feasible, and if the pipeline has a fan-in
  // every answer sends data across.
  lemma AnswerCrosses(g: Graph, order: seq<StageId>, x: Terms, other: seq<StageId>, optimum: Placement, p: Placement)
    returns (e: Edge)
    requires WellFormed(g) && InTree(g) && IsTopoOrder(g, order) && Refuses(g, x) && !NoFanIn(g)
    requires ValidProblem(Network(g, order, x)) && SpreadOptimum(Network(g, order, x), other, optimum, p)
    ensures e in g.edges && Total(Network(g, order, x), p) && e.source in p && e.target in p
    ensures p[e.source] == AWAY && p[e.target] in [EVEN, ODD]
  {
    HomeIsOptimum(g, order, x, optimum);
    AnswerMoved(g, order, x, other, p);
    EveryStageFits(g, order, x, p);
    hide ValidProblem, WellFormed, InTree, IsEven, SpreadOptimum, Refuses, NoFanIn, StagesFit, IsTopoOrder;
    var v :| v in order && v in p && p[v] != Side(g, order, v);
    e := Crosses(g, order, p, v);
    EndsKnown(g, order, e);
  }

  lemma EveryStageFits(g: Graph, order: seq<StageId>, x: Terms, p: Placement)
    requires WellFormed(g) && IsTopoOrder(g, order)
    requires Total(Network(g, order, x), p) && StagesFit(Network(g, order, x), p)
    ensures forall v :: v in order ==> v in p && p[v] in [EVEN, ODD, AWAY] &&
                                       (p[v] == Side(g, order, v) || (p[v] == AWAY && Succs(g.edges, v) != []))
  {
    NetworkValid(g, order, x);
    NodesDiffer();
    hide ValidProblem, GetNode, WellFormed, IsEven, FitsAlone, IsTopoOrder;
    forall v | v in order
      ensures v in p && p[v] in [EVEN, ODD, AWAY]
      ensures p[v] == Side(g, order, v) || (p[v] == AWAY && Succs(g.edges, v) != [])
    {
      assert v in p && p[v] in NodeIds(Network(g, order, x).t);
      StageFits(g, order, x, v, p[v]);
    }
  }

  // ---------------------------------------------------------------- the exact condition

  // p is an answer to a pipeline with the stage ids and edges of g.
  ghost predicate AnswerOn(g: Graph, pr: Problem, order: seq<StageId>, optimum: Placement, p: Placement) {
    pr.g.ids == g.ids && pr.g.edges == g.edges && ValidProblem(pr) && SpreadOptimum(pr, order, optimum, p)
  }

  // Every answer meets the latency bounds: whatever the stages, the network, the rules,
  // the weights, the order and the optimum.
  ghost predicate KeepsLatency(g: Graph) {
    forall pr, order, optimum, p :: AnswerOn(g, pr, order, optimum, p) ==> Assigns(pr, p) && LatencyFeasible(pr, p)
  }

  ghost predicate KeepsTrust(g: Graph) {
    forall pr, order, optimum, p :: AnswerOn(g, pr, order, optimum, p) ==> Assigns(pr, p) && TrustFeasible(pr, p)
  }

  // All of the table's constraints: the stages' own, latency and trust.
  ghost predicate KeepsConstraints(g: Graph) {
    forall pr, order, optimum, p :: AnswerOn(g, pr, order, optimum, p) ==> TreeFeasible(pr, p)
  }

  // Where every hop is short and nobody trusts the node away.
  function Distrusted(): Terms {
    Terms(0.0, 0.0, FREE_OF_CHARGE)
  }

  // Where everybody trusts the node away and no bound allows for the distance.
  function Distant(g: Graph): Terms {
    Terms(Far(g.edges), 1.0, FREE_OF_CHARGE)
  }

  // An in-tree with a fan-in, on a network as above: a feasible placement exists, and all
  // answers break the latency bound of an edge if the node away is too far, and the trust
  // between two domains if it is not trusted.
  lemma FanInBreaks(g: Graph, order: seq<StageId>, x: Terms, other: seq<StageId>, optimum: Placement, p: Placement)
    requires WellFormed(g) && InTree(g) && IsTopoOrder(g, order) && Refuses(g, x) && !NoFanIn(g)
    requires ValidProblem(Network(g, order, x)) && SpreadOptimum(Network(g, order, x), other, optimum, p)
    ensures Total(Network(g, order, x), optimum) && Feasible(Network(g, order, x), optimum)
    ensures Assigns(Network(g, order, x), p)
    ensures (forall e :: e in g.edges ==> x.far > e.bound + TOLERANCE) ==> !LatencyFeasible(Network(g, order, x), p)
    ensures x.trust <= 0.0 ==> !TrustFeasible(Network(g, order, x), p)
  {
    hide *;
    OptimumFeasible(g, order, x, other, optimum, p);
    var e := AnswerCrosses(g, order, x, other, optimum, p);
    CrossingBreaks(g, order, x, p, e);
  }

  lemma OptimumFeasible(g: Graph, order: seq<StageId>, x: Terms, other: seq<StageId>, optimum: Placement, p: Placement)
    requires WellFormed(g) && InTree(g) && IsTopoOrder(g, order) && Refuses(g, x)
    requires ValidProblem(Network(g, order, x)) && SpreadOptimum(Network(g, order, x), other, optimum, p)
    ensures Total(Network(g, order, x), optimum) && Feasible(Network(g, order, x), optimum)
  {
    HomeFeasible(g, order, x);
    HomeIsOptimum(g, order, x, optimum);
    hide ValidProblem, WellFormed, NoFanOut, IsTopoOrder, TreeFeasible, Network, OnSides, Total, Feasible, Cost;
  }

  lemma CrossingBreaks(g: Graph, order: seq<StageId>, x: Terms, p: Placement, e: Edge)
    requires WellFormed(g) && IsTopoOrder(g, order) && Refuses(g, x) && e in g.edges
    requires ValidProblem(Network(g, order, x)) && Total(Network(g, order, x), p)
    requires e.source in p && e.target in p && p[e.source] == AWAY && p[e.target] in [EVEN, ODD]
    ensures Assigns(Network(g, order, x), p)
    ensures (forall e :: e in g.edges ==> x.far > e.bound + TOLERANCE) ==> !LatencyFeasible(Network(g, order, x), p)
    ensures x.trust <= 0.0 ==> !TrustFeasible(Network(g, order, x), p)
  {
    NodesDiffer();
    NetworkEdges(g, order, x);
    hide *;
    CrossingRefused(g, order, x, e, AWAY, p[e.target]);
    EdgeBroken(Network(g, order, x), p, e);
  }

  lemma EdgeBroken(pr: Problem, p: Placement, e: Edge)
    requires ValidProblem(pr) && Total(pr, p) && e in pr.g.edges && e.source in p && e.target in p
    ensures Assigns(pr, p)
    ensures !LatencyHolds(pr, e.bound, p[e.source], p[e.target]) ==> !LatencyFeasible(pr, p)
    ensures !TrustHolds(pr, p[e.source], p[e.target]) ==> !TrustFeasible(pr, p)
  {
    hide LatencyHolds, TrustHolds, WellFormed, NodeIds;
  }

  // And there are answers: the placement at home is an optimum.
  lemma AnswerExists(g: Graph, order: seq<StageId>, x: Terms) returns (p: Placement)
    requires WellFormed(g) && InTree(g) && IsTopoOrder(g, order) && Refuses(g, x)
    ensures ValidProblem(Network(g, order, x)) && SpreadOptimum(Network(g, order, x), order, OnSides(g, order), p)
    ensures AnswerOn(g, Network(g, order, x), order, OnSides(g, order), p)
  {
    var pr, home := Network(g, order, x), OnSides(g, order);
    HomeAllowed(g, order, x);
    NetworkEdges(g, order, x);
    p := Spread(pr, Ledger(home, LoadsOf(pr, home), []), order).p;
    hide ValidProblem, WellFormed, IsEven, TreeFeasible, Spread, LoadsOf, Refuses, Cost, Network, OnSides;
    forall q | TreeFeasible(pr, q) ensures Cost(pr, home) <= Cost(pr, q) { HomeIsOptimum(g, order, x, q); }
    SameOrder(g, pr.g, order);
  }

  // The table's constraints include latency and trust of every edge.
  lemma AllowedMeetsBounds(pr: Problem, p: Placement)
    requires ValidProblem(pr) && TreeFeasible(pr, p)
    ensures Assigns(pr, p) && LatencyFeasible(pr, p) && TrustFeasible(pr, p)
  {
    hide ValidTopology, WellFormed, FitsAlone, LatencyHolds, TrustHolds;
    forall e | e in pr.g.edges ensures EdgeAllowed(pr, p, e) {}
  }

  // Without fan-in every answer keeps all of the table's constraints.
  lemma ChainsKeep(g: Graph, pr: Problem, order: seq<StageId>, optimum: Placement, p: Placement)
    requires InTree(g) && NoFanIn(g) && AnswerOn(g, pr, order, optimum, p)
    ensures TreeFeasible(pr, p) && Assigns(pr, p) && LatencyFeasible(pr, p) && TrustFeasible(pr, p)
  {
    var s :| IsOnlySink(g, s);
    assert IsOnlySink(pr.g, s);
    ChainResultOptimal(pr, order, optimum, p);
    hide ValidProblem, TreeFeasible, LatencyFeasible, TrustFeasible;
    AllowedMeetsBounds(pr, p);
  }

  lemma FanInBreaksLatency(g: Graph, order: seq<StageId>)
    requires WellFormed(g) && InTree(g) && IsTopoOrder(g, order) && !NoFanIn(g)
    ensures !KeepsLatency(g) && !KeepsConstraints(g)
  {
    FarBounds(g.edges);
    var x := Distant(g);
    var p := AnswerExists(g, order, x);
    FanInBreaks(g, order, x, order, OnSides(g, order), p);
    hide AnswerOn, Network, OnSides, TreeFeasible, LatencyFeasible, InTree, NoFanIn, WellFormed, IsTopoOrder;
    if TreeFeasible(Network(g, order, x), p) { AllowedMeetsBounds(Network(g, order, x), p); }
  }

  lemma FanInBreaksTrust(g: Graph, order: seq<StageId>)
    requires WellFormed(g) && InTree(g) && IsTopoOrder(g, order) && !NoFanIn(g)
    ensures !KeepsTrust(g)
  {
    var p := AnswerExists(g, order, Distrusted());
    FanInBreaks(g, order, Distrusted(), order, OnSides(g, order), p);
    hide AnswerOn, Network, OnSides, TrustFeasible, InTree, NoFanIn, WellFormed, IsTopoOrder;
  }

  // On in-trees redistribution keeps the latency bounds of all answers, their trust and all
  // of the table's constraints, each exactly when the pipeline has no fan-in.
  lemma KeptIffNoFanIn(g: Graph, order: seq<StageId>)
    requires WellFormed(g) && InTree(g) && IsTopoOrder(g, order)
    ensures KeepsLatency(g) <==> NoFanIn(g)
    ensures KeepsTrust(g) <==> NoFanIn(g)
    ensures KeepsConstraints(g) <==> NoFanIn(g)
  {
    if NoFanIn(g) {
      hide InTree, NoFanIn, WellFormed, IsTopoOrder, TreeFeasible, LatencyFeasible, TrustFeasible, SpreadOptimum;
      forall pr, o, optimum, p | AnswerOn(g, pr, o, optimum, p)
        ensures Assigns(pr, p) && TreeFeasible(pr, p) && LatencyFeasible(pr, p) && TrustFeasible(pr, p)
      {
        ChainsKeep(g, pr, o, optimum, p);
      }
    } else {
      FanInBreaksLatency(g, order);
      FanInBreaksTrust(g, order);
    }
  }

  // ---------------------------------------------------------------- the promise of find_placement

  // Where each node has room for all the stages that fit it, every answer is feasible.
  ghost predicate KeepsPromise(g: Graph) {
    forall pr, order, optimum, p ::
      AnswerOn(g, pr, order, optimum, p) && NonNegativeDemands(pr) && RoomForAll(pr) ==> Accepted(pr, p)
  }

  // The checker accepts p.
  ghost predicate Accepted(pr: Problem, p: Placement) {
    ValidProblem(pr) && Assigns(pr, p) && Feasible(pr, p)
  }

  lemma NetworkRoomy(g: Graph, order: seq<StageId>, x: Terms)
    requires WellFormed(g) && IsTopoOrder(g, order)
    ensures NonNegativeDemands(Network(g, order, x)) && RoomForAll(Network(g, order, x))
  {
    var pr := Network(g, order, x);
    NetworkValid(g, order, x);
    hide ValidProblem, NodeIds, GetNode, WellFormed, IsTopoOrder, Fits, Side;
    forall n | n in NodeIds(pr.t) ensures Sum(pr.g.ids, FittingOn(pr, n)) <= GetNode(pr.t, n).Residual() + TOLERANCE {
      SumZero(pr.g.ids, FittingOn(pr, n));
      assert GetNode(pr.t, n) in Nodes();
    }
  }

  lemma FanInBreaksPromise(g: Graph, order: seq<StageId>)
    requires WellFormed(g) && InTree(g) && IsTopoOrder(g, order) && !NoFanIn(g)
    ensures !KeepsPromise(g)
  {
    FarBounds(g.edges);
    var x := Distant(g);
    var p := AnswerExists(g, order, x);
    FanInBreaks(g, order, x, order, OnSides(g, order), p);
    NetworkRoomy(g, order, x);
    hide AnswerOn, Network, OnSides, LatencyFeasible, InTree, NoFanIn, WellFormed, IsTopoOrder, RoomForAll;
    hide CapacityFeasible, TrustFeasible, SovereigntyFeasible, SliceFeasible, NonNegativeDemands;
  }

  lemma ChainsKeepPromise(g: Graph, pr: Problem, order: seq<StageId>, optimum: Placement, p: Placement)
    requires InTree(g) && NoFanIn(g) && AnswerOn(g, pr, order, optimum, p) && NonNegativeDemands(pr) && RoomForAll(pr)
    ensures Accepted(pr, p)
  {
    var s :| IsOnlySink(g, s);
    hide ValidProblem, SpreadOptimum, Feasible, RoomForAll, NonNegativeDemands;
    assert IsOnlySink(pr.g, s);
    ChainResultAccepted(pr, order, optimum, p);
  }

  // With room on the nodes find_placement keeps its promise to all in-trees of a shape
  // exactly when the shape has no fan-in.
  lemma PromiseIffNoFanIn(g: Graph, order: seq<StageId>)
    requires WellFormed(g) && InTree(g) && IsTopoOrder(g, order)
    ensures KeepsPromise(g) <==> NoFanIn(g)
  {
    if NoFanIn(g) {
      hide InTree, NoFanIn, WellFormed, IsTopoOrder, AnswerOn, Feasible, RoomForAll, NonNegativeDemands;
      forall pr, o, optimum, p | AnswerOn(g, pr, o, optimum, p) && NonNegativeDemands(pr) && RoomForAll(pr)
        ensures Accepted(pr, p)
      {
        ChainsKeepPromise(g, pr, o, optimum, p);
      }
    } else {
      FanInBreaksPromise(g, order);
    }
  }
}
