// When the greedy pass gets stuck although a feasible placement exists: the exact
// condition on the pipeline.
module GreedyCompleteness {
  import opened Wrappers
  import opened Minima
  import opened Sequences
  import opened Graphs
  import opened Topologies
  import opened Feasibility
  import opened TreeOptimality
  import opened Greedy
  import opened Samples

  // ---------------------------------------------------------------- choices that cost nothing

  lemma NothingToPay(pr: Problem, p: Placement, s: StageId, n: NodeId)
    requires pr.w == FREE_OF_CHARGE && s in pr.g.stages && n in NodeIds(pr.t)
    ensures Increment(pr, p, s, n) == 0.0
  {}

  // The first node is chosen if it is feasible.
  lemma FirstTaken(pr: Problem, p: Placement, s: StageId)
    requires ValidProblem(pr) && Assigns(pr, p) && s in pr.g.stages && pr.w == FREE_OF_CHARGE && pr.t.nodes != []
    requires NodeIds(pr.t)[0] in NodeIds(pr.t) && NodeFeasible(pr, p, s, NodeIds(pr.t)[0])
    ensures GreedyChoice(pr, p, s, NodeIds(pr.t)[0])
  {
    var scores := Scores(pr, p, s);
    hide NodeFeasible, Increment, ValidProblem;
    forall i | 0 <= i < |scores| ensures scores[i].Fin? ==> scores[i].r == 0.0 {
      NothingToPay(pr, p, s, NodeIds(pr.t)[i]);
    }
    assert scores[0].Fin?;
    ArgMinLeast(scores);
  }

  // So is the only feasible node.
  lemma OnlyTaken(pr: Problem, p: Placement, s: StageId, n: NodeId)
    requires ValidProblem(pr) && Assigns(pr, p) && s in pr.g.stages && n in NodeIds(pr.t)
    requires forall m :: m in NodeIds(pr.t) ==> (NodeFeasible(pr, p, s, m) <==> m == n)
    ensures GreedyChoice(pr, p, s, n)
  {
    var scores := Scores(pr, p, s);
    hide NodeFeasible, Increment, ValidProblem;
    assert scores[IndexOf(NodeIds(pr.t), n)].Fin?;
    ArgMinLeast(scores);
  }

  // ---------------------------------------------------------------- a node of its own for each stage and one far away

  // Node ids that differ from the far node's.
  function Own(s: StageId): NodeId {
    "n" + s
  }

  const REMOTE: NodeId := "remote"

  lemma NamesApart(s: StageId, t: StageId)
    ensures Own(s) != REMOTE && Own(s) != "flat" && (Own(s) == Own(t) ==> s == t)
  {
    assert Own(s)[0] == 'n' && REMOTE[0] == 'r' && "flat"[0] == 'f';
    assert Own(s)[1..] == s && Own(t)[1..] == t;
  }

  // Nothing is demanded; all but the stray only run on their own node.
  function IdleStage(s: StageId, stray: StageId): Stage {
    Stage(s, "", 0.0, if s == stray then None else Some(Own(s)), None)
  }

  function Node(n: NodeId): Unit {
    Unit(n, "", n, 0.0, 0.0, None)
  }

  function Names(ids: seq<StageId>): seq<NodeId> {
    [REMOTE] + seq(|ids|, i requires 0 <= i < |ids| => Own(ids[i]))
  }

  function Nodes(ids: seq<StageId>): seq<Unit> {
    seq(|ids| + 1, i requires 0 <= i <= |ids| => Node(Names(ids)[i]))
  }

  function Span(es: seq<Edge>, a: NodeId, b: NodeId): real {
    if a == REMOTE || b == REMOTE then Far(es) else Near(es)
  }

  // The pipeline g, idle and free of charge, on that network.
  function Strayed(g: Graph, stray: StageId): Problem {
    var names := Names(g.ids);
    Problem(Graph(g.ids, map s | s in g.ids :: IdleStage(s, stray), g.edges),
            Topology(Nodes(g.ids), map a, b | a in names && b in names :: (a, b) := Span(g.edges, a, b)),
            Governance({}, map[]), FREE_OF_CHARGE)
  }

  lemma StrayedNames(ids: seq<StageId>)
    requires Distinct(ids)
    ensures Distinct(Names(ids)) && REMOTE in Names(ids)
    ensures forall s :: s in ids ==> Own(s) in Names(ids)
    ensures forall n :: n in Names(ids) ==> n == REMOTE || exists s :: s in ids && n == Own(s)
  {
    var names := Names(ids);
    forall i, j | 0 <= i < j < |names| ensures names[i] != names[j] {
      if i == 0 { NamesApart(ids[j-1], ids[j-1]); } else { NamesApart(ids[i-1], ids[j-1]); }
    }
    assert names[0] == REMOTE;
    forall s | s in ids ensures Own(s) in names { assert names[IndexOf(ids, s) + 1] == Own(s); }
    forall n | n in names ensures n == REMOTE || exists s :: s in ids && n == Own(s) {
      var i :| 0 <= i < |names| && names[i] == n;
      if i > 0 { assert ids[i-1] in ids; }
    }
  }

  lemma StrayedNodes(g: Graph, stray: StageId)
    requires Distinct(g.ids)
    ensures var t := Strayed(g, stray).t;
      NodeIds(t) == Names(g.ids) && forall n :: n in NodeIds(t) ==> GetNode(t, n) == Node(n)
  {
    var t := Strayed(g, stray).t;
    StrayedNames(g.ids);
    assert NodeIds(t) == Names(g.ids);
    hide Names;
    forall n | n in NodeIds(t) ensures GetNode(t, n) == Node(n) { GetNodeAt(t, IndexOf(NodeIds(t), n)); }
  }

  lemma StrayedTopology(g: Graph, stray: StageId)
    requires Distinct(g.ids)
    ensures ValidTopology(Strayed(g, stray).t)
  {
    var t := Strayed(g, stray).t;
    StrayedNames(g.ids);
    StrayedNodes(g, stray);
    hide Names, GetNode, NodeIds, Near, Far;
    forall a, b | a in NodeIds(t) && b in NodeIds(t) ensures HasLatency(t, a, b) { assert (a, b) in t.latency; }
    forall a, b | (a, b) in t.latency && (b, a) in t.latency ensures t.latency[(a, b)] == t.latency[(b, a)] {
      assert Span(g.edges, a, b) == Span(g.edges, b, a);
    }
  }

  lemma StrayedGraph(g: Graph, stray: StageId)
    requires WellFormed(g)
    ensures WellFormed(Strayed(g, stray).g)
  {
    assert Strayed(g, stray).g.stages.Keys == ToSet(g.ids);
  }

  lemma StrayedValid(g: Graph, stray: StageId)
    requires WellFormed(g)
    ensures ValidProblem(Strayed(g, stray))
  {
    StrayedTopology(g, stray);
    StrayedGraph(g, stray);
    hide ValidTopology, Strayed;
  }

  lemma StrayedFits(g: Graph, stray: StageId, s: StageId, n: NodeId)
    requires WellFormed(g) && s in g.ids && n in Names(g.ids)
    ensures var pr := Strayed(g, stray); s in pr.g.stages && n in NodeIds(pr.t)
    ensures var pr := Strayed(g, stray);
      FitsAlone(pr.g.stages[s], GetNode(pr.t, n), pr.gov) <==> s == stray || n == Own(s)
  {
    StrayedNodes(g, stray);
    StrayedNames(g.ids);
    NamesApart(s, s);
    NotFlat(g.ids, n);
    hide Names, GetNode, NodeIds, Own, WellFormed;
  }

  lemma NotFlat(ids: seq<StageId>, n: NodeId)
    requires n in Names(ids)
    ensures n != "flat"
  {
    var i :| 0 <= i < |Names(ids)| && Names(ids)[i] == n;
    assert n[0] == 'n' || n[0] == 'r';
    assert "flat"[0] == 'f';
  }

  // All nodes are in one domain and nothing is ever booked.
  lemma StrayedTrust(g: Graph, stray: StageId, p: Placement, a: NodeId, b: NodeId)
    requires WellFormed(g) && a in Names(g.ids) && b in Names(g.ids)
    ensures var pr := Strayed(g, stray);
      && a in NodeIds(pr.t) && b in NodeIds(pr.t) && HasLatency(pr.t, a, b) && TrustHolds(pr, a, b)
      && NodeLoad(pr, p, a) == 0.0
      && (a != b ==> Latency(pr.t, a, b) == Span(g.edges, a, b))
  {
    var pr := Strayed(g, stray);
    StrayedNodes(g, stray);
    hide Names, GetNode, NodeIds, Own, WellFormed, Span;
    SumZero(pr.g.ids, LoadOn(pr, p, a));
  }

  // ---------------------------------------------------------------- the greedy run goes astray

  // Where the greedy pass puts a stage.
  function Host(stray: StageId, s: StageId): NodeId {
    if s == stray then REMOTE else Own(s)
  }

  function Hosted(stray: StageId, xs: seq<StageId>): Placement {
    map s | s in xs :: Host(stray, s)
  }

  lemma HostedAssigns(g: Graph, stray: StageId, xs: seq<StageId>)
    requires WellFormed(g) && forall s :: s in xs ==> s in g.ids
    ensures Assigns(Strayed(g, stray), Hosted(stray, xs)) && Hosted(stray, xs).Keys == ToSet(xs)
  {
    StrayedNodes(g, stray);
    StrayedNames(g.ids);
    hide Names, NodeIds, GetNode, WellFormed, Own;
  }

  // The stages before the k-th have no predecessors, the k-th has some.
  ghost predicate FirstFed(g: Graph, order: seq<StageId>, k: nat) {
    k < |order| && Preds(g.edges, order[k]) != [] && forall i :: 0 <= i < k ==> Preds(g.edges, order[i]) == []
  }

  lemma SomeFirstFed(g: Graph, order: seq<StageId>) returns (k: nat)
    requires IsTopoOrder(g, order) && g.edges != []
    ensures FirstFed(g, order, k)
  {
    var e := g.edges[0];
    assert e in g.edges;
    assert HasEdge(g.edges, e.source, e.target);
    Adjacent(g.edges, e.source, e.target);
    var last := IndexOf(order, e.target);
    k := 0;
    while Preds(g.edges, order[k]) == []
      invariant 0 <= k <= last < |order|
      invariant forall i :: 0 <= i < k ==> Preds(g.edges, order[i]) == []
      decreases last - k
    {
      k := k + 1;
    }
  }

  // No successor is placed before its predecessor.
  lemma NoSuccessorYet(g: Graph, order: seq<StageId>, j: nat, c: StageId)
    requires IsTopoOrder(g, order) && j < |order| && c in Succs(g.edges, order[j])
    ensures c !in order[..j]
  {
    Adjacent(g.edges, order[j], c);
    TopoEdge(g, order, order[j], c);
    IndexOfDistinct(order, j);
    forall i | 0 <= i < j ensures order[i] != c { IndexOfDistinct(order, i); }
  }

  // A stage without predecessors may go wherever it fits alone.
  lemma FreeToGo(g: Graph, order: seq<StageId>, stray: StageId, j: nat, n: NodeId)
    requires WellFormed(g) && IsTopoOrder(g, order) && j < |order| && Preds(g.edges, order[j]) == []
    requires n in Names(g.ids) && ValidProblem(Strayed(g, stray))
    requires Assigns(Strayed(g, stray), Hosted(stray, order[..j])) && order[j] in g.ids
    ensures var pr := Strayed(g, stray); order[j] in pr.g.stages && n in NodeIds(pr.t)
    ensures NodeFeasible(Strayed(g, stray), Hosted(stray, order[..j]), order[j], n)
      <==> order[j] == stray || n == Own(order[j])
  {
    var pr, p := Strayed(g, stray), Hosted(stray, order[..j]);
    StrayedFits(g, stray, order[j], n);
    StrayedTrust(g, stray, p, n, n);
    hide ValidProblem, WellFormed, IsTopoOrder, Names, FitsAlone, NodeIds, GetNode, NodeLoad, HopAllowed;
    forall c | c in Succs(pr.g.edges, order[j]) ensures SuccAllows(pr, order[j], n, p, c) {
      NoSuccessorYet(g, order, j, c);
    }
  }

  lemma HostTaken(g: Graph, order: seq<StageId>, stray: StageId, j: nat)
    requires WellFormed(g) && IsTopoOrder(g, order) && j < |order| && Preds(g.edges, order[j]) == []
    requires ValidProblem(Strayed(g, stray))
    requires Assigns(Strayed(g, stray), Hosted(stray, order[..j])) && order[j] in Strayed(g, stray).g.stages
    ensures GreedyChoice(Strayed(g, stray), Hosted(stray, order[..j]), order[j], Host(stray, order[j]))
  {
    var pr, p, s := Strayed(g, stray), Hosted(stray, order[..j]), order[j];
    StrayedNodes(g, stray);
    StrayedNames(g.ids);
    assert NodeIds(pr.t)[0] == REMOTE && pr.t.nodes != [];
    hide ValidProblem, WellFormed, IsTopoOrder, Names, NodeFeasible, GreedyChoice, NodeIds, GetNode, Own;
    if s == stray {
      FreeToGo(g, order, stray, j, REMOTE);
      FirstTaken(pr, p, s);
    } else {
      forall m | m in NodeIds(pr.t) ensures NodeFeasible(pr, p, s, m) <==> m == Own(s) {
        FreeToGo(g, order, stray, j, m);
      }
      OnlyTaken(pr, p, s, Own(s));
    }
  }

  lemma HostedRun(g: Graph, order: seq<StageId>, stray: StageId, k: nat)
    requires WellFormed(g) && IsTopoOrder(g, order) && FirstFed(g, order, k) && ValidProblem(Strayed(g, stray))
    ensures GreedyRun(Strayed(g, stray), order, k, Hosted(stray, order[..k]))
  {
    var pr, p := Strayed(g, stray), Hosted(stray, order[..k]);
    OrderKnown(g, order);
    HostedAssigns(g, stray, order[..k]);
    forall j | 0 <= j < k ensures ChosenAt(pr, order, j, p) {
      HostedAssigns(g, stray, order[..j]);
      assert order[..j] <= order[..k] && order[..k][j] == order[j];
      assert Restrict(p, order[..j]) == Hosted(stray, order[..j]);
      HostTaken(g, order, stray, j);
    }
  }

  lemma OrderKnown(g: Graph, order: seq<StageId>)
    requires IsTopoOrder(g, order)
    ensures forall s :: s in order ==> s in g.ids
  {
    forall s | s in order ensures s in g.ids { assert s in ToSet(order); }
  }

  // The first stage with a predecessor cannot reach it from its own node.
  lemma StrayedStuck(g: Graph, order: seq<StageId>, k: nat, stray: StageId)
    requires WellFormed(g) && IsTopoOrder(g, order) && FirstFed(g, order, k)
    requires stray in Preds(g.edges, order[k]) && ValidProblem(Strayed(g, stray))
    ensures GreedyStuck(Strayed(g, stray), order, k, Hosted(stray, order[..k]))
  {
    HostedRun(g, order, stray, k);
    StrayBefore(g, order, k, stray);
    OrderKnown(g, order);
    StrayedNodes(g, stray);
    hide ValidProblem, WellFormed, IsTopoOrder, FirstFed, GreedyRun, NodeFeasible, NodeIds, Names, Hosted;
    forall n | n in NodeIds(Strayed(g, stray).t)
      ensures !NodeFeasible(Strayed(g, stray), Hosted(stray, order[..k]), order[k], n)
    {
      NoWay(g, order, k, stray, n);
    }
  }

  lemma StrayBefore(g: Graph, order: seq<StageId>, k: nat, stray: StageId)
    requires IsTopoOrder(g, order) && k < |order| && stray in Preds(g.edges, order[k])
    ensures stray in order[..k] && stray != order[k] && GetEdge(g.edges, stray, order[k]).Some?
  {
    Adjacent(g.edges, stray, order[k]);
    TopoEdge(g, order, stray, order[k]);
    IndexOfDistinct(order, k);
    assert order[..k][IndexOf(order, stray)] == stray;
  }

  lemma NoWay(g: Graph, order: seq<StageId>, k: nat, stray: StageId, n: NodeId)
    requires WellFormed(g) && IsTopoOrder(g, order) && k < |order| && order[k] in g.ids
    requires stray in Preds(g.edges, order[k]) && n in Names(g.ids) && ValidProblem(Strayed(g, stray))
    requires Assigns(Strayed(g, stray), Hosted(stray, order[..k]))
    ensures var pr := Strayed(g, stray); order[k] in pr.g.stages && n in NodeIds(pr.t)
    ensures !NodeFeasible(Strayed(g, stray), Hosted(stray, order[..k]), order[k], n)
  {
    var pr, p, v := Strayed(g, stray), Hosted(stray, order[..k]), order[k];
    StrayBefore(g, order, k, stray);
    StrayedFits(g, stray, v, n);
    StrayedNames(g.ids);
    NamesApart(v, v);
    StrayedTrust(g, stray, p, REMOTE, n);
    FarBounds(g.edges);
    hide ValidProblem, WellFormed, IsTopoOrder, Names, FitsAlone, NodeIds, GetNode, NodeLoad, Own;
    if n == Own(v) {
      assert p[stray] == REMOTE;
      assert !PredAllows(pr, v, n, p, stray);
    }
  }

  // ---------------------------------------------------------------- and yet everything fits at home

  function OwnPlaces(g: Graph): Placement {
    map s | s in g.ids :: Own(s)
  }

  lemma OwnFeasible(g: Graph, order: seq<StageId>, stray: StageId)
    requires WellFormed(g) && IsTopoOrder(g, order)
    ensures var pr := Strayed(g, stray);
      ValidProblem(pr) && Total(pr, OwnPlaces(g)) && Feasible(pr, OwnPlaces(g))
  {
    var pr, p := Strayed(g, stray), OwnPlaces(g);
    StrayedValid(g, stray);
    OwnTotal(g, stray);
    OwnAllowed(g, order, stray);
    OwnRoom(g, stray);
    hide *;
    TreeFeasibleIffCapacity(pr, p);
  }

  lemma OwnTotal(g: Graph, stray: StageId)
    requires WellFormed(g)
    ensures Total(Strayed(g, stray), OwnPlaces(g))
  {
    StrayedNames(g.ids);
    StrayedNodes(g, stray);
    hide Names, NodeIds, GetNode, Own;
  }

  lemma OwnRoom(g: Graph, stray: StageId)
    requires WellFormed(g) && Assigns(Strayed(g, stray), OwnPlaces(g))
    ensures CapacityFeasible(Strayed(g, stray), OwnPlaces(g))
  {
    var pr, p := Strayed(g, stray), OwnPlaces(g);
    StrayedNames(g.ids);
    StrayedNodes(g, stray);
    hide Names, NodeIds, GetNode, Own, NodeLoad, WellFormed;
    forall s | s in p ensures NodeLoad(pr, p, p[s]) <= GetNode(pr.t, p[s]).Residual() + TOLERANCE {
      StrayedTrust(g, stray, p, p[s], p[s]);
    }
  }

  lemma OwnAllowed(g: Graph, order: seq<StageId>, stray: StageId)
    requires WellFormed(g) && IsTopoOrder(g, order)
    requires ValidProblem(Strayed(g, stray)) && Total(Strayed(g, stray), OwnPlaces(g))
    ensures TreeFeasible(Strayed(g, stray), OwnPlaces(g))
  {
    var pr, p := Strayed(g, stray), OwnPlaces(g);
    assert pr.g.edges == g.edges;
    forall s | s in p ensures FitsAlone(StageOf(pr, s), GetNode(pr.t, p[s]), pr.gov) {
      hide *;
      OwnFits(g, stray, s);
    }
    hide ValidProblem, WellFormed, IsTopoOrder, NodeIds, GetNode, Own, FitsAlone, EdgeAllowed, Strayed, Total;
    forall e | e in pr.g.edges ensures EdgeAllowed(pr, p, e) { OwnHop(g, order, stray, e); }
  }

  lemma OwnFits(g: Graph, stray: StageId, s: StageId)
    requires WellFormed(g) && s in OwnPlaces(g)
    ensures var pr := Strayed(g, stray); s in pr.g.stages && OwnPlaces(g)[s] in NodeIds(pr.t)
    ensures var pr := Strayed(g, stray);
      FitsAlone(pr.g.stages[s], GetNode(pr.t, OwnPlaces(g)[s]), pr.gov)
  {
    StrayedNames(g.ids);
    hide Names, NodeIds, GetNode, Own, WellFormed, FitsAlone, Strayed;
    StrayedFits(g, stray, s, Own(s));
  }

  lemma OwnHop(g: Graph, order: seq<StageId>, stray: StageId, e: Edge)
    requires WellFormed(g) && IsTopoOrder(g, order) && e in g.edges
    requires ValidProblem(Strayed(g, stray)) && Assigns(Strayed(g, stray), OwnPlaces(g))
    ensures EdgeAllowed(Strayed(g, stray), OwnPlaces(g), e)
  {
    var pr, p, u, v := Strayed(g, stray), OwnPlaces(g), e.source, e.target;
    assert u in g.ids && v in g.ids && u != v;
    StrayedNames(g.ids);
    StrayedTrust(g, stray, p, Own(u), Own(v));
    NamesApart(u, v);
    NamesApart(v, u);
    NearBounds(g.edges);
    hide ValidProblem, WellFormed, IsTopoOrder, Names, NodeIds, GetNode, Own, TrustHolds, Latency;
    hide NodeLoad, Near, Assigns;
  }

  // ---------------------------------------------------------------- two stages compete for a node

  // Only the two stages demand anything, the second one runs on node B alone.
  function Rival(s: StageId, a: StageId, b: StageId): Stage {
    Stage(s, "", if s == a || s == b then 1.0 else 0.0, if s == b then Some(NODE_B) else None, None)
  }

  // Either node takes one of them.
  function RivalNode(n: NodeId): Unit {
    Unit(n, "", n, 1.0, 0.0, None)
  }

  function Crowded(g: Graph, a: StageId, b: StageId): Problem {
    Problem(Graph(g.ids, map s | s in g.ids :: Rival(s, a, b), g.edges),
            Topology([RivalNode(NODE_B), RivalNode(NODE_A)], map[(NODE_A, NODE_B) := 0.0]),
            Governance({}, map[]), FREE_OF_CHARGE)
  }

  // a makes way for b.
  function Apart(g: Graph, a: StageId): Placement {
    map s | s in g.ids :: if s == a then NODE_A else NODE_B
  }

  lemma CrowdedValid(g: Graph, a: StageId, b: StageId)
    requires WellFormed(g)
    ensures var pr := Crowded(g, a, b);
      && ValidProblem(pr) && NodeIds(pr.t) == [NODE_B, NODE_A] && pr.g.stages.Keys == ToSet(g.ids)
      && GetNode(pr.t, NODE_A) == RivalNode(NODE_A) && GetNode(pr.t, NODE_B) == RivalNode(NODE_B)
  {
    NamesDiffer();
    var pr := Crowded(g, a, b);
    assert NodeIds(pr.t) == [NODE_B, NODE_A];
    assert pr.g.stages.Keys == ToSet(g.ids);
    GetNodeAt(pr.t, 0);
    GetNodeAt(pr.t, 1);
  }

  lemma RivalFits(g: Graph, a: StageId, b: StageId, s: StageId, n: NodeId)
    requires WellFormed(g) && s in g.ids && n in [NODE_B, NODE_A] && a != b
    ensures var pr := Crowded(g, a, b); s in pr.g.stages && n in NodeIds(pr.t)
    ensures var pr := Crowded(g, a, b); FitsAlone(pr.g.stages[s], GetNode(pr.t, n), pr.gov) <==> s != b || n == NODE_B
  {
    NamesDiffer();
    CrowdedValid(g, a, b);
    assert NODE_A[0] != "flat"[0];
    hide GetNode, NodeIds, WellFormed;
  }

  lemma NoEdgesNoNeighbours(es: seq<Edge>, s: StageId)
    requires es == []
    ensures Preds(es, s) == [] && Succs(es, s) == []
  {}

  // The greedy pass puts a on node B first.
  lemma RivalTaken(g: Graph, a: StageId, b: StageId)
    requires WellFormed(g) && g.edges == [] && a in g.ids && a != b
    ensures var pr := Crowded(g, a, b); ValidProblem(pr) && a in pr.g.stages && GreedyChoice(pr, map[], a, NODE_B)
  {
    var pr: Problem, none: Placement := Crowded(g, a, b), map[];
    CrowdedValid(g, a, b);
    RivalFits(g, a, b, a, NODE_B);
    NoEdgesNoNeighbours(pr.g.edges, a);
    SumZero(pr.g.ids, LoadOn(pr, none, NODE_B));
    hide ValidProblem, WellFormed, GetNode, FitsAlone, GreedyChoice;
    FirstTaken(pr, none, a);
  }

  lemma RivalRun(g: Graph, order: seq<StageId>)
    requires WellFormed(g) && IsTopoOrder(g, order) && g.edges == [] && |order| >= 2
    ensures var pr := Crowded(g, order[0], order[1]);
      ValidProblem(pr) && GreedyRun(pr, order, 1, map[order[0] := NODE_B])
  {
    OrderKnown(g, order);
    CrowdedValid(g, order[0], order[1]);
    RivalTaken(g, order[0], order[1]);
    FirstOfRun(Crowded(g, order[0], order[1]), order, NODE_B);
  }

  lemma FirstOfRun(pr: Problem, order: seq<StageId>, n: NodeId)
    requires ValidProblem(pr) && order != [] && order[0] in pr.g.stages && n in NodeIds(pr.t)
    requires GreedyChoice(pr, map[], order[0], n)
    ensures GreedyRun(pr, order, 1, map[order[0] := n])
  {
    hide ValidProblem, GreedyChoice, NodeIds;
    var p := map[order[0] := n];
    assert order[..0] == [] && order[..1] == [order[0]];
    assert Restrict(p, order[..0]) == map[];
    assert ChosenAt(pr, order, 0, p);
  }

  // Then neither node is feasible for b.
  lemma RivalStuck(g: Graph, order: seq<StageId>)
    requires WellFormed(g) && IsTopoOrder(g, order) && g.edges == [] && |order| >= 2
    ensures var pr := Crowded(g, order[0], order[1]);
      ValidProblem(pr) && GreedyStuck(pr, order, 1, map[order[0] := NODE_B])
  {
    var a, b := order[0], order[1];
    var pr, p := Crowded(g, a, b), map[a := NODE_B];
    OrderKnown(g, order);
    RivalRun(g, order);
    CrowdedValid(g, a, b);
    SumOne(g.ids, a, LoadOn(pr, p, NODE_B));
    hide ValidProblem, WellFormed, GetNode, GreedyRun, IsTopoOrder, FitsAlone, NodeIds;
    forall n | n in NodeIds(pr.t) ensures !NodeFeasible(pr, p, b, n) { RivalFits(g, a, b, b, n); }
  }

  lemma RivalLoads(g: Graph, a: StageId, b: StageId)
    requires WellFormed(g) && a in g.ids && b in g.ids && a != b
    ensures var pr, q := Crowded(g, a, b), Apart(g, a); NodeLoad(pr, q, NODE_A) == 1.0 && NodeLoad(pr, q, NODE_B) == 1.0
  {
    NamesDiffer();
    var pr, q := Crowded(g, a, b), Apart(g, a);
    SumOne(g.ids, a, LoadOn(pr, q, NODE_A));
    SumOne(g.ids, b, LoadOn(pr, q, NODE_B));
  }

  lemma ApartFeasible(g: Graph, a: StageId, b: StageId)
    requires WellFormed(g) && g.edges == [] && a in g.ids && b in g.ids && a != b
    ensures var pr := Crowded(g, a, b); ValidProblem(pr) && Total(pr, Apart(g, a)) && Feasible(pr, Apart(g, a))
  {
    CrowdedValid(g, a, b);
    ApartTotal(g, a, b);
    EdgesNone(g, a, b);
    hide *;
    forall s | s in Apart(g, a) ensures StageSits(Crowded(g, a, b), Apart(g, a), s) { ApartStage(g, a, b, s); }
    FeasibleWithoutEdges(Crowded(g, a, b), Apart(g, a));
  }

  lemma ApartTotal(g: Graph, a: StageId, b: StageId)
    requires WellFormed(g)
    ensures Total(Crowded(g, a, b), Apart(g, a))
  {
    CrowdedValid(g, a, b);
    hide GetNode, NodeIds;
  }

  lemma EdgesNone(g: Graph, a: StageId, b: StageId)
    requires g.edges == []
    ensures Crowded(g, a, b).g.edges == []
  {}

  // s fits its node alone, and the node has room for all its load.
  ghost predicate StageSits(pr: Problem, q: Placement, s: StageId) {
    && s in q && s in pr.g.stages && q[s] in NodeIds(pr.t)
    && FitsAlone(pr.g.stages[s], GetNode(pr.t, q[s]), pr.gov)
    && NodeLoad(pr, q, q[s]) <= GetNode(pr.t, q[s]).Residual() + TOLERANCE
  }

  lemma FeasibleWithoutEdges(pr: Problem, q: Placement)
    requires ValidProblem(pr) && pr.g.edges == [] && Total(pr, q) && forall s :: s in q ==> StageSits(pr, q, s)
    ensures Feasible(pr, q)
  {
    hide ValidProblem, NodeLoad, GetNode, NodeIds, Feasible;
    TreeFeasibleIffCapacity(pr, q);
  }

  lemma ApartStage(g: Graph, a: StageId, b: StageId, s: StageId)
    requires WellFormed(g) && a in g.ids && b in g.ids && a != b && s in Apart(g, a)
    ensures StageSits(Crowded(g, a, b), Apart(g, a), s)
  {
    CrowdedValid(g, a, b);
    RivalLoads(g, a, b);
    RivalFits(g, a, b, s, Apart(g, a)[s]);
    hide NodeIds, GetNode, WellFormed, FitsAlone, NodeLoad;
  }

  // ---------------------------------------------------------------- the exact conditions

  // The greedy pass gives up on pr, which has the stage ids and edges of g, although q is feasible.
  ghost predicate Missed(g: Graph, order: seq<StageId>, pr: Problem, k: nat, p: Placement, q: Placement) {
    && pr.g.ids == g.ids && pr.g.edges == g.edges && ValidProblem(pr)
    && GreedyStuck(pr, order, k, p) && Total(pr, q) && Feasible(pr, q)
  }

  // An error always means that nothing is feasible: whatever the stages, the network, the
  // rules and the weights.
  ghost predicate NeverMisses(g: Graph, order: seq<StageId>) {
    forall pr, k, p, q :: !Missed(g, order, pr, k, p, q)
  }

  ghost predicate DemandsNothing(pr: Problem) {
    forall s :: s in pr.g.stages ==> pr.g.stages[s].demand == 0.0
  }

  // The same for stages that demand nothing, so that only edges stand between them.
  ghost predicate IdleNeverMisses(g: Graph, order: seq<StageId>) {
    forall pr, k, p, q :: DemandsNothing(pr) ==> !Missed(g, order, pr, k, p, q)
  }

  // A stage of a feasible placement is feasible for the greedy pass if no edge is in the
  // way and nothing is booked.
  lemma FeasibleFitsAlone(pr: Problem, p: Placement, q: Placement, s: StageId)
    requires ValidProblem(pr) && Assigns(pr, p) && Total(pr, q) && Feasible(pr, q) && s in pr.g.stages
    requires pr.g.edges == [] && NodeLoad(pr, p, q[s]) == 0.0 && NodeLoad(pr, q, q[s]) == pr.g.stages[s].demand
    ensures q[s] in NodeIds(pr.t) && NodeFeasible(pr, p, s, q[s])
  {
    NoEdgesNoNeighbours(pr.g.edges, s);
    hide ValidProblem, NodeLoad, GetNode;
    assert s in q;
  }

  lemma IdleWithoutEdges(g: Graph, order: seq<StageId>, pr: Problem, k: nat, p: Placement, q: Placement)
    requires g.edges == [] && DemandsNothing(pr)
    ensures !Missed(g, order, pr, k, p, q)
  {
    if Missed(g, order, pr, k, p, q) {
      var s := order[k];
      SumZero(pr.g.ids, LoadOn(pr, p, q[s]));
      SumZero(pr.g.ids, LoadOn(pr, q, q[s]));
      FeasibleFitsAlone(pr, p, q, s);
      assert false;
    }
  }

  lemma OneStage(g: Graph, order: seq<StageId>, pr: Problem, k: nat, p: Placement, q: Placement)
    requires WellFormed(g) && IsTopoOrder(g, order) && |order| == |g.ids| <= 1
    ensures !Missed(g, order, pr, k, p, q)
  {
    if Missed(g, order, pr, k, p, q) {
      NoRoomForEdges(g, order);
      var s := order[k];
      LoneStage(pr, order, k, p, q);
      FeasibleFitsAlone(pr, p, q, s);
      hide ValidProblem, NodeFeasible, WellFormed, IsTopoOrder, Feasible;
      assert false;
    }
  }

  lemma LoneStage(pr: Problem, order: seq<StageId>, k: nat, p: Placement, q: Placement)
    requires ValidProblem(pr) && |order| == 1 && ToSet(order) == ToSet(pr.g.ids)
    requires k < |order| && GreedyRun(pr, order, k, p) && Total(pr, q)
    ensures var s := order[k];
      && s in pr.g.stages && s in q && NodeLoad(pr, p, q[s]) == 0.0 && NodeLoad(pr, q, q[s]) == pr.g.stages[s].demand
  {
    var s := order[k];
    assert ToSet(order[..k]) == {};
    assert ToSet(order) == {s};
    OnlyLoad(pr, s, p, q);
  }

  lemma OnlyLoad(pr: Problem, s: StageId, p: Placement, q: Placement)
    requires WellFormed(pr.g) && ToSet(pr.g.ids) == {s} && p.Keys == {} && s in q
    ensures s in pr.g.stages && NodeLoad(pr, p, q[s]) == 0.0 && NodeLoad(pr, q, q[s]) == pr.g.stages[s].demand
  {
    forall u | u in pr.g.ids ensures u == s { assert u in ToSet(pr.g.ids); }
    SumZero(pr.g.ids, LoadOn(pr, p, q[s]));
    assert s in ToSet(pr.g.ids);
    SumOne(pr.g.ids, s, LoadOn(pr, q, q[s]));
  }

  lemma EdgeNeedsTwo(g: Graph, order: seq<StageId>, e: Edge)
    requires WellFormed(g) && IsTopoOrder(g, order) && e in g.edges
    ensures |g.ids| >= 2
  {
    assert e.source in g.ids && e.target in g.ids && e.source != e.target;
  }

  lemma NoRoomForEdges(g: Graph, order: seq<StageId>)
    requires WellFormed(g) && IsTopoOrder(g, order) && |g.ids| <= 1
    ensures g.edges == []
  {
    hide WellFormed, IsTopoOrder;
    if g.edges != [] {
      EdgeNeedsTwo(g, order, g.edges[0]);
    }
  }

  lemma StrayedMissed(g: Graph, order: seq<StageId>, k: nat, stray: StageId)
    requires WellFormed(g) && IsTopoOrder(g, order) && FirstFed(g, order, k) && stray in Preds(g.edges, order[k])
    ensures DemandsNothing(Strayed(g, stray))
    ensures Missed(g, order, Strayed(g, stray), k, Hosted(stray, order[..k]), OwnPlaces(g))
  {
    StrayedValid(g, stray);
    StrayedStuck(g, order, k, stray);
    OwnFeasible(g, order, stray);
    StrayedIdle(g, stray);
    hide *;
    MissedHere(g, order, Strayed(g, stray), k, Hosted(stray, order[..k]), OwnPlaces(g));
  }

  lemma StrayedIdle(g: Graph, stray: StageId)
    ensures var pr := Strayed(g, stray); pr.g.ids == g.ids && pr.g.edges == g.edges && DemandsNothing(pr)
  {}

  lemma MissedHere(g: Graph, order: seq<StageId>, pr: Problem, k: nat, p: Placement, q: Placement)
    requires pr.g.ids == g.ids && pr.g.edges == g.edges && ValidProblem(pr)
    requires GreedyStuck(pr, order, k, p) && Total(pr, q) && Feasible(pr, q)
    ensures Missed(g, order, pr, k, p, q)
  {}

  // With an edge, some idle stages are missed.
  lemma EdgesMissed(g: Graph, order: seq<StageId>)
    requires WellFormed(g) && IsTopoOrder(g, order) && g.edges != []
    ensures !IdleNeverMisses(g, order) && !NeverMisses(g, order)
  {
    var k := SomeFirstFed(g, order);
    StrayedMissed(g, order, k, Preds(g.edges, order[k])[0]);
    hide Missed, WellFormed, IsTopoOrder, Strayed, DemandsNothing;
  }

  lemma RivalsMissed(g: Graph, order: seq<StageId>)
    requires WellFormed(g) && IsTopoOrder(g, order) && g.edges == [] && |order| >= 2
    ensures !NeverMisses(g, order)
  {
    var a, b := order[0], order[1];
    OrderKnown(g, order);
    RivalStuck(g, order);
    ApartFeasible(g, a, b);
    hide ValidProblem, WellFormed, IsTopoOrder, GreedyStuck, Feasible, Total;
    assert Missed(g, order, Crowded(g, a, b), 1, map[a := NODE_B], Apart(g, a));
  }

  // Of idle stages the greedy pass misses no feasible placement exactly when the pipeline
  // has no edge.
  lemma IdleMissesIffEdges(g: Graph, order: seq<StageId>)
    requires WellFormed(g) && IsTopoOrder(g, order)
    ensures IdleNeverMisses(g, order) <==> g.edges == []
  {
    if g.edges == [] {
      forall pr, k: nat, p, q | DemandsNothing(pr) ensures !Missed(g, order, pr, k, p, q) {
        IdleWithoutEdges(g, order, pr, k, p, q);
      }
    } else {
      EdgesMissed(g, order);
    }
  }

  // In general it misses none exactly when there is at most one stage.
  lemma NeverMissesIffOneStage(g: Graph, order: seq<StageId>)
    requires WellFormed(g) && IsTopoOrder(g, order)
    ensures NeverMisses(g, order) <==> |g.ids| <= 1
  {
    DistinctSize(order);
    DistinctSize(g.ids);
    if |g.ids| <= 1 {
      forall pr, k: nat, p, q ensures !Missed(g, order, pr, k, p, q) { OneStage(g, order, pr, k, p, q); }
    } else if g.edges == [] {
      RivalsMissed(g, order);
    } else {
      EdgesMissed(g, order);
    }
  }

  // So there is a network on which it fails for every graph that find_placement hands to it.
  lemma EveryGeneralGraphMissed(g: Graph, order: seq<StageId>)
    requires WellFormed(g) && IsTopoOrder(g, order) && g.ids != [] && !InTree(g)
    ensures !NeverMisses(g, order)
  {
    if |g.ids| == 1 {
      NoRoomForEdges(g, order);
      assert IsOnlySink(g, g.ids[0]);
      assert false;
    }
    NeverMissesIffOneStage(g, order);
  }
}
