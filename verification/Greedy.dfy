// Greedy placement of general graphs: stages in topological order, each on the
// feasible node with the smallest incremental cost, ties to the first node.
module Greedy {
  import opened Wrappers
  import opened Minima
  import opened Sequences
  import opened Graphs
  import opened Topologies
  import opened Feasibility

  // ---------------------------------------------------------------- one stage

  ghost predicate PredAllows(pr: Problem, s: StageId, n: NodeId, p: Placement, c: StageId)
    requires ValidProblem(pr) && Assigns(pr, p) && n in NodeIds(pr.t)
  {
    c in p ==> HopAllowed(pr, c, s, p[c], n)
  }

  ghost predicate SuccAllows(pr: Problem, s: StageId, n: NodeId, p: Placement, c: StageId)
    requires ValidProblem(pr) && Assigns(pr, p) && n in NodeIds(pr.t)
  {
    c in p ==> HopAllowed(pr, s, c, n, p[c])
  }

  // Load already booked on the node still leaves room; checked only once something is booked.
  predicate RoomLeft(stage: Stage, node: Unit, committed: real) {
    !(committed > 0.0 && stage.demand > node.Residual() - committed + TOLERANCE)
  }

  // s may be placed on node n, given the stages already placed by p.
  ghost predicate NodeFeasible(pr: Problem, p: Placement, s: StageId, n: NodeId)
    requires ValidProblem(pr) && Assigns(pr, p) && s in pr.g.stages && n in NodeIds(pr.t)
  {
    && FitsAlone(pr.g.stages[s], GetNode(pr.t, n), pr.gov)
    && RoomLeft(pr.g.stages[s], GetNode(pr.t, n), NodeLoad(pr, p, n))
    && (forall c :: c in Preds(pr.g.edges, s) ==> PredAllows(pr, s, n, p, c))
    && (forall c :: c in Succs(pr.g.edges, s) ==> SuccAllows(pr, s, n, p, c))
  }

  // _is_node_feasible
  method IsNodeFeasible(pr: Problem, s: StageId, node: Unit, p: Placement, booked: map<NodeId, real>) returns (r: bool)
    requires ValidProblem(pr) && Assigns(pr, p) && s in pr.g.stages && node in pr.t.nodes
    requires forall n :: LoadEntry(booked, n) == NodeLoad(pr, p, n)
    ensures node.nodeId in NodeIds(pr.t)
    ensures r <==> NodeFeasible(pr, p, s, node.nodeId)
  {
    KnownNode(pr.t, node);
    var stage := pr.g.stages[s];
    if !FitsAlone(stage, node, pr.gov) {
      return false;
    }
    var committed := LoadEntry(booked, node.nodeId);
    if committed > 0.0 && stage.demand > node.Residual() - committed + TOLERANCE {
      return false;
    }
    var predsOk := PredsAllow(pr, s, node.nodeId, p);
    if !predsOk {
      return false;
    }
    r := SuccsAllow(pr, s, node.nodeId, p);
  }

  lemma KnownNode(t: Topology, node: Unit)
    requires Distinct(NodeIds(t)) && node in t.nodes
    ensures node.nodeId in NodeIds(t) && GetNode(t, node.nodeId) == node
  {
    var i :| 0 <= i < |t.nodes| && t.nodes[i] == node;
    GetNodeAt(t, i);
  }

  method PredsAllow(pr: Problem, s: StageId, n: NodeId, p: Placement) returns (r: bool)
    requires ValidProblem(pr) && Assigns(pr, p) && n in NodeIds(pr.t)
    ensures r <==> forall c :: c in Preds(pr.g.edges, s) ==> PredAllows(pr, s, n, p, c)
  {
    var preds := Preds(pr.g.edges, s);
    var i := 0;
    while i < |preds|
      invariant 0 <= i <= |preds|
      invariant forall c :: c in preds[..i] ==> PredAllows(pr, s, n, p, c)
    {
      var c := preds[i];
      if c in p {
        var edge := GetEdge(pr.g.edges, c, s);
        if edge.Some? && Latency(pr.t, p[c], n) > edge.value.bound + TOLERANCE {
          assert !PredAllows(pr, s, n, p, c) && c in preds;
          return false;
        }
        if DomainOf(pr, p[c]) != DomainOf(pr, n) && Trust(pr.gov, DomainOf(pr, p[c]), DomainOf(pr, n)) <= 0.0 {
          assert !PredAllows(pr, s, n, p, c) && c in preds;
          return false;
        }
      }
      TakeStep(preds, i);
      i := i + 1;
    }
    assert preds[..i] == preds;
    return true;
  }

  method SuccsAllow(pr: Problem, s: StageId, n: NodeId, p: Placement) returns (r: bool)
    requires ValidProblem(pr) && Assigns(pr, p) && n in NodeIds(pr.t)
    ensures r <==> forall c :: c in Succs(pr.g.edges, s) ==> SuccAllows(pr, s, n, p, c)
  {
    var succs := Succs(pr.g.edges, s);
    var i := 0;
    while i < |succs|
      invariant 0 <= i <= |succs|
      invariant forall c :: c in succs[..i] ==> SuccAllows(pr, s, n, p, c)
    {
      var c := succs[i];
      if c in p {
        var edge := GetEdge(pr.g.edges, s, c);
        if edge.Some? && Latency(pr.t, n, p[c]) > edge.value.bound + TOLERANCE {
          assert !SuccAllows(pr, s, n, p, c) && c in succs;
          return false;
        }
        if DomainOf(pr, n) != DomainOf(pr, p[c]) && Trust(pr.gov, DomainOf(pr, n), DomainOf(pr, p[c])) <= 0.0 {
          assert !SuccAllows(pr, s, n, p, c) && c in succs;
          return false;
        }
      }
      TakeStep(succs, i);
      i := i + 1;
    }
    assert succs[..i] == succs;
    return true;
  }

  // ---------------------------------------------------------------- incremental cost

  function LatencyTo(pr: Problem, p: Placement, n: NodeId): StageId -> real {
    (c: StageId) => if c in p && HasLatency(pr.t, p[c], n) then Latency(pr.t, p[c], n) else 0.0
  }

  function CrossTo(pr: Problem, p: Placement, n: NodeId): StageId -> real {
    (c: StageId) => if c in p && p[c] in NodeIds(pr.t) && n in NodeIds(pr.t) && DomainOf(pr, p[c]) != DomainOf(pr, n)
                    then 1.0 else 0.0
  }

  // alpha * latency_inc + beta * load_inc + gamma * domain_inc
  function Increment(pr: Problem, p: Placement, s: StageId, n: NodeId): real
    requires s in pr.g.stages && n in NodeIds(pr.t)
  {
    Weighted(pr.w, Sum(Preds(pr.g.edges, s), LatencyTo(pr, p, n)),
             LoadRatio(pr.g.stages[s], GetNode(pr.t, n)),
             Sum(Preds(pr.g.edges, s), CrossTo(pr, p, n)))
  }

  method IncrementalCost(pr: Problem, p: Placement, s: StageId, n: NodeId) returns (cost: real)
    requires ValidProblem(pr) && Assigns(pr, p) && s in pr.g.stages && n in NodeIds(pr.t)
    ensures cost == Increment(pr, p, s, n)
  {
    var preds := Preds(pr.g.edges, s);
    var latencyInc, domainInc := 0.0, 0;
    var i := 0;
    while i < |preds|
      invariant 0 <= i <= |preds|
      invariant latencyInc == Sum(preds[..i], LatencyTo(pr, p, n))
      invariant domainInc as real == Sum(preds[..i], CrossTo(pr, p, n))
    {
      var c := preds[i];
      TakeStep(preds, i);
      SumAppend(preds[..i], c, LatencyTo(pr, p, n));
      SumAppend(preds[..i], c, CrossTo(pr, p, n));
      if c in p {
        latencyInc := latencyInc + Latency(pr.t, p[c], n);
        if DomainOf(pr, p[c]) != DomainOf(pr, n) {
          domainInc := domainInc + 1;
        }
      }
      i := i + 1;
    }
    assert preds[..i] == preds;
    var loadInc := LoadRatio(pr.g.stages[s], GetNode(pr.t, n));
    cost := Weighted(pr.w, latencyInc, loadInc, domainInc as real);
  }

  // Cost of each node for stage s: infinite where it is not feasible.
  ghost function Scores(pr: Problem, p: Placement, s: StageId): seq<Ext>
    requires ValidProblem(pr) && Assigns(pr, p) && s in pr.g.stages
  {
    seq(|pr.t.nodes|, i requires 0 <= i < |pr.t.nodes| => ScoreAt(pr, p, s, NodeIds(pr.t)[i]))
  }

  ghost function ScoreAt(pr: Problem, p: Placement, s: StageId, n: NodeId): Ext
    requires ValidProblem(pr) && Assigns(pr, p) && s in pr.g.stages && n in NodeIds(pr.t)
  {
    if NodeFeasible(pr, p, s, n) then Fin(Increment(pr, p, s, n)) else Inf
  }

  // The inner loop: the best node for one stage, if any node is feasible.
  method BestNode(pr: Problem, s: StageId, p: Placement, booked: map<NodeId, real>) returns (best: Option<nat>)
    requires ValidProblem(pr) && Assigns(pr, p) && s in pr.g.stages
    requires forall n :: LoadEntry(booked, n) == NodeLoad(pr, p, n)
    ensures best == ArgMin(Scores(pr, p, s))
  {
    hide ValidProblem, NodeFeasible, Increment, ArgMin;
    best := None;
    var bestCost: Ext := Inf;
    ghost var scores := Scores(pr, p, s);
    var k := 0;
    while k < |pr.t.nodes|
      invariant 0 <= k <= |pr.t.nodes|
      invariant best == ArgMin(scores[..k])
      invariant bestCost == Score(scores[..k], best)
    {
      var node := pr.t.nodes[k];
      assert node.nodeId == NodeIds(pr.t)[k];
      ArgMinStep(scores, k);
      assert scores[k] == ScoreAt(pr, p, s, node.nodeId);
      var ok := IsNodeFeasible(pr, s, node, p, booked);
      if ok {
        var cost := IncrementalCost(pr, p, s, node.nodeId);
        if Less(Fin(cost), bestCost) {
          bestCost, best := Fin(cost), Some(k);
        }
      }
      k := k + 1;
    }
    assert scores[..k] == scores;
  }

  // ---------------------------------------------------------------- whole runs

  function Restrict(p: Placement, xs: seq<StageId>): Placement {
    map s | s in p && s in xs :: p[s]
  }

  // n is the first feasible node of least incremental cost for s.
  ghost predicate GreedyChoice(pr: Problem, p: Placement, s: StageId, n: NodeId)
    requires ValidProblem(pr) && Assigns(pr, p) && s in pr.g.stages
  {
    var best := ArgMin(Scores(pr, p, s));
    best.Some? && NodeIds(pr.t)[best.value] == n
  }

  // p places the first k stages of the order, each by the greedy choice given the ones before it.
  ghost predicate GreedyRun(pr: Problem, order: seq<StageId>, k: nat, p: Placement)
    requires ValidProblem(pr) && k <= |order|
  {
    && Assigns(pr, p) && p.Keys == ToSet(order[..k])
    && forall j :: 0 <= j < k ==> ChosenAt(pr, order, j, p)
  }

  ghost predicate ChosenAt(pr: Problem, order: seq<StageId>, j: nat, p: Placement)
    requires ValidProblem(pr) && j < |order| && Assigns(pr, p)
  {
    order[j] in pr.g.stages && order[j] in p && GreedyChoice(pr, Restrict(p, order[..j]), order[j], p[order[j]])
  }

  // After k greedy steps no node is feasible for the next stage.
  ghost predicate GreedyStuck(pr: Problem, order: seq<StageId>, k: nat, p: Placement)
    requires ValidProblem(pr)
  {
    && k < |order| && GreedyRun(pr, order, k, p)
    && order[k] in pr.g.stages && forall n :: n in NodeIds(pr.t) ==> !NodeFeasible(pr, p, order[k], n)
  }

  // _greedy_placement
  method GreedyPlacement(pr: Problem, order: seq<StageId>) returns (r: Result<Placement, StageId>)
    requires ValidProblem(pr) && IsTopoOrder(pr.g, order)
    ensures r.Ok? ==> GreedyRun(pr, order, |order|, r.value)
    ensures r.Error? ==> exists k: nat, p :: GreedyStuck(pr, order, k, p) && order[k] == r.error
  {
    var p: Placement := map[];
    var booked: map<NodeId, real> := map[];
    forall n ensures NodeLoad(pr, p, n) == 0.0 { SumZero(pr.g.ids, LoadOn(pr, p, n)); }
    var k := 0;
    while k < |order|
      invariant 0 <= k <= |order|
      invariant GreedyRun(pr, order, k, p)
      invariant forall n :: LoadEntry(booked, n) == NodeLoad(pr, p, n)
    {
      var s := order[k];
      assert s in ToSet(order);
      var best := BestNode(pr, s, p, booked);
      if best.None? {
        NothingFeasible(pr, p, s);
        assert GreedyStuck(pr, order, k, p);
        return Error(s);
      }
      var n := pr.t.nodes[best.value].nodeId;
      assert n == NodeIds(pr.t)[best.value];
      RunExtends(pr, order, k, p, n);
      ghost var before := booked;
      booked := booked[n := LoadEntry(booked, n) + pr.g.stages[s].demand];
      forall m ensures LoadEntry(booked, m) == NodeLoad(pr, p[s := n], m) {
        assert LoadEntry(before, m) == NodeLoad(pr, p, m);
        LoadExtends(pr, p, s, n, m);
      }
      p := p[s := n];
      k := k + 1;
    }
    return Ok(p);
  }

  lemma RunExtends(pr: Problem, order: seq<StageId>, k: nat, p: Placement, n: NodeId)
    requires ValidProblem(pr) && Distinct(order) && k < |order| && GreedyRun(pr, order, k, p)
    requires order[k] in pr.g.stages && n in NodeIds(pr.t) && GreedyChoice(pr, p, order[k], n)
    ensures GreedyRun(pr, order, k + 1, p[order[k] := n])
  {
    TakeStepSet(order, k);
    var q := p[order[k] := n];
    assert Assigns(pr, q) && q.Keys == ToSet(order[..k+1]);
    forall j | 0 <= j < k ensures ChosenAt(pr, order, j, q) {
      ChosenKept(pr, order, j, k, p, n);
    }
    RestrictKept(order, k, k, p, n);
  }

  lemma ChosenKept(pr: Problem, order: seq<StageId>, j: nat, k: nat, p: Placement, n: NodeId)
    requires ValidProblem(pr) && Distinct(order) && j < k < |order| && GreedyRun(pr, order, k, p)
    requires order[k] in pr.g.stages && n in NodeIds(pr.t)
    ensures ChosenAt(pr, order, j, p[order[k] := n])
  {
    assert ChosenAt(pr, order, j, p);
    RestrictKept(order, j, k, p, n);
  }

  lemma RestrictKept(order: seq<StageId>, j: nat, k: nat, p: Placement, n: NodeId)
    requires Distinct(order) && j <= k < |order| && p.Keys == ToSet(order[..k])
    ensures Restrict(p[order[k] := n], order[..j]) == Restrict(p, order[..j])
    ensures Restrict(p, order[..k]) == p
    ensures order[k] !in p
  {
    assert order[k] !in order[..k];
    assert forall x :: x in p ==> x in ToSet(order[..k]);
    assert order[..j] <= order[..k];
  }

  lemma {:induction false} SumUpdated(pr: Problem, xs: seq<StageId>, p: Placement, s: StageId, n: NodeId, m: NodeId)
    requires Distinct(xs) && s !in p && s in pr.g.stages
    ensures Sum(xs, LoadOn(pr, p[s := n], m))
      == Sum(xs, LoadOn(pr, p, m)) + if s in xs && m == n then pr.g.stages[s].demand else 0.0
  {
    if xs != [] {
      var i := |xs| - 1;
      SumUpdated(pr, xs[..i], p, s, n, m);
      assert xs[i] !in xs[..i];
    }
  }

  lemma LoadExtends(pr: Problem, p: Placement, s: StageId, n: NodeId, m: NodeId)
    requires WellFormed(pr.g) && s !in p && s in pr.g.stages
    ensures NodeLoad(pr, p[s := n], m) == NodeLoad(pr, p, m) + if m == n then pr.g.stages[s].demand else 0.0
  {
    assert s in ToSet(pr.g.ids);
    SumUpdated(pr, pr.g.ids, p, s, n, m);
  }

  // ---------------------------------------------------------------- soundness

  lemma PrefixStep(pr: Problem, order: seq<StageId>, k: nat, p: Placement)
    requires Distinct(order) && k < |order| && order[k] in p
    ensures Restrict(p, order[..k+1]) == Restrict(p, order[..k])[order[k] := p[order[k]]]
    ensures order[k] !in Restrict(p, order[..k])
  {
    TakeStep(order, k);
    assert order[k] !in order[..k];
  }

  // No prefix of a greedy run overloads a node.
  lemma {:induction false} PrefixLoads(pr: Problem, order: seq<StageId>, k: nat, p: Placement, s: StageId)
    requires ValidProblem(pr) && Distinct(order) && GreedyRun(pr, order, |order|, p) && k <= |order|
    requires s in Restrict(p, order[..k])
    ensures NodeLoad(pr, Restrict(p, order[..k]), p[s]) <= GetNode(pr.t, p[s]).Residual() + TOLERANCE
    decreases k
  {
    var j := k - 1;
    var last := order[j];
    var q, n := Restrict(p, order[..j]), p[s];
    assert ChosenAt(pr, order, j, p);
    PrefixStep(pr, order, j, p);
    LoadExtends(pr, q, last, p[last], n);
    if p[last] != n {
      assert s in q;
      PrefixLoads(pr, order, j, p, s);
    } else {
      // RoomLeft bounds the new load when something was booked, FitsAlone when nothing was.
      ChosenFits(pr, q, last, n);
    }
  }

  lemma ChosenFits(pr: Problem, q: Placement, s: StageId, n: NodeId)
    requires ValidProblem(pr) && Assigns(pr, q) && s in pr.g.stages && n in NodeIds(pr.t) && GreedyChoice(pr, q, s, n)
    ensures NodeFeasible(pr, q, s, n)
    ensures NodeLoad(pr, q, n) + pr.g.stages[s].demand <= GetNode(pr.t, n).Residual() + TOLERANCE
  {
    assert ScoreAt(pr, q, s, n).Fin?;
  }

  // A greedy choice is feasible and no feasible node is cheaper.
  lemma ChoiceIsCheapest(pr: Problem, p: Placement, s: StageId, n: NodeId, m: NodeId)
    requires ValidProblem(pr) && Assigns(pr, p) && s in pr.g.stages && GreedyChoice(pr, p, s, n)
    requires m in NodeIds(pr.t) && NodeFeasible(pr, p, s, m)
    ensures n in NodeIds(pr.t) && NodeFeasible(pr, p, s, n) && Increment(pr, p, s, n) <= Increment(pr, p, s, m)
  {
    var scores := Scores(pr, p, s);
    var j := IndexOf(NodeIds(pr.t), m);
    assert scores[j] == Fin(Increment(pr, p, s, m));
    ArgMinLeast(scores);
    assert AtMost(Score(scores, ArgMin(scores)), scores[j]);
  }

  lemma NothingFeasible(pr: Problem, p: Placement, s: StageId)
    requires ValidProblem(pr) && Assigns(pr, p) && s in pr.g.stages && ArgMin(Scores(pr, p, s)).None?
    ensures forall n :: n in NodeIds(pr.t) ==> !NodeFeasible(pr, p, s, n)
  {
    ArgMinLeast(Scores(pr, p, s));
    forall n | n in NodeIds(pr.t) ensures !NodeFeasible(pr, p, s, n) {
      assert Scores(pr, p, s)[IndexOf(NodeIds(pr.t), n)].Inf?;
    }
  }

  // When an edge's target is placed its source already is, so the hop was checked.
  lemma HopChecked(pr: Problem, order: seq<StageId>, p: Placement, e: Edge)
    requires ValidProblem(pr) && IsTopoOrder(pr.g, order) && GreedyRun(pr, order, |order|, p) && e in pr.g.edges
    ensures e.source in p && e.target in p && HopAllowed(pr, e.source, e.target, p[e.source], p[e.target])
  {
    var j, k := IndexOf(order, e.source), IndexOf(order, e.target);
    assert ChosenAt(pr, order, k, p) && ChosenAt(pr, order, j, p);
    assert order[..k][j] == e.source;
    assert HasEdge(pr.g.edges, e.source, e.target);
    ChosenAllows(pr, Restrict(p, order[..k]), e.source, e.target, p[e.target]);
  }

  lemma ChosenAllows(pr: Problem, q: Placement, u: StageId, v: StageId, n: NodeId)
    requires ValidProblem(pr) && Assigns(pr, q) && v in pr.g.stages && n in NodeIds(pr.t) && GreedyChoice(pr, q, v, n)
    requires HasEdge(pr.g.edges, u, v) && u in q
    ensures HopAllowed(pr, u, v, q[u], n)
  {
    ChosenFits(pr, q, v, n);
    Adjacent(pr.g.edges, u, v);
    assert PredAllows(pr, v, n, q, u);
  }

  lemma StageChecked(pr: Problem, order: seq<StageId>, p: Placement, s: StageId)
    requires ValidProblem(pr) && IsTopoOrder(pr.g, order) && GreedyRun(pr, order, |order|, p) && s in p
    ensures FitsAlone(pr.g.stages[s], GetNode(pr.t, p[s]), pr.gov)
    ensures NodeLoad(pr, p, p[s]) <= GetNode(pr.t, p[s]).Residual() + TOLERANCE
  {
    assert order[..|order|] == order;
    assert s in ToSet(order);
    var k := IndexOf(order, s);
    assert ChosenAt(pr, order, k, p);
    ChosenFits(pr, Restrict(p, order[..k]), s, p[s]);
    assert forall x :: x in p ==> x in ToSet(order);
    assert Restrict(p, order) == p;
    PrefixLoads(pr, order, |order|, p, s);
  }

  // An edge whose bound was replaced in the index by a later edge between the same stages.
  ghost predicate Shadowed(g: Graph, e: Edge) {
    e in g.edges && GetEdge(g.edges, e.source, e.target) != Some(e)
  }

  // Whatever the graph, the only thing the checker can hold against a greedy
  // placement is the latency of a shadowed duplicate edge.
  lemma GreedyFaults(pr: Problem, order: seq<StageId>, p: Placement, v: Violation)
    requires ValidProblem(pr) && IsTopoOrder(pr.g, order) && GreedyRun(pr, order, |order|, p)
    requires Violates(pr, p, v)
    ensures v.TooSlow? && Shadowed(pr.g, v.edge)
  {
    match v
    case Overloaded(n) =>
      var s :| s in p && p[s] == n;
      StageChecked(pr, order, p, s);
    case NotPlaced(e) => HopChecked(pr, order, p, e);
    case TooSlow(e) => HopChecked(pr, order, p, e);
    case Untrusted(e) => HopChecked(pr, order, p, e);
    case OutsideDomain(s) => StageChecked(pr, order, p, s);
    case LocalOnly(s) => StageChecked(pr, order, p, s);
    case WrongSlice(s) => StageChecked(pr, order, p, s);
  }

  // Among parallel edges the one added last, which is the indexed one, is the tightest.
  ghost predicate IndexedTightest(g: Graph) {
    forall e :: e in g.edges ==> Indexed(g, e)
  }

  ghost predicate Indexed(g: Graph, e: Edge) {
    GetEdge(g.edges, e.source, e.target).Some? && GetEdge(g.edges, e.source, e.target).value.bound <= e.bound
  }

  ghost predicate NoParallelEdges(g: Graph) {
    forall i, j :: 0 <= i < j < |g.edges| ==>
      g.edges[i].source != g.edges[j].source || g.edges[i].target != g.edges[j].target
  }

  lemma SimpleIsTightest(g: Graph)
    requires NoParallelEdges(g)
    ensures IndexedTightest(g)
  {
    forall e | e in g.edges ensures GetEdge(g.edges, e.source, e.target) == Some(e) {
      Adjacent(g.edges, e.source, e.target);
      assert HasEdge(g.edges, e.source, e.target);
      var f := GetEdge(g.edges, e.source, e.target).value;
      var i :| 0 <= i < |g.edges| && g.edges[i] == e;
      var j :| 0 <= j < |g.edges| && g.edges[j] == f;
    }
  }

  // Greedy soundness: the separate checker accepts every placement the greedy solver returns.
  lemma GreedySound(pr: Problem, order: seq<StageId>, p: Placement)
    requires ValidProblem(pr) && IsTopoOrder(pr.g, order) && GreedyRun(pr, order, |order|, p)
    requires IndexedTightest(pr.g)
    ensures Total(pr, p) && Feasible(pr, p)
  {
    assert order[..|order|] == order;
    assert forall s :: s in pr.g.stages ==> s in ToSet(order);
    NoViolations(pr, p);
    forall v ensures !Violates(pr, p, v) {
      if Violates(pr, p, v) {
        GreedyFaults(pr, order, p, v);
        HopChecked(pr, order, p, v.edge);
        assert false;
      }
    }
  }

  // ---------------------------------------------------------------- the cost telescopes

  // The predecessors of a stage are placed before it, so the partial placement
  // shows the hops into it as the final placement does.
  lemma HopsSeen(pr: Problem, order: seq<StageId>, k: nat, p: Placement, e: Edge)
    requires ValidProblem(pr) && IsTopoOrder(pr.g, order) && GreedyRun(pr, order, |order|, p) && k < |order|
    requires e in pr.g.edges && e.target == order[k] && order[k] in p
    ensures LatencyTo(pr, Restrict(p, order[..k]), p[order[k]])(e.source) == LatencyOf(pr, p)(e)
    ensures CrossTo(pr, Restrict(p, order[..k]), p[order[k]])(e.source) == CrossOf(pr, p)(e)
  {
    HopChecked(pr, order, p, e);
    IndexOfDistinct(order, k);
    assert order[..k][IndexOf(order, e.source)] == e.source;
  }

  // The increment the greedy step minimised is the stage's share of the final cost.
  lemma IncrementIsStep(pr: Problem, order: seq<StageId>, k: nat, p: Placement)
    requires ValidProblem(pr) && IsTopoOrder(pr.g, order) && GreedyRun(pr, order, |order|, p) && k < |order|
    requires Payable(pr, order, p)
    ensures IncrementAt(pr, order, p, k) == StepOf(pr, p)(order[k])
  {
    var s, n, es := order[k], p[order[k]], pr.g.edges;
    var latency, cross := LatencyTo(pr, Restrict(p, order[..k]), n), CrossTo(pr, Restrict(p, order[..k]), n);
    forall e | e in es && e.target == s
      ensures latency(e.source) == LatencyOf(pr, p)(e)
      ensures cross(e.source) == CrossOf(pr, p)(e)
    {
      HopsSeen(pr, order, k, p, e);
    }
    PredsSum(es, s, latency, LatencyOf(pr, p));
    PredsSum(es, s, cross, CrossOf(pr, p));
    HopsInto(pr, p, es, s);
  }

  lemma {:induction false} HopsInto(pr: Problem, p: Placement, es: seq<Edge>, s: StageId)
    ensures SumWhere(es, Target(), s, HopOf(pr, p))
      == Times(pr.w.alpha, SumWhere(es, Target(), s, LatencyOf(pr, p)))
       + Times(pr.w.gamma, SumWhere(es, Target(), s, CrossOf(pr, p)))
  {
    if es != [] {
      var i := |es| - 1;
      HopsInto(pr, p, es[..i], s);
      Distribute(pr.w.alpha, SumWhere(es[..i], Target(), s, LatencyOf(pr, p)), LatencyOf(pr, p)(es[i]));
      Distribute(pr.w.gamma, SumWhere(es[..i], Target(), s, CrossOf(pr, p)), CrossOf(pr, p)(es[i]));
    }
  }

  // What the greedy step paid for the k-th stage when it placed it.
  ghost function IncrementAt(pr: Problem, order: seq<StageId>, p: Placement, k: nat): real
    requires k < |order| && order[k] in pr.g.stages && order[k] in p && p[order[k]] in NodeIds(pr.t)
  {
    Increment(pr, Restrict(p, order[..k]), order[k], p[order[k]])
  }

  ghost predicate Payable(pr: Problem, order: seq<StageId>, p: Placement) {
    forall s :: s in order ==> s in pr.g.stages && s in p && p[s] in NodeIds(pr.t)
  }

  // The increments of a run, in the order they were paid.
  ghost function Increments(pr: Problem, order: seq<StageId>, p: Placement): seq<real>
    requires Payable(pr, order, p)
  {
    seq(|order|, k requires 0 <= k < |order| => IncrementAt(pr, order, p, k))
  }

  lemma RunPayable(pr: Problem, order: seq<StageId>, p: Placement)
    requires ValidProblem(pr) && Distinct(order) && GreedyRun(pr, order, |order|, p)
    ensures Payable(pr, order, p)
  {
    forall s | s in order ensures s in pr.g.stages && s in p && p[s] in NodeIds(pr.t) {
      assert ChosenAt(pr, order, IndexOf(order, s), p);
    }
  }

  // The minimum increments chosen stage by stage add up to the cost of the result,
  // in any topological order and with parallel edges.
  lemma GreedyCostTelescopes(pr: Problem, order: seq<StageId>, p: Placement)
    requires ValidProblem(pr) && IsTopoOrder(pr.g, order) && GreedyRun(pr, order, |order|, p)
    ensures Payable(pr, order, p) && SumReals(Increments(pr, order, p)) == Cost(pr, p)
  {
    RunPayable(pr, order, p);
    forall j | 0 <= j < |order| ensures IncrementAt(pr, order, p, j) == StepOf(pr, p)(order[j]) {
      IncrementIsStep(pr, order, j, p);
    }
    SumByIndex(order, Increments(pr, order, p), StepOf(pr, p));
    CostBySteps(pr, p, order);
  }

  // A greedy run is determined by the problem and the order.
  lemma {:induction false} GreedyDeterministic(pr: Problem, order: seq<StageId>, k: nat, p: Placement, q: Placement)
    requires ValidProblem(pr) && Distinct(order) && k <= |order|
    requires GreedyRun(pr, order, k, p) && GreedyRun(pr, order, k, q)
    ensures p == q
  {
    SamePrefix(pr, order, k, k, p, q);
    assert forall x :: x in p ==> x in ToSet(order[..k]);
    assert forall x :: x in q ==> x in ToSet(order[..k]);
    assert Restrict(p, order[..k]) == p && Restrict(q, order[..k]) == q;
  }

  lemma SameChoice(pr: Problem, order: seq<StageId>, j: nat, p: Placement, q: Placement)
    requires ValidProblem(pr) && j < |order| && Assigns(pr, p) && Assigns(pr, q)
    requires ChosenAt(pr, order, j, p) && ChosenAt(pr, order, j, q)
    requires Restrict(p, order[..j]) == Restrict(q, order[..j])
    ensures p[order[j]] == q[order[j]]
  {}

  lemma {:induction false} SamePrefix(pr: Problem, order: seq<StageId>, j: nat, k: nat, p: Placement, q: Placement)
    requires ValidProblem(pr) && Distinct(order) && j <= k <= |order|
    requires GreedyRun(pr, order, k, p) && GreedyRun(pr, order, k, q)
    ensures Restrict(p, order[..j]) == Restrict(q, order[..j])
  {
    if j > 0 {
      var i := j - 1;
      SamePrefix(pr, order, i, k, p, q);
      assert ChosenAt(pr, order, i, p) && ChosenAt(pr, order, i, q);
      SameChoice(pr, order, i, p, q);
      PrefixStep(pr, order, i, p);
      PrefixStep(pr, order, i, q);
    }
  }
}
