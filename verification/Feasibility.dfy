// Placement problems, the feasibility checker and the cost function: the two
// independent specifications both solvers are measured against.
module Feasibility {
  import opened Sequences
  import opened Graphs
  import opened Topologies

  type Placement = map<StageId, NodeId>

  datatype Weights = Weights(alpha: real, beta: real, gamma: real)

  datatype Problem = Problem(g: Graph, t: Topology, gov: Governance, w: Weights)

  ghost predicate ValidProblem(pr: Problem) {
    WellFormed(pr.g) && ValidTopology(pr.t)
  }

  ghost predicate NonNegativeDemands(pr: Problem) {
    forall v :: v in pr.g.stages ==> pr.g.stages[v].demand >= 0.0
  }

  // p places some known stages on known nodes.
  ghost predicate Assigns(pr: Problem, p: Placement) {
    && (forall s :: s in p ==> s in pr.g.stages)
    && (forall s :: s in p ==> p[s] in NodeIds(pr.t))
  }

  // p places every stage.
  ghost predicate Total(pr: Problem, p: Placement) {
    Assigns(pr, p) && forall s :: s in pr.g.stages ==> s in p
  }

  function StageOf(pr: Problem, s: StageId): Stage
    requires s in pr.g.stages
  {
    pr.g.stages[s]
  }

  function DomainOf(pr: Problem, n: NodeId): string
    requires n in NodeIds(pr.t)
  {
    GetNode(pr.t, n).domain
  }

  // ---------------------------------------------------------------- constraints

  function LoadOn(pr: Problem, p: Placement, n: NodeId): StageId -> real {
    (s: StageId) => if s in p && s in pr.g.stages && p[s] == n then pr.g.stages[s].demand else 0.0
  }

  // Demand placed on node n.
  function NodeLoad(pr: Problem, p: Placement, n: NodeId): real {
    Sum(pr.g.ids, LoadOn(pr, p, n))
  }

  predicate LatencyHolds(pr: Problem, bound: real, a: NodeId, b: NodeId)
    requires HasLatency(pr.t, a, b)
  {
    Latency(pr.t, a, b) <= bound + TOLERANCE
  }

  predicate TrustHolds(pr: Problem, a: NodeId, b: NodeId)
    requires a in NodeIds(pr.t) && b in NodeIds(pr.t)
  {
    DomainOf(pr, a) == DomainOf(pr, b) || Trust(pr.gov, DomainOf(pr, a), DomainOf(pr, b)) > 0.0
  }

  // u on node a may feed v on node b: the bound of the indexed edge and the trust
  // between the two domains are respected.
  predicate HopAllowed(pr: Problem, u: StageId, v: StageId, a: NodeId, b: NodeId)
    requires HasLatency(pr.t, a, b) && a in NodeIds(pr.t) && b in NodeIds(pr.t)
  {
    && (GetEdge(pr.g.edges, u, v).Some? ==> LatencyHolds(pr, GetEdge(pr.g.edges, u, v).value.bound, a, b))
    && TrustHolds(pr, a, b)
  }

  ghost predicate CapacityFeasible(pr: Problem, p: Placement)
    requires Assigns(pr, p)
  {
    forall s :: s in p ==> NodeLoad(pr, p, p[s]) <= GetNode(pr.t, p[s]).Residual() + TOLERANCE
  }

  ghost predicate LatencyFeasible(pr: Problem, p: Placement)
    requires ValidProblem(pr) && Assigns(pr, p)
  {
    forall e :: e in pr.g.edges ==>
      e.source in p && e.target in p && LatencyHolds(pr, e.bound, p[e.source], p[e.target])
  }

  ghost predicate TrustFeasible(pr: Problem, p: Placement)
    requires ValidProblem(pr) && Assigns(pr, p)
  {
    forall e :: e in pr.g.edges && e.source in p && e.target in p ==> TrustHolds(pr, p[e.source], p[e.target])
  }

  ghost predicate SovereigntyFeasible(pr: Problem, p: Placement)
    requires Assigns(pr, p)
  {
    forall s :: s in p ==> SovereigntyHolds(StageOf(pr, s), GetNode(pr.t, p[s]))
  }

  ghost predicate SliceFeasible(pr: Problem, p: Placement)
    requires Assigns(pr, p)
  {
    forall s :: s in p ==> SliceMatches(GetNode(pr.t, p[s]).slice, StageOf(pr, s).slice)
  }

  ghost predicate Feasible(pr: Problem, p: Placement)
    requires ValidProblem(pr) && Assigns(pr, p)
  {
    && CapacityFeasible(pr, p)
    && LatencyFeasible(pr, p)
    && TrustFeasible(pr, p)
    && SovereigntyFeasible(pr, p)
    && SliceFeasible(pr, p)
  }

  // ---------------------------------------------------------------- the checker

  datatype Violation =
    | Overloaded(node: NodeId)
    | NotPlaced(edge: Edge)
    | TooSlow(edge: Edge)
    | Untrusted(edge: Edge)
    | OutsideDomain(stage: StageId)
    | LocalOnly(stage: StageId)
    | WrongSlice(stage: StageId)

  ghost predicate BothPlaced(p: Placement, e: Edge) {
    e.source in p && e.target in p
  }

  // Whether v is one of the constraint violations of p.
  ghost predicate Violates(pr: Problem, p: Placement, v: Violation)
    requires ValidProblem(pr) && Assigns(pr, p)
  {
    match v
    case Overloaded(n) => n in p.Values && NodeLoad(pr, p, n) > GetNode(pr.t, n).Residual() + TOLERANCE
    case NotPlaced(e) => e in pr.g.edges && !BothPlaced(p, e)
    case TooSlow(e) => e in pr.g.edges && BothPlaced(p, e) && !LatencyHolds(pr, e.bound, p[e.source], p[e.target])
    case Untrusted(e) => e in pr.g.edges && BothPlaced(p, e) && !TrustHolds(pr, p[e.source], p[e.target])
    case OutsideDomain(s) => s in p && !SovereigntyHolds(StageOf(pr, s), GetNode(pr.t, p[s]))
    case LocalOnly(s) =>
      s in p && StageOf(pr, s).stageType in pr.gov.localTypes && !SovereigntyHolds(StageOf(pr, s), GetNode(pr.t, p[s]))
    case WrongSlice(s) => s in p && !SliceMatches(GetNode(pr.t, p[s]).slice, StageOf(pr, s).slice)
  }

  lemma FeasibleClean(pr: Problem, p: Placement, v: Violation)
    requires ValidProblem(pr) && Assigns(pr, p) && Feasible(pr, p)
    ensures !Violates(pr, p, v)
  {
    if v.Overloaded? && v.node in p.Values {
      var s :| s in p && p[s] == v.node;
    }
  }

  lemma CleanStage(pr: Problem, p: Placement, s: StageId)
    requires ValidProblem(pr) && Assigns(pr, p) && s in p
    requires forall v :: !Violates(pr, p, v)
    ensures NodeLoad(pr, p, p[s]) <= GetNode(pr.t, p[s]).Residual() + TOLERANCE
    ensures SovereigntyHolds(StageOf(pr, s), GetNode(pr.t, p[s]))
    ensures SliceMatches(GetNode(pr.t, p[s]).slice, StageOf(pr, s).slice)
  {
    assert !Violates(pr, p, Overloaded(p[s]));
    assert !Violates(pr, p, OutsideDomain(s));
    assert !Violates(pr, p, WrongSlice(s));
  }

  lemma CleanEdge(pr: Problem, p: Placement, e: Edge)
    requires ValidProblem(pr) && Assigns(pr, p) && e in pr.g.edges
    requires forall v :: !Violates(pr, p, v)
    ensures BothPlaced(p, e)
    ensures LatencyHolds(pr, e.bound, p[e.source], p[e.target])
    ensures TrustHolds(pr, p[e.source], p[e.target])
  {
    assert !Violates(pr, p, NotPlaced(e));
    assert !Violates(pr, p, TooSlow(e));
    assert !Violates(pr, p, Untrusted(e));
  }

  lemma NoViolations(pr: Problem, p: Placement)
    requires ValidProblem(pr) && Assigns(pr, p)
    ensures Feasible(pr, p) <==> forall v :: !Violates(pr, p, v)
  {
    if Feasible(pr, p) {
      forall v ensures !Violates(pr, p, v) { FeasibleClean(pr, p, v); }
    } else if forall v :: !Violates(pr, p, v) {
      forall s | s in p
        ensures NodeLoad(pr, p, p[s]) <= GetNode(pr.t, p[s]).Residual() + TOLERANCE
        ensures SovereigntyHolds(StageOf(pr, s), GetNode(pr.t, p[s]))
        ensures SliceMatches(GetNode(pr.t, p[s]).slice, StageOf(pr, s).slice)
      { CleanStage(pr, p, s); }
      forall e | e in pr.g.edges
        ensures BothPlaced(p, e)
        ensures LatencyHolds(pr, e.bound, p[e.source], p[e.target])
        ensures TrustHolds(pr, p[e.source], p[e.target])
      { CleanEdge(pr, p, e); }
      assert false;
    }
  }

  // check_feasibility reports exactly the violations, so it accepts exactly the
  // feasible placements.
  method CheckFeasibility(pr: Problem, p: Placement) returns (ok: bool, violations: seq<Violation>)
    requires ValidProblem(pr) && Assigns(pr, p)
    ensures forall v :: v in violations <==> Violates(pr, p, v)
    ensures ok <==> Feasible(pr, p)
    ensures ok <==> violations == []
  {
    var overloads := CapacityViolations(pr, p);
    var edgeFaults := EdgeViolations(pr, p);
    var stageFaults := StageViolations(pr, p);
    var sliceFaults := SliceViolations(pr, p);
    violations := overloads + edgeFaults + stageFaults + sliceFaults;
    ok := |violations| == 0;
    NoViolations(pr, p);
    if !ok { assert violations[0] in violations; }
  }

  function LoadEntry(nodeLoad: map<NodeId, real>, n: NodeId): real {
    if n in nodeLoad then nodeLoad[n] else 0.0
  }

  function Booked(pr: Problem, p: Placement, nodeLoad: map<NodeId, real>, s: StageId): map<NodeId, real> {
    if s in p && s in pr.g.stages then nodeLoad[p[s] := LoadEntry(nodeLoad, p[s]) + pr.g.stages[s].demand] else nodeLoad
  }

  lemma BookedLoad(pr: Problem, p: Placement, nodeLoad: map<NodeId, real>, xs: seq<StageId>, s: StageId, n: NodeId)
    requires LoadEntry(nodeLoad, n) == Sum(xs, LoadOn(pr, p, n))
    ensures LoadEntry(Booked(pr, p, nodeLoad, s), n) == Sum(xs + [s], LoadOn(pr, p, n))
  {
    SumAppend(xs, s, LoadOn(pr, p, n));
  }

  // Per-node load of a placement; only nodes that host a stage have an entry.
  method NodeLoads(pr: Problem, p: Placement) returns (nodeLoad: map<NodeId, real>)
    requires ValidProblem(pr) && Assigns(pr, p)
    ensures nodeLoad.Keys == p.Values
    ensures forall n :: LoadEntry(nodeLoad, n) == NodeLoad(pr, p, n)
  {
    var ids := pr.g.ids;
    nodeLoad := map[];
    var k := 0;
    while k < |ids|
      invariant 0 <= k <= |ids|
      invariant forall s :: s in ids[..k] && s in p ==> p[s] in nodeLoad
      invariant nodeLoad.Keys <= p.Values
      invariant forall n :: LoadEntry(nodeLoad, n) == Sum(ids[..k], LoadOn(pr, p, n))
    {
      var s := ids[k];
      assert s in ToSet(ids);
      TakeStep(ids, k);
      forall n ensures LoadEntry(Booked(pr, p, nodeLoad, s), n) == Sum(ids[..k+1], LoadOn(pr, p, n)) {
        BookedLoad(pr, p, nodeLoad, ids[..k], s, n);
      }
      nodeLoad := Booked(pr, p, nodeLoad, s);
      k := k + 1;
    }
    assert ids[..k] == ids;
    assert forall s :: s in p ==> s in ToSet(ids);
  }

  method CapacityViolations(pr: Problem, p: Placement) returns (violations: seq<Violation>)
    requires ValidProblem(pr) && Assigns(pr, p)
    ensures forall v :: v in violations <==> v.Overloaded? && Violates(pr, p, v)
  {
    hide ValidTopology, WellFormed, NodeLoad, SovereigntyHolds, SliceMatches, LatencyHolds, TrustHolds, GetNode;
    var nodeLoad := NodeLoads(pr, p);
    violations := [];
    var todo := nodeLoad.Keys;
    while todo != {}
      invariant todo <= nodeLoad.Keys
      invariant forall v ::
        v in violations <==> v.Overloaded? && v.node in nodeLoad && v.node !in todo && Violates(pr, p, v)
    {
      var n :| n in todo;
      assert LoadEntry(nodeLoad, n) == NodeLoad(pr, p, n);
      if nodeLoad[n] > GetNode(pr.t, n).Residual() + TOLERANCE {
        violations := violations + [Overloaded(n)];
      }
      todo := todo - {n};
    }
  }

  method EdgeViolations(pr: Problem, p: Placement) returns (violations: seq<Violation>)
    requires ValidProblem(pr) && Assigns(pr, p)
    ensures forall v :: v in violations <==> (v.NotPlaced? || v.TooSlow? || v.Untrusted?) && Violates(pr, p, v)
  {
    violations := [];
    var k := 0;
    while k < |pr.g.edges|
      invariant 0 <= k <= |pr.g.edges|
      invariant forall v :: v in violations <==>
        (v.NotPlaced? || v.TooSlow? || v.Untrusted?) && v.edge in pr.g.edges[..k] && Violates(pr, p, v)
    {
      var e := pr.g.edges[k];
      TakeStep(pr.g.edges, k);
      k := k + 1;
      if e.source !in p || e.target !in p {
        violations := violations + [NotPlaced(e)];
        continue;
      }
      var a, b := p[e.source], p[e.target];
      if Latency(pr.t, a, b) > e.bound + TOLERANCE {
        violations := violations + [TooSlow(e)];
      }
      var da, db := GetNode(pr.t, a).domain, GetNode(pr.t, b).domain;
      if da != db {
        if Trust(pr.gov, da, db) <= 0.0 {
          violations := violations + [Untrusted(e)];
        }
      }
    }
    assert pr.g.edges[..k] == pr.g.edges;
  }

  method StageViolations(pr: Problem, p: Placement) returns (violations: seq<Violation>)
    requires ValidProblem(pr) && Assigns(pr, p)
    ensures forall v :: v in violations <==> (v.OutsideDomain? || v.LocalOnly?) && Violates(pr, p, v)
  {
    violations := [];
    var todo := p.Keys;
    while todo != {}
      invariant todo <= p.Keys
      invariant forall v :: v in violations <==>
        (v.OutsideDomain? || v.LocalOnly?) && v.stage in p && v.stage !in todo && Violates(pr, p, v)
    {
      var s :| s in todo;
      var stage, node := pr.g.stages[s], GetNode(pr.t, p[s]);
      if stage.domain.Some? {
        if node.domain != stage.domain.value {
          violations := violations + [OutsideDomain(s)];
        }
      }
      if stage.stageType in pr.gov.localTypes && stage.domain.Some? && node.domain != stage.domain.value {
        violations := violations + [LocalOnly(s)];
      }
      todo := todo - {s};
    }
  }

  method SliceViolations(pr: Problem, p: Placement) returns (violations: seq<Violation>)
    requires ValidProblem(pr) && Assigns(pr, p)
    ensures forall v :: v in violations <==> v.WrongSlice? && Violates(pr, p, v)
  {
    violations := [];
    var todo := p.Keys;
    while todo != {}
      invariant todo <= p.Keys
      invariant forall v :: v in violations <==> v.WrongSlice? && v.stage in p && v.stage !in todo && Violates(pr, p, v)
    {
      var s :| s in todo;
      if !SliceMatches(GetNode(pr.t, p[s]).slice, pr.g.stages[s].slice) {
        violations := violations + [WrongSlice(s)];
      }
      todo := todo - {s};
    }
  }

  // ---------------------------------------------------------------- cost

  function LatencyOf(pr: Problem, p: Placement): Edge -> real {
    (e: Edge) => if e.source in p && e.target in p && HasLatency(pr.t, p[e.source], p[e.target])
         then Latency(pr.t, p[e.source], p[e.target]) else 0.0
  }

  // 1 for an edge whose ends are placed in different domains.
  function CrossOf(pr: Problem, p: Placement): Edge -> real {
    (e: Edge) => if e.source in p && e.target in p && p[e.source] in NodeIds(pr.t) && p[e.target] in NodeIds(pr.t)
            && DomainOf(pr, p[e.source]) != DomainOf(pr, p[e.target])
         then 1.0 else 0.0
  }

  function RatioOf(pr: Problem, p: Placement): StageId -> real {
    (s: StageId) =>
      if s in p && s in pr.g.stages && p[s] in NodeIds(pr.t) then
        LoadRatio(pr.g.stages[s], GetNode(pr.t, p[s]))
      else
        0.0
  }

  // alpha * L_total + beta * U_total + gamma * D_cross
  function Weighted(w: Weights, lTotal: real, uTotal: real, dCross: real): real {
    Times(w.alpha, lTotal) + Times(w.beta, uTotal) + Times(w.gamma, dCross)
  }

  function Cost(pr: Problem, p: Placement): real {
    Weighted(pr.w, Sum(pr.g.edges, LatencyOf(pr, p)), Sum(pr.g.ids, RatioOf(pr, p)), Sum(pr.g.edges, CrossOf(pr, p)))
  }

  // _placement_cost
  method PlacementCost(pr: Problem, p: Placement) returns (cost: real)
    requires ValidProblem(pr) && Total(pr, p)
    ensures cost == Cost(pr, p)
  {
    var lTotal, dCross := EdgeTotals(pr, p);
    var uTotal := LoadTotal(pr, p);
    cost := Weighted(pr.w, lTotal, uTotal, dCross as real);
  }

  method LoadTotal(pr: Problem, p: Placement) returns (uTotal: real)
    requires ValidProblem(pr) && Total(pr, p)
    ensures uTotal == Sum(pr.g.ids, RatioOf(pr, p))
  {
    uTotal := 0.0;
    var ids := pr.g.ids;
    var k := 0;
    while k < |ids|
      invariant 0 <= k <= |ids|
      invariant uTotal == Sum(ids[..k], RatioOf(pr, p))
    {
      var s := ids[k];
      assert s in ToSet(ids);
      var ratio := LoadRatio(pr.g.stages[s], GetNode(pr.t, p[s]));
      TakeStep(ids, k);
      SumAppend(ids[..k], s, RatioOf(pr, p));
      uTotal := uTotal + ratio;
      k := k + 1;
    }
    assert ids[..k] == ids;
  }

  // The single pass over the edges: total latency and number of domain crossings.
  method EdgeTotals(pr: Problem, p: Placement) returns (lTotal: real, dCross: int)
    requires ValidProblem(pr) && Total(pr, p)
    ensures lTotal == Sum(pr.g.edges, LatencyOf(pr, p))
    ensures dCross as real == Sum(pr.g.edges, CrossOf(pr, p))
  {
    lTotal, dCross := 0.0, 0;
    var es := pr.g.edges;
    var k := 0;
    while k < |es|
      invariant 0 <= k <= |es|
      invariant lTotal == Sum(es[..k], LatencyOf(pr, p))
      invariant dCross as real == Sum(es[..k], CrossOf(pr, p))
    {
      var e := es[k];
      EndsPlaced(pr, p, e);
      TakeStep(es, k);
      SumAppend(es[..k], e, LatencyOf(pr, p));
      SumAppend(es[..k], e, CrossOf(pr, p));
      var a, b := p[e.source], p[e.target];
      lTotal := lTotal + Latency(pr.t, a, b);
      if GetNode(pr.t, a).domain != GetNode(pr.t, b).domain {
        dCross := dCross + 1;
      }
      k := k + 1;
    }
    assert es[..k] == es;
  }

  lemma EndsPlaced(pr: Problem, p: Placement, e: Edge)
    requires ValidProblem(pr) && Total(pr, p) && e in pr.g.edges
    ensures e.source in pr.g.stages && e.target in pr.g.stages
    ensures e.source in p && e.target in p
    ensures p[e.source] in NodeIds(pr.t) && p[e.target] in NodeIds(pr.t)
    ensures HasLatency(pr.t, p[e.source], p[e.target])
  {
    assert e.source in ToSet(pr.g.ids) && e.target in ToSet(pr.g.ids);
  }

  // ------------------------------------------------ regrouping the cost by stage

  // Cost an edge adds when its ends are placed on a and b.
  function HopCost(pr: Problem, a: NodeId, b: NodeId): real
    requires a in NodeIds(pr.t) && b in NodeIds(pr.t) && HasLatency(pr.t, a, b)
  {
    Times(pr.w.alpha, Latency(pr.t, a, b)) + Times(pr.w.gamma, if DomainOf(pr, a) != DomainOf(pr, b) then 1.0 else 0.0)
  }

  function HopOf(pr: Problem, p: Placement): Edge -> real {
    Added(Scaled(pr.w.alpha, LatencyOf(pr, p)), Scaled(pr.w.gamma, CrossOf(pr, p)))
  }

  // The edges for which key gives k.
  function SumWhere(es: seq<Edge>, key: Edge -> StageId, k: StageId, f: Edge -> real): real {
    if es == [] then 0.0
    else
      var e := es[|es|-1];
      SumWhere(es[..|es|-1], key, k, f) + if key(e) == k then f(e) else 0.0
  }

  function Grouped(es: seq<Edge>, key: Edge -> StageId, f: Edge -> real): StageId -> real {
    (k: StageId) => SumWhere(es, key, k, f)
  }

  function Target(): Edge -> StageId { (e: Edge) => e.target }

  function Source(): Edge -> StageId { (e: Edge) => e.source }

  // Summing over groups is summing over all edges, however edges are grouped.
  lemma {:induction false} Regroup(ids: seq<StageId>, es: seq<Edge>, key: Edge -> StageId, f: Edge -> real)
    requires Distinct(ids) && forall e :: e in es ==> key(e) in ids
    ensures Sum(ids, Grouped(es, key, f)) == Sum(es, f)
  {
    if es == [] {
      SumZero(ids, Grouped(es, key, f));
    } else {
      var n := |es| - 1;
      Regroup(ids, es[..n], key, f);
      assert es[n] in es;
      AddToGroup(ids, es, key, f);
    }
  }

  lemma {:induction false} AddToGroup(ids: seq<StageId>, es: seq<Edge>, key: Edge -> StageId, f: Edge -> real)
    requires Distinct(ids) && es != []
    ensures Sum(ids, Grouped(es, key, f))
      == Sum(ids, Grouped(es[..|es|-1], key, f)) + if key(es[|es|-1]) in ids then f(es[|es|-1]) else 0.0
  {
    if ids != [] {
      var m := |ids| - 1;
      AddToGroup(ids[..m], es, key, f);
      assert ids[m] !in ids[..m];
    }
  }

  // What placing s costs once its predecessors are placed: its load ratio plus its incoming edges.
  function StepOf(pr: Problem, p: Placement): StageId -> real {
    Added(Scaled(pr.w.beta, RatioOf(pr, p)), Grouped(pr.g.edges, Target(), HopOf(pr, p)))
  }

  lemma HopTotal(pr: Problem, p: Placement)
    ensures Sum(pr.g.edges, HopOf(pr, p))
      == Times(pr.w.alpha, Sum(pr.g.edges, LatencyOf(pr, p))) + Times(pr.w.gamma, Sum(pr.g.edges, CrossOf(pr, p)))
  {
    SumAdded(pr.g.edges, Scaled(pr.w.alpha, LatencyOf(pr, p)), Scaled(pr.w.gamma, CrossOf(pr, p)));
    SumScaled(pr.g.edges, pr.w.alpha, LatencyOf(pr, p));
    SumScaled(pr.g.edges, pr.w.gamma, CrossOf(pr, p));
  }

  lemma StepTotal(pr: Problem, p: Placement, order: seq<StageId>)
    requires WellFormed(pr.g) && Distinct(order) && ToSet(order) == ToSet(pr.g.ids)
    ensures Sum(order, StepOf(pr, p)) == Times(pr.w.beta, Sum(pr.g.ids, RatioOf(pr, p))) + Sum(pr.g.edges, HopOf(pr, p))
  {
    SumAdded(order, Scaled(pr.w.beta, RatioOf(pr, p)), Grouped(pr.g.edges, Target(), HopOf(pr, p)));
    SumScaled(order, pr.w.beta, RatioOf(pr, p));
    SumPermutation(order, pr.g.ids, RatioOf(pr, p));
    forall e | e in pr.g.edges ensures Target()(e) in order {
      assert e.target in ToSet(pr.g.ids);
    }
    Regroup(order, pr.g.edges, Target(), HopOf(pr, p));
  }

  // The cost of a placement is the sum of its steps, in any order of the stages.
  lemma CostBySteps(pr: Problem, p: Placement, order: seq<StageId>)
    requires WellFormed(pr.g) && Distinct(order) && ToSet(order) == ToSet(pr.g.ids)
    ensures Cost(pr, p) == Sum(order, StepOf(pr, p))
  {
    HopTotal(pr, p);
    StepTotal(pr, p, order);
  }

  // Summing a function of the source over the predecessor list is summing it over
  // the incoming edges.
  lemma {:induction false} PredsSum(es: seq<Edge>, v: StageId, h: StageId -> real, f: Edge -> real)
    requires forall e :: e in es && e.target == v ==> h(e.source) == f(e)
    ensures Sum(Preds(es, v), h) == SumWhere(es, Target(), v, f)
  {
    if es != [] {
      var n := |es| - 1;
      PredsSum(es[..n], v, h, f);
      if es[n].target == v {
        assert es[n] in es;
        SumAppend(Preds(es[..n], v), es[n].source, h);
      } else {
        assert Preds(es, v) == Preds(es[..n], v);
      }
    }
  }
}
