// What the pieces of placement come to on raw capacities, loads, demands, stored latencies
// and trust values, without the helper functions the solvers share.
module PlacementEffects {
  import opened Wrappers
  import opened Minima
  import opened Sequences
  import opened Sorting
  import opened Graphs
  import opened Topologies
  import opened Feasibility
  import opened Greedy
  import opened Redistribution

  // ---------------------------------------------------------------- lookups

  // A stored latency counts in both directions, and a node reaches itself for free.
  lemma StoredLatency(t: Topology, a: NodeId, b: NodeId)
    requires ValidTopology(t) && (a, b) in t.latency && a != b
    ensures HasLatency(t, a, b) && HasLatency(t, b, a) && HasLatency(t, a, a)
    ensures Latency(t, a, b) == t.latency[(a, b)] && Latency(t, b, a) == t.latency[(a, b)] && Latency(t, a, a) == 0.0
  {}

  // A trust value stored one way counts in both directions; if both are stored each counts
  // its own way; a domain trusts itself, and strangers not at all.
  lemma StoredTrust(gov: Governance, a: string, b: string)
    ensures Trust(gov, a, a) == 1.0
    ensures a != b && (a, b) in gov.trust ==> Trust(gov, a, b) == gov.trust[(a, b)]
    ensures a != b && (a, b) in gov.trust && (b, a) !in gov.trust ==> Trust(gov, b, a) == gov.trust[(a, b)]
    ensures a != b && (a, b) !in gov.trust && (b, a) !in gov.trust ==> Trust(gov, a, b) == 0.0
  {}

  // The workers a requirement accepts: its own slice and the flat ones.
  lemma SliceAccepts(workerSlice: string, slice: string)
    ensures SliceMatches(workerSlice, None)
    ensures SliceMatches(workerSlice, Some(slice)) <==> workerSlice in {slice, "flat"}
  {}

  // ---------------------------------------------------------------- one stage on one node

  // The slice and the declared domain allow the node.
  ghost predicate Permitted(stage: Stage, node: Unit) {
    && (stage.slice == None || stage.slice == Some(node.slice) || node.slice == "flat")
    && (stage.domain == None || stage.domain == Some(node.domain))
  }

  // The filter is the permission and the room for the demand; the list of local stage
  // types adds nothing to a declared domain.
  lemma FitsAloneExactly(stage: Stage, node: Unit, gov: Governance)
    ensures FitsAlone(stage, node, gov)
      <==> Permitted(stage, node) && stage.demand <= node.capacity - node.load + 0.000000001
  {}

  // ---------------------------------------------------------------- the checker

  // The stage's node permits it and carries no more than its free capacity.
  ghost predicate Sits(pr: Problem, p: Placement, s: StageId)
    requires Assigns(pr, p) && s in p
  {
    var node := GetNode(pr.t, p[s]);
    Permitted(pr.g.stages[s], node) && NodeLoad(pr, p, p[s]) <= node.capacity - node.load + 0.000000001
  }

  // Both ends are placed, close enough and in domains that trust each other.
  ghost predicate Flows(pr: Problem, p: Placement, e: Edge)
    requires ValidProblem(pr) && Assigns(pr, p)
  {
    && e.source in p && e.target in p
    && Latency(pr.t, p[e.source], p[e.target]) <= e.bound + 0.000000001
    && var d, f := GetNode(pr.t, p[e.source]).domain, GetNode(pr.t, p[e.target]).domain;
       d == f || Trust(pr.gov, d, f) > 0.0
  }

  lemma FeasibleExactly(pr: Problem, p: Placement)
    requires ValidProblem(pr) && Assigns(pr, p)
    ensures Feasible(pr, p) <==>
      (forall s :: s in p ==> Sits(pr, p, s)) && (forall e :: e in pr.g.edges ==> Flows(pr, p, e))
  {
    hide WellFormed, NodeLoad, GetNode, NodeIds;
    if Feasible(pr, p) {
      forall e | e in pr.g.edges ensures Flows(pr, p, e) {}
      forall s | s in p ensures Sits(pr, p, s) {}
    } else if (forall s :: s in p ==> Sits(pr, p, s)) && (forall e :: e in pr.g.edges ==> Flows(pr, p, e)) {
      forall s | s in p
        ensures NodeLoad(pr, p, p[s]) <= GetNode(pr.t, p[s]).Residual() + TOLERANCE
        ensures SovereigntyHolds(StageOf(pr, s), GetNode(pr.t, p[s]))
        ensures SliceMatches(GetNode(pr.t, p[s]).slice, StageOf(pr, s).slice)
      {
        assert Sits(pr, p, s);
      }
      forall e | e in pr.g.edges
        ensures BothPlaced(p, e) && LatencyHolds(pr, e.bound, p[e.source], p[e.target])
        ensures TrustHolds(pr, p[e.source], p[e.target])
      {
        assert Flows(pr, p, e);
      }
      assert false;
    }
  }

  // Each class of violations on its own, whatever else is violated.
  lemma ViolatesExactly(pr: Problem, p: Placement, s: StageId, n: NodeId, e: Edge)
    requires ValidProblem(pr) && Assigns(pr, p)
    ensures n in p.Values ==>
      (Violates(pr, p, Overloaded(n))
       <==> NodeLoad(pr, p, n) > GetNode(pr.t, n).capacity - GetNode(pr.t, n).load + 0.000000001)
    ensures e in pr.g.edges ==> (Violates(pr, p, NotPlaced(e)) <==> e.source !in p || e.target !in p)
    ensures e in pr.g.edges && e.source in p && e.target in p ==>
      var a, b := GetNode(pr.t, p[e.source]), GetNode(pr.t, p[e.target]);
      && (Violates(pr, p, TooSlow(e)) <==> Latency(pr.t, p[e.source], p[e.target]) > e.bound + 0.000000001)
      && (Violates(pr, p, Untrusted(e)) <==> a.domain != b.domain && Trust(pr.gov, a.domain, b.domain) <= 0.0)
    ensures s in p ==>
      var stage, node := pr.g.stages[s], GetNode(pr.t, p[s]);
      var away := stage.domain.Some? && node.domain != stage.domain.value;
      && (Violates(pr, p, OutsideDomain(s)) <==> away)
      && (Violates(pr, p, LocalOnly(s)) <==> away && stage.stageType in pr.gov.localTypes)
      && (Violates(pr, p, WrongSlice(s))
          <==> stage.slice.Some? && node.slice != stage.slice.value && node.slice != "flat")
  {
    hide WellFormed, NodeLoad;
  }

  // An empty node carries nothing, and every stage placed adds its demand to its own node.
  lemma LoadExactly(pr: Problem, p: Placement, s: StageId, n: NodeId, m: NodeId)
    requires WellFormed(pr.g) && s !in p && s in pr.g.stages
    ensures NodeLoad(pr, map[], m) == 0.0
    ensures NodeLoad(pr, p[s := n], m) == NodeLoad(pr, p, m) + if m == n then pr.g.stages[s].demand else 0.0
  {
    SumZero(pr.g.ids, LoadOn(pr, map[], m));
    LoadExtends(pr, p, s, n, m);
  }

  // ---------------------------------------------------------------- the greedy test

  // Data may flow from u on a to v on b: over the indexed edge's bound and between trusting domains.
  ghost predicate MayFlow(pr: Problem, u: StageId, v: StageId, a: NodeId, b: NodeId)
    requires ValidProblem(pr) && a in NodeIds(pr.t) && b in NodeIds(pr.t)
  {
    && GetEdge(pr.g.edges, u, v).Some?
    && Latency(pr.t, a, b) <= GetEdge(pr.g.edges, u, v).value.bound + 0.000000001
    && var d, e := GetNode(pr.t, a).domain, GetNode(pr.t, b).domain; d == e || Trust(pr.gov, d, e) > 0.0
  }

  // Placing s on n next to p keeps every constraint that s touches: the node's rules and its
  // capacity, with everything placed there, and the hops to placed neighbours.
  ghost predicate MayJoin(pr: Problem, p: Placement, s: StageId, n: NodeId)
    requires ValidProblem(pr) && Assigns(pr, p) && s in pr.g.stages && n in NodeIds(pr.t)
  {
    var node := GetNode(pr.t, n);
    && Permitted(pr.g.stages[s], node)
    && NodeLoad(pr, p[s := n], n) <= node.capacity - node.load + 0.000000001
    && (forall c :: c in p && HasEdge(pr.g.edges, c, s) ==> MayFlow(pr, c, s, p[c], n))
    && (forall c :: c in p && HasEdge(pr.g.edges, s, c) ==> MayFlow(pr, s, c, n, p[c]))
  }

  lemma LoadNonNegative(pr: Problem, p: Placement, n: NodeId)
    requires NonNegativeDemands(pr)
    ensures NodeLoad(pr, p, n) >= 0.0
  {
    SumZero(pr.g.ids, NothingOn());
    SumMonotone(pr.g.ids, NothingOn(), LoadOn(pr, p, n));
  }

  function NothingOn(): StageId -> real {
    (s: StageId) => 0.0
  }

  // The capacity after the move is the only test of room: the two the pass makes come to it.
  lemma RoomExactly(pr: Problem, p: Placement, s: StageId, n: NodeId)
    requires ValidProblem(pr) && NonNegativeDemands(pr) && s in pr.g.stages && s !in p && n in NodeIds(pr.t)
    ensures var stage, node := pr.g.stages[s], GetNode(pr.t, n);
      FitsAlone(stage, node, pr.gov) && RoomLeft(stage, node, NodeLoad(pr, p, n)) <==>
      Permitted(stage, node) && NodeLoad(pr, p[s := n], n) <= node.capacity - node.load + 0.000000001
  {
    FitsAloneExactly(pr.g.stages[s], GetNode(pr.t, n), pr.gov);
    LoadExtends(pr, p, s, n, n);
    LoadNonNegative(pr, p, n);
    hide ValidTopology, NodeLoad, GetNode, FitsAlone, Permitted;
  }

  lemma FlowExactly(pr: Problem, u: StageId, v: StageId, a: NodeId, b: NodeId)
    requires ValidProblem(pr) && a in NodeIds(pr.t) && b in NodeIds(pr.t) && HasEdge(pr.g.edges, u, v)
    ensures HopAllowed(pr, u, v, a, b) <==> MayFlow(pr, u, v, a, b)
  {
    Adjacent(pr.g.edges, u, v);
    hide ValidTopology, WellFormed, GetNode, NodeIds;
  }

  // The greedy test of a node, for non-negative demands.
  lemma NodeFeasibleExactly(pr: Problem, p: Placement, s: StageId, n: NodeId)
    requires ValidProblem(pr) && NonNegativeDemands(pr) && Assigns(pr, p)
    requires s in pr.g.stages && s !in p && n in NodeIds(pr.t)
    ensures NodeFeasible(pr, p, s, n) <==> MayJoin(pr, p, s, n)
  {
    RoomExactly(pr, p, s, n);
    hide ValidProblem, NodeLoad, GetNode, FitsAlone, Permitted, RoomLeft, HopAllowed, MayFlow, NodeIds;
    forall c | c in p && HasEdge(pr.g.edges, c, s)
      ensures HopAllowed(pr, c, s, p[c], n) <==> MayFlow(pr, c, s, p[c], n)
    {
      FlowExactly(pr, c, s, p[c], n);
    }
    forall c | c in p && HasEdge(pr.g.edges, s, c)
      ensures HopAllowed(pr, s, c, n, p[c]) <==> MayFlow(pr, s, c, n, p[c])
    {
      FlowExactly(pr, s, c, n, p[c]);
    }
    forall c ensures c in Preds(pr.g.edges, s) <==> HasEdge(pr.g.edges, c, s) { Adjacent(pr.g.edges, c, s); }
    forall c ensures c in Succs(pr.g.edges, s) <==> HasEdge(pr.g.edges, s, c) { Adjacent(pr.g.edges, s, c); }
  }

  // A run is stuck exactly when no node may take the next stage.
  lemma StuckExactly(pr: Problem, order: seq<StageId>, k: nat, p: Placement)
    requires ValidProblem(pr) && NonNegativeDemands(pr) && Distinct(order) && k < |order|
    requires GreedyRun(pr, order, k, p) && order[k] in pr.g.stages
    ensures GreedyStuck(pr, order, k, p) <==> forall n :: n in NodeIds(pr.t) ==> !MayJoin(pr, p, order[k], n)
  {
    NotYetPlaced(pr, order, k, p);
    hide ValidProblem, NodeFeasible, MayJoin, NodeIds, GreedyRun;
    forall n | n in NodeIds(pr.t) ensures NodeFeasible(pr, p, order[k], n) <==> MayJoin(pr, p, order[k], n) {
      NodeFeasibleExactly(pr, p, order[k], n);
    }
  }

  lemma NotYetPlaced(pr: Problem, order: seq<StageId>, k: nat, p: Placement)
    requires ValidProblem(pr) && Distinct(order) && k < |order| && GreedyRun(pr, order, k, p)
    ensures order[k] !in p && Assigns(pr, p)
  {
    assert order[k] !in ToSet(order[..k]);
  }

  // The chosen node may take the stage, every other node that may costs at least as much,
  // and an earlier one costs more.
  lemma ChoiceExactly(pr: Problem, p: Placement, s: StageId, n: NodeId)
    requires ValidProblem(pr) && NonNegativeDemands(pr) && Assigns(pr, p) && s in pr.g.stages && s !in p
    requires GreedyChoice(pr, p, s, n)
    ensures n in NodeIds(pr.t) && MayJoin(pr, p, s, n)
    ensures forall i :: 0 <= i < |pr.t.nodes| && MayJoin(pr, p, s, NodeIds(pr.t)[i]) ==>
      && Increment(pr, p, s, n) <= Increment(pr, p, s, NodeIds(pr.t)[i])
      && (i < IndexOf(NodeIds(pr.t), n) ==> Increment(pr, p, s, n) < Increment(pr, p, s, NodeIds(pr.t)[i]))
  {
    ChosenFits(pr, p, s, n);
    NodeFeasibleExactly(pr, p, s, n);
    hide ValidProblem, NodeFeasible, MayJoin, Increment, GreedyChoice;
    forall i | 0 <= i < |pr.t.nodes| && MayJoin(pr, p, s, NodeIds(pr.t)[i])
      ensures Increment(pr, p, s, n) <= Increment(pr, p, s, NodeIds(pr.t)[i])
      ensures i < IndexOf(NodeIds(pr.t), n) ==> Increment(pr, p, s, n) < Increment(pr, p, s, NodeIds(pr.t)[i])
    {
      NodeFeasibleExactly(pr, p, s, NodeIds(pr.t)[i]);
      EarlierCostsMore(pr, p, s, n, i);
    }
  }

  lemma EarlierCostsMore(pr: Problem, p: Placement, s: StageId, n: NodeId, i: nat)
    requires ValidProblem(pr) && Assigns(pr, p) && s in pr.g.stages && GreedyChoice(pr, p, s, n) && n in NodeIds(pr.t)
    requires i < |pr.t.nodes| && NodeIds(pr.t)[i] in NodeIds(pr.t) && NodeFeasible(pr, p, s, NodeIds(pr.t)[i])
    ensures Increment(pr, p, s, n) <= Increment(pr, p, s, NodeIds(pr.t)[i])
    ensures i < IndexOf(NodeIds(pr.t), n) ==> Increment(pr, p, s, n) < Increment(pr, p, s, NodeIds(pr.t)[i])
  {
    var scores, ids := Scores(pr, p, s), NodeIds(pr.t);
    ArgMinLeast(scores);
    IndexOfDistinct(ids, ArgMin(scores).value);
    assert scores[ArgMin(scores).value] == Fin(Increment(pr, p, s, n));
    hide NodeFeasible, Increment, ArgMin;
    assert scores[i] == Fin(Increment(pr, p, s, ids[i]));
  }

  // ---------------------------------------------------------------- the cost

  // The load ratio is the demand's share of the capacity, at least 1e-12 of it.
  lemma RatioTimesCapacity(stage: Stage, node: Unit)
    ensures node.capacity >= 0.000000000001 ==> LoadRatio(stage, node) * node.capacity == stage.demand
    ensures node.capacity < 0.000000000001 ==> LoadRatio(stage, node) * 0.000000000001 == stage.demand
  {}

  // The same nodes under other current loads.
  ghost predicate SameButLoads(t: Topology, u: Topology) {
    && t.latency == u.latency && |t.nodes| == |u.nodes|
    && forall i :: 0 <= i < |t.nodes| ==> u.nodes[i] == t.nodes[i].(load := u.nodes[i].load)
  }

  lemma SameUnits(t: Topology, u: Topology, n: NodeId)
    requires SameButLoads(t, u)
    ensures NodeIds(t) == NodeIds(u)
    ensures n in NodeIds(t) ==> GetNode(u, n) == GetNode(t, n).(load := GetNode(u, n).load)
  {
    assert NodeIds(t) == NodeIds(u);
  }

  // The cost of a placement does not depend on the current loads.
  lemma CostIgnoresLoads(pr: Problem, u: Topology, p: Placement)
    requires SameButLoads(pr.t, u)
    ensures Cost(pr.(t := u), p) == Cost(pr, p)
  {
    var other := pr.(t := u);
    hide Weighted, GetNode, NodeIds, SameButLoads;
    assert u.latency == pr.t.latency by { SameTables(pr.t, u); }
    forall n ensures n in NodeIds(pr.t) <==> n in NodeIds(u) { SameUnits(pr.t, u, n); }
    forall n | n in NodeIds(pr.t) ensures GetNode(u, n) == GetNode(pr.t, n).(load := GetNode(u, n).load) {
      SameUnits(pr.t, u, n);
    }
    SumCong(pr.g.edges, LatencyOf(pr, p), LatencyOf(other, p));
    SumCong(pr.g.edges, CrossOf(pr, p), CrossOf(other, p));
    SumCong(pr.g.ids, RatioOf(pr, p), RatioOf(other, p));
  }

  lemma SameTables(t: Topology, u: Topology)
    requires SameButLoads(t, u)
    ensures t.latency == u.latency
  {}

  function WithEdge(pr: Problem, e: Edge): Problem {
    pr.(g := pr.g.(edges := pr.g.edges + [e]))
  }

  lemma EdgeSums(pr: Problem, e: Edge, p: Placement)
    ensures var more, es := WithEdge(pr, e), pr.g.edges;
      && Sum(more.g.edges, LatencyOf(more, p)) == Sum(es, LatencyOf(pr, p)) + LatencyOf(pr, p)(e)
      && Sum(more.g.edges, CrossOf(more, p)) == Sum(es, CrossOf(pr, p)) + CrossOf(pr, p)(e)
      && Sum(more.g.ids, RatioOf(more, p)) == Sum(pr.g.ids, RatioOf(pr, p))
  {
    var more, es := WithEdge(pr, e), pr.g.edges;
    hide GetNode, NodeIds, Latency, HasLatency;
    SumAppend(es, e, LatencyOf(more, p));
    SumAppend(es, e, CrossOf(more, p));
    SumCong(es, LatencyOf(pr, p), LatencyOf(more, p));
    SumCong(es, CrossOf(pr, p), CrossOf(more, p));
    SumCong(pr.g.ids, RatioOf(pr, p), RatioOf(more, p));
  }

  lemma EdgeDifference(pr: Problem, e: Edge, p: Placement)
    ensures Cost(WithEdge(pr, e), p)
      == Cost(pr, p) + Times(pr.w.alpha, LatencyOf(pr, p)(e)) + Times(pr.w.gamma, CrossOf(pr, p)(e))
  {
    EdgeSums(pr, e, p);
    Distribute(pr.w.alpha, Sum(pr.g.edges, LatencyOf(pr, p)), LatencyOf(pr, p)(e));
    Distribute(pr.w.gamma, Sum(pr.g.edges, CrossOf(pr, p)), CrossOf(pr, p)(e));
    assert WithEdge(pr, e).w == pr.w;
    hide Times, LatencyOf, CrossOf, RatioOf, WithEdge;
  }

  // One more edge costs alpha for each unit of latency between its ends, and gamma if it
  // leaves the domain.
  lemma EdgePrice(pr: Problem, e: Edge, p: Placement)
    requires ValidProblem(pr) && Assigns(pr, p) && e.source in p && e.target in p
    ensures var a, b := p[e.source], p[e.target];
      HasLatency(pr.t, a, b)
      && Cost(WithEdge(pr, e), p) == Cost(pr, p) + pr.w.alpha * Latency(pr.t, a, b)
        + if GetNode(pr.t, a).domain != GetNode(pr.t, b).domain then pr.w.gamma else 0.0
  {
    hide *;
    BothKnown(pr, p, e);
    EdgeDifference(pr, e, p);
    EdgeTerms(pr, e, p);
    var crosses := GetNode(pr.t, p[e.source]).domain != GetNode(pr.t, p[e.target]).domain;
    TermsInNumbers(pr.w, Latency(pr.t, p[e.source], p[e.target]), crosses);
  }

  lemma EdgeTerms(pr: Problem, e: Edge, p: Placement)
    requires ValidProblem(pr) && Assigns(pr, p) && e.source in p && e.target in p
    requires HasLatency(pr.t, p[e.source], p[e.target])
    ensures LatencyOf(pr, p)(e) == Latency(pr.t, p[e.source], p[e.target])
    ensures CrossOf(pr, p)(e)
      == if GetNode(pr.t, p[e.source]).domain != GetNode(pr.t, p[e.target]).domain then 1.0 else 0.0
  {
    hide ValidProblem, GetNode, NodeIds, Latency, HasLatency;
  }

  lemma TermsInNumbers(w: Weights, latency: real, crosses: bool)
    ensures Times(w.alpha, latency) == w.alpha * latency
    ensures Times(w.gamma, if crosses then 1.0 else 0.0) == if crosses then w.gamma else 0.0
  {}

  lemma BothKnown(pr: Problem, p: Placement, e: Edge)
    requires ValidProblem(pr) && Assigns(pr, p) && e.source in p && e.target in p
    ensures p[e.source] in NodeIds(pr.t) && p[e.target] in NodeIds(pr.t)
    ensures HasLatency(pr.t, p[e.source], p[e.target])
  {}

  function WithStage(pr: Problem, stage: Stage): Problem {
    pr.(g := pr.g.(ids := pr.g.ids + [stage.id], stages := pr.g.stages[stage.id := stage]))
  }

  lemma StageSums(pr: Problem, stage: Stage, p: Placement, n: NodeId)
    requires ValidProblem(pr) && Assigns(pr, p) && stage.id !in pr.g.ids && n in NodeIds(pr.t)
    ensures var more, q := WithStage(pr, stage), p[stage.id := n];
      && Sum(more.g.edges, LatencyOf(more, q)) == Sum(pr.g.edges, LatencyOf(pr, p))
      && Sum(more.g.edges, CrossOf(more, q)) == Sum(pr.g.edges, CrossOf(pr, p))
      && Sum(more.g.ids, RatioOf(more, q)) == Sum(pr.g.ids, RatioOf(pr, p)) + LoadRatio(stage, GetNode(pr.t, n))
  {
    var more, q := WithStage(pr, stage), p[stage.id := n];
    hide ValidTopology, GetNode, NodeIds, Latency, HasLatency, LoadRatio;
    SumAppend(pr.g.ids, stage.id, RatioOf(more, q));
    SumCong(pr.g.ids, RatioOf(pr, p), RatioOf(more, q));
    SumCong(pr.g.edges, LatencyOf(pr, p), LatencyOf(more, q));
    SumCong(pr.g.edges, CrossOf(pr, p), CrossOf(more, q));
  }

  lemma StageDifference(pr: Problem, stage: Stage, p: Placement, n: NodeId)
    requires ValidProblem(pr) && Assigns(pr, p) && stage.id !in pr.g.ids && n in NodeIds(pr.t)
    ensures Cost(WithStage(pr, stage), p[stage.id := n])
      == Cost(pr, p) + Times(pr.w.beta, LoadRatio(stage, GetNode(pr.t, n)))
  {
    StageSums(pr, stage, p, n);
    Distribute(pr.w.beta, Sum(pr.g.ids, RatioOf(pr, p)), LoadRatio(stage, GetNode(pr.t, n)));
    hide LoadRatio, ValidProblem, GetNode, NodeIds, Times;
  }

  // One more stage costs beta for its share of its node's capacity.
  lemma StagePrice(pr: Problem, stage: Stage, p: Placement, n: NodeId)
    requires ValidProblem(pr) && Assigns(pr, p) && stage.id !in pr.g.ids && n in NodeIds(pr.t)
    requires GetNode(pr.t, n).capacity >= 0.000000000001
    ensures (Cost(WithStage(pr, stage), p[stage.id := n]) - Cost(pr, p)) * GetNode(pr.t, n).capacity
      == pr.w.beta * stage.demand
  {
    hide *;
    var node := GetNode(pr.t, n);
    StageDifference(pr, stage, p, n);
    RatioTimesCapacity(stage, node);
    ShareOfPrice(Cost(pr, p), Cost(WithStage(pr, stage), p[stage.id := n]), pr.w.beta, LoadRatio(stage, node),
                 node.capacity, stage.demand);
  }

  lemma ShareOfPrice(before: real, after: real, beta: real, ratio: real, capacity: real, demand: real)
    requires after == before + Times(beta, ratio) && ratio * capacity == demand
    ensures (after - before) * capacity == beta * demand
  {
    Reassociate(beta, ratio, capacity);
  }

  lemma Reassociate(a: real, b: real, c: real)
    ensures (a * b) * c == a * (b * c)
  {}

  // ---------------------------------------------------------------- one move of redistribution

  // Another node admits c, alone and beside everything placed there.
  ghost predicate TakesOver(pr: Problem, p: Placement, c: StageId, node: Unit)
    requires c in p && c in pr.g.stages
  {
    && node.nodeId != p[c] && Permitted(pr.g.stages[c], node)
    && pr.g.stages[c].demand <= node.capacity - node.load + 0.000000001
    && NodeLoad(pr, p, node.nodeId) + pr.g.stages[c].demand <= node.capacity - node.load + 0.000000001
  }

  lemma ScoreExactly(pr: Problem, st: Ledger, c: StageId, node: Unit)
    requires LedgerExact(pr, st) && c in st.p && c in pr.g.stages
    ensures AltScore(pr, pr.g.stages[c], st.p[c], st.load, node)
      == if TakesOver(pr, st.p, c, node) then Fin(NodeLoad(pr, st.p, node.nodeId)) else Inf
  {
    FitsAloneExactly(pr.g.stages[c], node, pr.gov);
    assert LoadEntry(st.load, node.nodeId) == NodeLoad(pr, st.p, node.nodeId);
    hide NodeLoad, FitsAlone, Permitted;
  }

  // c moves exactly when another node takes it over, and then to the first of the least
  // loaded ones.
  lemma MovesExactly(pr: Problem, st: Ledger, c: StageId)
    requires ValidProblem(pr) && LedgerExact(pr, st) && c in st.p && c in pr.g.stages
    ensures var after := MoveOne(pr, st, c);
      && (after.p == st.p <==> forall node :: node in pr.t.nodes ==> !TakesOver(pr, st.p, c, node))
      && (after.p != st.p ==> exists j :: 0 <= j < |pr.t.nodes| && MovesTo(pr, st.p, c, j, after.p))
  {
    var best := BestAlternative(pr, pr.g.stages[c], st.p[c], st.load);
    ScoresExactly(pr, st, c);
    ArgMinLeast(AltScores(pr, pr.g.stages[c], st.p[c], st.load));
    hide ValidProblem, LedgerExact, NodeLoad, AltScores, TakesOver, ArgMin, MovesTo;
    if best.Some? {
      var j := best.value;
      BestTakes(pr, st, c, j);
      TakesAnother(pr, st.p, c, pr.t.nodes[j]);
      assert MovesTo(pr, st.p, c, j, MoveOne(pr, st, c).p);
      assert pr.t.nodes[j] in pr.t.nodes;
    } else {
      forall node | node in pr.t.nodes ensures !TakesOver(pr, st.p, c, node) {
        var i :| 0 <= i < |pr.t.nodes| && pr.t.nodes[i] == node;
      }
    }
  }

  lemma BestTakes(pr: Problem, st: Ledger, c: StageId, j: nat)
    requires LedgerExact(pr, st) && c in st.p && c in pr.g.stages
    requires BestAlternative(pr, pr.g.stages[c], st.p[c], st.load) == Some(j)
    ensures j < |pr.t.nodes| && TakesOver(pr, st.p, c, pr.t.nodes[j])
    ensures MovesTo(pr, st.p, c, j, st.p[c := pr.t.nodes[j].nodeId])
  {
    ScoresExactly(pr, st, c);
    ArgMinLeast(AltScores(pr, pr.g.stages[c], st.p[c], st.load));
    hide ValidProblem, LedgerExact, NodeLoad, AltScores, TakesOver, ArgMin;
  }

  lemma ScoresExactly(pr: Problem, st: Ledger, c: StageId)
    requires LedgerExact(pr, st) && c in st.p && c in pr.g.stages
    ensures var scores := AltScores(pr, pr.g.stages[c], st.p[c], st.load);
      && |scores| == |pr.t.nodes|
      && forall i :: 0 <= i < |scores| ==>
           scores[i] == if TakesOver(pr, st.p, c, pr.t.nodes[i]) then Fin(NodeLoad(pr, st.p, pr.t.nodes[i].nodeId))
                        else Inf
  {
    hide LedgerExact, NodeLoad, AltScore, TakesOver;
    forall i | 0 <= i < |pr.t.nodes|
      ensures AltScore(pr, pr.g.stages[c], st.p[c], st.load, pr.t.nodes[i])
        == if TakesOver(pr, st.p, c, pr.t.nodes[i]) then Fin(NodeLoad(pr, st.p, pr.t.nodes[i].nodeId)) else Inf
    {
      ScoreExactly(pr, st, c, pr.t.nodes[i]);
    }
  }

  lemma TakesAnother(pr: Problem, p: Placement, c: StageId, node: Unit)
    requires c in p && c in pr.g.stages && TakesOver(pr, p, c, node)
    ensures node.nodeId != p[c]
  {}

  ghost predicate MovesTo(pr: Problem, p: Placement, c: StageId, j: nat, q: Placement)
    requires c in p && c in pr.g.stages && j < |pr.t.nodes|
  {
    && q == p[c := pr.t.nodes[j].nodeId] && TakesOver(pr, p, c, pr.t.nodes[j])
    && forall i :: 0 <= i < |pr.t.nodes| && TakesOver(pr, p, c, pr.t.nodes[i]) ==>
         && NodeLoad(pr, p, pr.t.nodes[j].nodeId) <= NodeLoad(pr, p, pr.t.nodes[i].nodeId)
         && (i < j ==> NodeLoad(pr, p, pr.t.nodes[j].nodeId) < NodeLoad(pr, p, pr.t.nodes[i].nodeId))
  }

  // Moves are made in the order given, each on what the ones before it left, and so are the
  // fan-ins of a pass.
  lemma {:induction false} MovesInOrder(pr: Problem, st: Ledger, xs: seq<StageId>, ys: seq<StageId>)
    ensures MoveAll(pr, st, []) == st && (forall c :: MoveAll(pr, st, [c]) == MoveOne(pr, st, c))
    ensures MoveAll(pr, st, xs + ys) == MoveAll(pr, MoveAll(pr, st, xs), ys)
  {
    hide MoveOne;
    forall c ensures MoveAll(pr, st, [c]) == MoveOne(pr, st, c) { assert [c][..0] == []; }
    if ys == [] {
      assert xs + ys == xs;
    } else {
      var m := |ys| - 1;
      assert (xs + ys)[..|xs|+m] == xs + ys[..m] && (xs + ys)[|xs|+m] == ys[m];
      MovesInOrder(pr, st, xs, ys[..m]);
    }
  }

  lemma {:induction false} SpreadsInOrder(pr: Problem, st: Ledger, xs: seq<StageId>, ys: seq<StageId>)
    ensures Spread(pr, st, []) == st
    ensures forall v :: Spread(pr, st, [v]) == MoveAll(pr, st, Plan(pr, st.p, v))
    ensures Spread(pr, st, xs + ys) == Spread(pr, Spread(pr, st, xs), ys)
  {
    hide MoveAll, Plan;
    forall v ensures Spread(pr, st, [v]) == MoveAll(pr, st, Plan(pr, st.p, v)) { assert [v][..0] == []; }
    if ys == [] {
      assert xs + ys == xs;
    } else {
      var m := |ys| - 1;
      assert (xs + ys)[..|xs|+m] == xs + ys[..m] && (xs + ys)[|xs|+m] == ys[m];
      SpreadsInOrder(pr, st, xs, ys[..m]);
    }
  }

  // ---------------------------------------------------------------- the stages a fan-in offers

  // k shares c's node and stays before c: it is heavier, or as heavy and listed earlier.
  ghost predicate Ahead(pr: Problem, preds: seq<StageId>, p: Placement, k: StageId, c: StageId) {
    && k in preds && c in preds && k != c && k in p && c in p && p[k] == p[c]
    && k in pr.g.stages && c in pr.g.stages
    && (pr.g.stages[k].demand > pr.g.stages[c].demand
        || (pr.g.stages[k].demand == pr.g.stages[c].demand && IndexOf(preds, k) < IndexOf(preds, c)))
  }

  lemma {:induction false} ColocatedOrder(preds: seq<StageId>, p: Placement, n: NodeId, i: nat, j: nat)
    requires Distinct(preds) && i < j < |Colocated(preds, p, n)|
    ensures var xs := Colocated(preds, p, n);
      xs[i] in preds && xs[j] in preds && IndexOf(preds, xs[i]) < IndexOf(preds, xs[j])
  {
    var m := |preds| - 1;
    ColocatedIn(preds, p, n);
    ColocatedIn(preds[..m], p, n);
    var xs, ys := Colocated(preds, p, n), Colocated(preds[..m], p, n);
    if j < |ys| {
      ColocatedOrder(preds[..m], p, n, i, j);
      PrefixIndex(preds, m, ys[i]);
      PrefixIndex(preds, m, ys[j]);
    } else {
      assert xs[i] == ys[i] && xs[j] == preds[m];
      PrefixIndex(preds, m, ys[i]);
      IndexOfDistinct(preds, m);
    }
  }

  lemma {:induction false} AllHosts(preds: seq<StageId>, p: Placement, c: StageId)
    requires c in preds && c in p
    ensures p[c] in HostNodes(preds, p)
  {
    var m := |preds| - 1;
    if preds[m] != c {
      assert c in preds[..m];
      AllHosts(preds[..m], p, c);
    }
  }

  lemma {:induction false} AllGroups(pr: Problem, preds: seq<StageId>, p: Placement, hosts: seq<NodeId>, n: NodeId,
                                     c: StageId)
    requires n in hosts && c in Movable(pr, preds, p, n)
    ensures c in MovableOf(pr, preds, p, hosts)
  {
    hide Movable;
    var m := |hosts| - 1;
    if hosts[m] != n {
      assert n in hosts[..m];
      AllGroups(pr, preds, p, hosts[..m], n, c);
    }
  }

  lemma StaysExactly(pr: Problem, preds: seq<StageId>, p: Placement, c: StageId)
    requires Distinct(preds) && (forall u :: u in preds ==> u in p && u in pr.g.stages) && c in preds
    ensures c in Movable(pr, preds, p, p[c]) <==> exists k :: Ahead(pr, preds, p, k, c)
  {
    var xs, key := Colocated(preds, p, p[c]), NegatedDemand(pr);
    ColocatedIn(preds, p, p[c]);
    var i := FirstSorted(xs, key);
    HeadStays(pr, preds, p, p[c], c);
    hide SortBy, Colocated, Movable, FirstLeast, Ahead;
    if xs[i] != c {
      HeadAhead(pr, preds, p, c, i);
    } else {
      forall k ensures !Ahead(pr, preds, p, k, c) { NobodyAhead(pr, preds, p, c, i, k); }
    }
  }

  // All but the head of the sorted group are offered.
  lemma HeadStays(pr: Problem, preds: seq<StageId>, p: Placement, n: NodeId, c: StageId)
    requires Distinct(Colocated(preds, p, n)) && c in Colocated(preds, p, n)
    ensures var group := SortBy(Colocated(preds, p, n), NegatedDemand(pr));
      group != [] && (c in Movable(pr, preds, p, n) <==> c != group[0])
  {
    var xs, key := Colocated(preds, p, n), NegatedDemand(pr);
    SortDistinct(xs, key);
    var group := SortBy(xs, key);
    hide SortBy, Colocated;
    var at :| 0 <= at < |group| && group[at] == c;
    if at > 0 { assert group[1..][at-1] == c && group[0] != group[at]; }
  }

  lemma HeadAhead(pr: Problem, preds: seq<StageId>, p: Placement, c: StageId, i: nat)
    requires Distinct(preds) && (forall u :: u in preds ==> u in p && u in pr.g.stages) && c in preds
    requires FirstLeast(Colocated(preds, p, p[c]), NegatedDemand(pr), i) && Colocated(preds, p, p[c])[i] != c
    ensures Ahead(pr, preds, p, Colocated(preds, p, p[c])[i], c)
  {
    var xs := Colocated(preds, p, p[c]);
    ColocatedIn(preds, p, p[c]);
    var j := IndexOf(xs, c);
    hide Colocated;
    assert xs[i] in xs && NegatedDemand(pr)(xs[i]) <= NegatedDemand(pr)(xs[j]);
    if j < i {
      assert NegatedDemand(pr)(xs[i]) < NegatedDemand(pr)(xs[j]);
    } else {
      ColocatedOrder(preds, p, p[c], i, j);
    }
  }

  lemma NobodyAhead(pr: Problem, preds: seq<StageId>, p: Placement, c: StageId, i: nat, k: StageId)
    requires Distinct(preds) && c in p && FirstLeast(Colocated(preds, p, p[c]), NegatedDemand(pr), i)
    requires Colocated(preds, p, p[c])[i] == c
    ensures !Ahead(pr, preds, p, k, c)
  {
    var xs := Colocated(preds, p, p[c]);
    ColocatedIn(preds, p, p[c]);
    if k in xs {
      var j := IndexOf(xs, k);
      hide Colocated;
      assert NegatedDemand(pr)(xs[i]) <= NegatedDemand(pr)(xs[j]);
      if i < j {
        ColocatedOrder(preds, p, p[c], i, j);
      } else if j < i {
        assert NegatedDemand(pr)(xs[i]) < NegatedDemand(pr)(xs[j]);
      }
    }
  }

  // A fan-in offers exactly the predecessors that have one ahead of them: of those on a node
  // all but the first of the heaviest.
  lemma OfferedExactly(pr: Problem, p: Placement, v: StageId, c: StageId)
    requires WellFormed(pr.g) && NoFanOut(pr.g) && forall u :: u in pr.g.stages ==> u in p
    ensures c in Plan(pr, p, v) <==> exists k :: Ahead(pr, Preds(pr.g.edges, v), p, k, c)
  {
    var preds := Preds(pr.g.edges, v);
    DistinctPreds(pr.g, v);
    forall u | u in preds ensures u in p && u in pr.g.stages { PredIsStage(pr.g, u, v); }
    hide *;
    OfferedBy(pr, preds, p, c);
    PlanKnownBy(pr, p, v, c);
  }

  lemma PlanKnownBy(pr: Problem, p: Placement, v: StageId, c: StageId)
    ensures var preds := Preds(pr.g.edges, v);
      c in Plan(pr, p, v) <==> |preds| >= 2 && c in MovableOf(pr, preds, p, HostNodes(preds, p))
  {
    hide Preds, HostNodes, MovableOf;
  }

  lemma OfferedBy(pr: Problem, preds: seq<StageId>, p: Placement, c: StageId)
    requires Distinct(preds) && forall u :: u in preds ==> u in p && u in pr.g.stages
    ensures |preds| >= 2 && c in MovableOf(pr, preds, p, HostNodes(preds, p)) <==> exists k :: Ahead(pr, preds, p, k, c)
  {
    PlanIsMovable(pr, preds, p, c);
    hide Ahead, MovableOf, Movable, HostNodes;
    if c in preds { StaysExactly(pr, preds, p, c); }
    forall k | Ahead(pr, preds, p, k, c) ensures |preds| >= 2 && c in preds { TwoPreds(pr, preds, p, k, c); }
  }

  lemma TwoPreds(pr: Problem, preds: seq<StageId>, p: Placement, k: StageId, c: StageId)
    requires Ahead(pr, preds, p, k, c)
    ensures |preds| >= 2 && c in preds
  {}

  lemma PlanIsMovable(pr: Problem, preds: seq<StageId>, p: Placement, c: StageId)
    requires Distinct(preds) && forall u :: u in preds ==> u in p
    ensures c in MovableOf(pr, preds, p, HostNodes(preds, p)) <==> c in preds && c in Movable(pr, preds, p, p[c])
  {
    HostsDistinct(preds, p);
    MovableOfKnown(pr, preds, p, HostNodes(preds, p));
    hide HostNodes, Movable, MovableOf;
    if c in preds {
      AllHosts(preds, p, c);
      OfferedGroup(pr, preds, p, HostNodes(preds, p), c);
    }
  }

  lemma {:induction false} OfferedGroup(pr: Problem, preds: seq<StageId>, p: Placement, hosts: seq<NodeId>, c: StageId)
    requires c in p && p[c] in hosts
    ensures c in MovableOf(pr, preds, p, hosts) <==> c in Movable(pr, preds, p, p[c])
  {
    var m := |hosts| - 1;
    MovableKnown(pr, preds, p, hosts[m]);
    GroupsJoin(pr, preds, p, hosts, c);
    hide Movable, MovableOf;
    if p[c] in hosts[..m] {
      OfferedGroup(pr, preds, p, hosts[..m], c);
    } else {
      OfferedElsewhere(pr, preds, p, hosts[..m], c);
    }
  }

  lemma GroupsJoin(pr: Problem, preds: seq<StageId>, p: Placement, hosts: seq<NodeId>, c: StageId)
    requires hosts != []
    ensures c in MovableOf(pr, preds, p, hosts) <==>
      c in MovableOf(pr, preds, p, hosts[..|hosts|-1]) || c in Movable(pr, preds, p, hosts[|hosts|-1])
  {
    hide Movable;
  }

  lemma {:induction false} OfferedElsewhere(pr: Problem, preds: seq<StageId>, p: Placement, hosts: seq<NodeId>,
                                            c: StageId)
    requires c in p && p[c] !in hosts
    ensures c !in MovableOf(pr, preds, p, hosts)
  {
    if hosts != [] {
      var m := |hosts| - 1;
      MovableKnown(pr, preds, p, hosts[m]);
      hide Movable;
      OfferedElsewhere(pr, preds, p, hosts[..m], c);
    }
  }

  // The nodes are visited in the order in which the predecessors first name them.
  lemma {:induction false} HostsInOrder(preds: seq<StageId>, p: Placement, i: nat, j: nat)
    requires i < j < |HostNodes(preds, p)|
    ensures exists a :: 0 <= a < |preds| && FirstNamed(preds, p, HostNodes(preds, p)[i], HostNodes(preds, p)[j], a)
  {
    var m := |preds| - 1;
    var before, hosts := HostNodes(preds[..m], p), HostNodes(preds, p);
    assert hosts[i] == before[i];
    if j < |before| {
      HostsInOrder(preds[..m], p, i, j);
      var a :| 0 <= a < m && FirstNamed(preds[..m], p, before[i], before[j], a);
      forall b | 0 <= b <= a ensures preds[..m][b] == preds[b] {}
      assert FirstNamed(preds, p, hosts[i], hosts[j], a);
    } else {
      var a := NamedBy(preds[..m], p, i);
      assert preds[..m][a] == preds[a] && preds[m] in p && p[preds[m]] !in before;
      forall b | 0 <= b <= a ensures preds[b] in p ==> p[preds[b]] != p[preds[m]] {
        assert preds[..m][b] == preds[b];
        if preds[b] in p { AllHosts(preds[..m], p, preds[b]); }
      }
      assert FirstNamed(preds, p, hosts[i], hosts[j], a);
    }
  }

  // The a-th predecessor is on the first node, and none up to it on the second.
  ghost predicate FirstNamed(preds: seq<StageId>, p: Placement, first: NodeId, second: NodeId, a: nat) {
    && a < |preds| && preds[a] in p && p[preds[a]] == first
    && forall b :: 0 <= b <= a && preds[b] in p ==> p[preds[b]] != second
  }

  lemma {:induction false} NamedBy(preds: seq<StageId>, p: Placement, i: nat) returns (a: nat)
    requires i < |HostNodes(preds, p)|
    ensures a < |preds| && preds[a] in p && p[preds[a]] == HostNodes(preds, p)[i]
  {
    var m := |preds| - 1;
    if i < |HostNodes(preds[..m], p)| {
      a := NamedBy(preds[..m], p, i);
    } else {
      a := m;
    }
  }

  // Of one node the heavier predecessors are offered first.
  lemma OfferedHeaviestFirst(pr: Problem, preds: seq<StageId>, p: Placement, n: NodeId, i: nat, j: nat)
    requires (forall u :: u in preds ==> u in pr.g.stages) && i < j < |Movable(pr, preds, p, n)|
    ensures var xs := Movable(pr, preds, p, n);
      && xs[i] in pr.g.stages && xs[j] in pr.g.stages
      && pr.g.stages[xs[i]].demand >= pr.g.stages[xs[j]].demand
  {
    MovableKnown(pr, preds, p, n);
    var group := SortBy(Colocated(preds, p, n), NegatedDemand(pr));
    SortSorts(Colocated(preds, p, n), NegatedDemand(pr));
    var xs := Movable(pr, preds, p, n);
    assert xs[i] == group[i+1] && xs[j] == group[j+1] && xs[i] in xs && xs[j] in xs;
  }
}
