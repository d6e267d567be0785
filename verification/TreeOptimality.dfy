// Optimality, completeness and trace-back of the in-tree dynamic program.
module TreeOptimality {
  import opened Wrappers
  import opened Minima
  import opened Sequences
  import opened Graphs
  import opened Topologies
  import opened Feasibility
  import opened TreeDp

  // p meets the per-stage filter and the per-edge latency and trust bounds: the
  // constraints the dynamic program enforces.
  ghost predicate TreeFeasible(pr: Problem, p: Placement)
    requires ValidProblem(pr)
  {
    && Total(pr, p)
    && (forall s :: s in p ==> FitsAlone(StageOf(pr, s), GetNode(pr.t, p[s]), pr.gov))
    && (forall e :: e in pr.g.edges ==> EdgeAllowed(pr, p, e))
  }

  ghost predicate EdgeAllowed(pr: Problem, p: Placement, e: Edge)
    requires ValidProblem(pr) && Assigns(pr, p)
  {
    && e.source in p
    && e.target in p
    && LatencyHolds(pr, e.bound, p[e.source], p[e.target])
    && TrustHolds(pr, p[e.source], p[e.target])
  }

  ghost predicate TreeProblem(pr: Problem, order: seq<StageId>) {
    ValidProblem(pr) && InTree(pr.g) && IsTopoOrder(pr.g, order)
  }

  // In an in-tree the index holds every edge.
  lemma {:induction false} IndexedEdge(es: seq<Edge>, e: Edge)
    requires e in es && |Succs(es, e.source)| <= 1
    ensures GetEdge(es, e.source, e.target) == Some(e)
  {
    var n := |es| - 1;
    if es[n] == e {
    } else {
      assert e in es[..n];
      Adjacent(es[..n], e.source, e.target);
      assert HasEdge(es[..n], e.source, e.target);
      IndexedEdge(es[..n], e);
    }
  }

  // ------------------------------------------------ the sum over the sources of the edges

  function AtSource(d: StageId -> real): Edge -> real {
    (e: Edge) => d(e.source)
  }

  lemma {:induction false} OneSuccessor(es: seq<Edge>, v: StageId, d: StageId -> real)
    ensures |Succs(es, v)| == 0 ==> SumWhere(es, Source(), v, AtSource(d)) == 0.0
    ensures |Succs(es, v)| == 1 ==> SumWhere(es, Source(), v, AtSource(d)) == d(v)
  {
    if es != [] { OneSuccessor(es[..|es|-1], v, d); }
  }

  lemma {:induction false} SumExcept(xs: seq<StageId>, s: StageId, d: StageId -> real, h: StageId -> real)
    requires Distinct(xs) && forall v :: v in xs ==> h(v) == if v == s then 0.0 else d(v)
    ensures Sum(xs, h) == Sum(xs, d) - if s in xs then d(s) else 0.0
  {
    if xs != [] {
      var n := |xs| - 1;
      SumExcept(xs[..n], s, d, h);
      assert xs[n] !in xs[..n];
    }
  }

  // Every stage but the sink is the source of exactly one edge.
  lemma SourcesSum(g: Graph, order: seq<StageId>, s: StageId, d: StageId -> real)
    requires WellFormed(g) && InTree(g) && IsTopoOrder(g, order) && IsOnlySink(g, s)
    ensures Sum(g.edges, AtSource(d)) == Sum(order, d) - d(s)
  {
    var h := Grouped(g.edges, Source(), AtSource(d));
    forall v | v in order ensures h(v) == if v == s then 0.0 else d(v) {
      assert v in ToSet(order);
      OneSuccessor(g.edges, v, d);
    }
    SumExcept(order, s, d, h);
    assert s in ToSet(order);
    Regroup(order, g.edges, Source(), AtSource(d));
  }

  // The cost of a stage, its incoming hops and the values of its predecessors.
  function Unfolded(pr: Problem, p: Placement, d: StageId -> real): StageId -> real {
    Added(StepOf(pr, p), Grouped(pr.g.edges, Target(), AtSource(d)))
  }

  // Summed over an in-tree, the predecessor values telescope to the sink's value.
  lemma UnfoldedTotal(pr: Problem, p: Placement, order: seq<StageId>, s: StageId, d: StageId -> real)
    requires TreeProblem(pr, order) && IsOnlySink(pr.g, s)
    ensures Sum(order, Unfolded(pr, p, d)) == Cost(pr, p) + Sum(order, d) - d(s)
  {
    SumAdded(order, StepOf(pr, p), Grouped(pr.g.edges, Target(), AtSource(d)));
    CostBySteps(pr, p, order);
    forall e | e in pr.g.edges ensures Target()(e) in order {
      assert e.target in order;
    }
    Regroup(order, pr.g.edges, Target(), AtSource(d));
    SourcesSum(pr.g, order, s, d);
  }

  // ---------------------------------------------------------------- rows of a placement

  function NodeIndex(pr: Problem, p: Placement, v: StageId): nat
    requires v in p && p[v] in NodeIds(pr.t)
  {
    IndexOf(NodeIds(pr.t), p[v])
  }

  // Table value of stage v on the node p gives it.
  ghost function RowEntry(pr: Problem, dp: Table, p: Placement, v: StageId): Ext
    requires v in p && p[v] in NodeIds(pr.t) && v in dp && |dp[v]| == |pr.t.nodes|
  {
    dp[v][NodeIndex(pr, p, v)]
  }

  ghost function ValueOf(pr: Problem, dp: Table, p: Placement): StageId -> real {
    (v: StageId) =>
      if v in p && p[v] in NodeIds(pr.t) && v in dp && |dp[v]| == |pr.t.nodes| && RowEntry(pr, dp, p, v).Fin?
                    then RowEntry(pr, dp, p, v).r else 0.0
  }

  lemma SolvedAt(pr: Problem, order: seq<StageId>, dp: Table, choice: Choices, v: StageId)
    requires TreeProblem(pr, order) && PrefixSolved(pr, order, |order|, dp, choice) && v in pr.g.stages
    ensures Solved(pr, dp, choice, v)
  {
    assert v in ToSet(order);
    assert Solved(pr, dp, choice, order[IndexOf(order, v)]);
  }

  lemma EntryOf(pr: Problem, order: seq<StageId>, dp: Table, choice: Choices, p: Placement, v: StageId)
    requires TreeProblem(pr, order) && PrefixSolved(pr, order, |order|, dp, choice) && Total(pr, p) && v in pr.g.stages
    ensures v in dp && |dp[v]| == |pr.t.nodes| && RowEntry(pr, dp, p, v) == Entry(pr, dp, v, p[v])
    ensures v in choice && |choice[v]| == |pr.t.nodes|
    ensures EntrySolved(pr, dp, v, p[v], RowEntry(pr, dp, p, v), choice[v][NodeIndex(pr, p, v)])
  {
    SolvedAt(pr, order, dp, choice, v);
    var i := NodeIndex(pr, p, v);
    assert EntrySolved(pr, dp, v, NodeIds(pr.t)[i], dp[v][i], choice[v][i]);
  }

  // ------------------------------------------------ no feasible assignment costs less

  // A finite row entry whose hop is allowed bounds the best cost from above.
  lemma BestAtMost(pr: Problem, row: seq<Ext>, c: StageId, v: StageId, n: NodeId, i: nat)
    requires i < |row| && i < |pr.t.nodes| && row[i].Fin? && n in NodeIds(pr.t)
    requires HasLatency(pr.t, NodeIds(pr.t)[i], n) && HopAllowed(pr, c, v, NodeIds(pr.t)[i], n)
    ensures ArgMin(Via(pr, row, c, v, n)).Some?
    ensures ViaCost(Via(pr, row, c, v, n)) <= row[i].r + HopCost(pr, NodeIds(pr.t)[i], n)
  {
    var xs := Via(pr, row, c, v, n);
    ArgMinLeast(xs);
    assert xs[i] == ViaAt(pr, row[i], c, v, i, n);
  }

  lemma EdgeHops(pr: Problem, p: Placement, e: Edge)
    requires ValidProblem(pr) && InTree(pr.g) && TreeFeasible(pr, p) && e in pr.g.edges
    ensures e.source in p && e.target in p && p[e.source] in NodeIds(pr.t) && p[e.target] in NodeIds(pr.t)
    ensures HasLatency(pr.t, p[e.source], p[e.target])
    ensures HopAllowed(pr, e.source, e.target, p[e.source], p[e.target])
    ensures HopOf(pr, p)(e) == HopCost(pr, p[e.source], p[e.target])
  {
    EndsPlaced(pr, p, e);
    assert EdgeAllowed(pr, p, e);
    assert e.source in pr.g.ids;
    IndexedEdge(pr.g.edges, e);
  }

  // What the recurrence offers v for predecessor c is at most what p pays for c.
  lemma OfferedAtMost(pr: Problem, dp: Table, p: Placement, e: Edge)
    requires ValidProblem(pr) && InTree(pr.g) && TreeFeasible(pr, p) && e in pr.g.edges
    requires e.source in p && p[e.source] in NodeIds(pr.t)
    requires e.source in dp && |dp[e.source]| == |pr.t.nodes| && RowEntry(pr, dp, p, e.source).Fin?
    ensures e.target in p && BestVia(pr, dp, e.source, e.target, p[e.target]).Some?
    ensures BestCost(pr, dp, e.target, p[e.target])(e.source) <= ValueOf(pr, dp, p)(e.source) + HopOf(pr, p)(e)
  {
    EdgeHops(pr, p, e);
    BestAtMost(pr, RowOf(dp, e.source), e.source, e.target, p[e.target], NodeIndex(pr, p, e.source));
  }

  // Along a feasible placement every table entry is finite and bounded by its unfolding.
  lemma {:induction false} EntryBounded(pr: Problem, order: seq<StageId>, dp: Table, choice: Choices,
          p: Placement, v: StageId)
    requires TreeProblem(pr, order) && PrefixSolved(pr, order, |order|, dp, choice)
    requires TreeFeasible(pr, p) && v in order
    ensures v in pr.g.stages && v in dp && |dp[v]| == |pr.t.nodes| && RowEntry(pr, dp, p, v).Fin?
    ensures ValueOf(pr, dp, p)(v) <= Unfolded(pr, p, ValueOf(pr, dp, p))(v)
    decreases IndexOf(order, v)
  {
    assert v in ToSet(order);
    var es, d, n := pr.g.edges, ValueOf(pr, dp, p), p[v];
    EntryOf(pr, order, dp, choice, p, v);
    forall e | e in es && e.target == v
      ensures BestVia(pr, dp, e.source, v, n).Some?
      ensures BestCost(pr, dp, v, n)(e.source) <= d(e.source) + HopOf(pr, p)(e)
    {
      TopoEdgeOf(pr.g, order, e);
      EntryBounded(pr, order, dp, choice, p, e.source);
      OfferedAtMost(pr, dp, p, e);
    }
    forall c | c in Preds(es, v) ensures BestVia(pr, dp, c, v, n).Some? {
      Adjacent(es, c, v);
    }
    PredsBound(es, v, BestCost(pr, dp, v, n), AtSource(d), HopOf(pr, p));
    assert RatioOf(pr, p)(v) == LoadRatio(pr.g.stages[v], GetNode(pr.t, n));
  }

  lemma TopoEdgeOf(g: Graph, order: seq<StageId>, e: Edge)
    requires IsTopoOrder(g, order) && e in g.edges
    ensures e.source in order && e.target in order && IndexOf(order, e.source) < IndexOf(order, e.target)
  {}

  lemma {:induction false} PredsBound(es: seq<Edge>, v: StageId, h: StageId -> real, f: Edge -> real, hop: Edge -> real)
    requires forall e :: e in es && e.target == v ==> h(e.source) <= f(e) + hop(e)
    ensures Sum(Preds(es, v), h) <= SumWhere(es, Target(), v, f) + SumWhere(es, Target(), v, hop)
  {
    if es != [] {
      var n := |es| - 1;
      PredsBound(es[..n], v, h, f, hop);
      if es[n].target == v {
        assert es[n] in es;
        SumAppend(Preds(es[..n], v), es[n].source, h);
      } else {
        assert Preds(es, v) == Preds(es[..n], v);
      }
    }
  }

  // The table value of the sink is a lower bound on the cost of every feasible assignment.
  lemma SinkValueIsLowerBound(pr: Problem, order: seq<StageId>, dp: Table, choice: Choices, p: Placement, s: StageId)
    requires TreeProblem(pr, order) && PrefixSolved(pr, order, |order|, dp, choice)
    requires TreeFeasible(pr, p) && IsOnlySink(pr.g, s)
    ensures s in pr.g.stages && s in p && p[s] in NodeIds(pr.t)
    ensures s in dp && |dp[s]| == |pr.t.nodes| && RowEntry(pr, dp, p, s).Fin?
    ensures RowEntry(pr, dp, p, s).r <= Cost(pr, p)
  {
    var d := ValueOf(pr, dp, p);
    forall v | v in order ensures d(v) <= Unfolded(pr, p, d)(v) {
      EntryBounded(pr, order, dp, choice, p, v);
    }
    SumMonotone(order, d, Unfolded(pr, p, d));
    UnfoldedTotal(pr, p, order, s, d);
    assert s in ToSet(order);
    EntryBounded(pr, order, dp, choice, p, s);
  }

  // ---------------------------------------------------------------- trace-back

  // p follows the recorded choices below u.
  ghost predicate Follows(pr: Problem, dp: Table, choice: Choices, p: Placement, u: StageId) {
    && u in p && p[u] in NodeIds(pr.t)
    && u in dp && |dp[u]| == |pr.t.nodes| && RowEntry(pr, dp, p, u).Fin?
    && u in choice && |choice[u]| == |pr.t.nodes|
    && forall c :: c in Preds(pr.g.edges, u) ==>
         c in p && BestVia(pr, dp, c, u, p[u]).Some? && p[c] == NodeAt(pr.t, BestVia(pr, dp, c, u, p[u]).value)
  }

  function NodeAt(t: Topology, i: nat): NodeId {
    if i < |t.nodes| then t.nodes[i].nodeId else ""
  }

  // An entry the trace may start from.
  ghost predicate FiniteEntry(pr: Problem, dp: Table, v: StageId, i: nat) {
    v in pr.g.stages && v in dp && |dp[v]| == |pr.t.nodes| && i < |dp[v]| && dp[v][i].Fin?
  }

  lemma ViaChosen(pr: Problem, row: seq<Ext>, c: StageId, v: StageId, n: NodeId, m: nat)
    requires ValidProblem(pr) && ArgMin(Via(pr, row, c, v, n)) == Some(m)
    ensures m < |row| && row[m].Fin? && m < |pr.t.nodes| && n in NodeIds(pr.t) && NodeAt(pr.t, m) in NodeIds(pr.t)
    ensures HasLatency(pr.t, NodeAt(pr.t, m), n) && HopAllowed(pr, c, v, NodeAt(pr.t, m), n)
    ensures ViaCost(Via(pr, row, c, v, n)) == row[m].r + HopCost(pr, NodeAt(pr.t, m), n)
  {
    var xs := Via(pr, row, c, v, n);
    assert xs[m] == ViaAt(pr, row[m], c, v, m, n);
    assert NodeIds(pr.t)[m] == NodeAt(pr.t, m);
  }

  // A choice recorded for a predecessor is again an entry with a finite value.
  lemma ChosenFinite(pr: Problem, order: seq<StageId>, dp: Table, choice: Choices, v: StageId, i: nat, c: StageId)
    requires TreeProblem(pr, order) && PrefixSolved(pr, order, |order|, dp, choice)
    requires FiniteEntry(pr, dp, v, i) && c in Preds(pr.g.edges, v)
    ensures v in choice && |choice[v]| == |pr.t.nodes| && c in choice[v][i]
    ensures BestVia(pr, dp, c, v, NodeIds(pr.t)[i]) == Some(choice[v][i][c])
    ensures FiniteEntry(pr, dp, c, choice[v][i][c])
  {
    SolvedAt(pr, order, dp, choice, v);
    assert EntrySolved(pr, dp, v, NodeIds(pr.t)[i], dp[v][i], choice[v][i]);
    PredIsStage(pr.g, c, v);
    SolvedAt(pr, order, dp, choice, c);
    ViaChosen(pr, RowOf(dp, c), c, v, NodeIds(pr.t)[i], choice[v][i][c]);
  }

  // Stages that reach v, v included: the subtree the trace from v covers.
  ghost function Subtree(g: Graph, v: StageId): set<StageId> {
    set u | u in g.stages && Reach(g.edges, u, v)
  }

  // Subtrees of two predecessors of one stage are disjoint.
  lemma SubtreesDisjoint(g: Graph, v: StageId, a: StageId, b: StageId)
    requires WellFormed(g) && InTree(g) && Acyclic(g.edges)
    requires HasEdge(g.edges, a, v) && HasEdge(g.edges, b, v) && a != b
    ensures Subtree(g, a) !! Subtree(g, b)
  {
    forall u | u in Subtree(g, a) && u in Subtree(g, b) ensures false {
      LinearReach(g, u, a, b);
      if Reach(g.edges, a, b) { SkipsSuccessor(g, v, a, b); } else { SkipsSuccessor(g, v, b, a); }
    }
  }

  lemma SkipsSuccessor(g: Graph, v: StageId, a: StageId, b: StageId)
    requires WellFormed(g) && InTree(g) && Acyclic(g.edges)
    requires HasEdge(g.edges, a, v) && HasEdge(g.edges, b, v) && a != b
    ensures !Reach(g.edges, a, b)
  {
    if Reach(g.edges, a, b) {
      var w := ReachFirst(g.edges, a, b);
      SameSuccessor(g, a, v, w);
      NoBackEdge(g.edges, b, v);
      assert false;
    }
  }

  lemma SubtreeSplits(g: Graph, v: StageId, u: StageId)
    requires WellFormed(g) && v in g.stages
    ensures u in Subtree(g, v) <==> u == v || exists c :: c in Preds(g.edges, v) && u in Subtree(g, c)
  {
    if u in Subtree(g, v) && u != v {
      var c := ReachLast(g.edges, u, v);
      Adjacent(g.edges, c, v);
      assert c in Preds(g.edges, v) && u in Subtree(g, c);
    }
    if u == v { ReachRefl(g.edges, v); }
    forall c | c in Preds(g.edges, v) && u in Subtree(g, c) ensures u in Subtree(g, v) {
      Adjacent(g.edges, c, v);
      ReachExtend(g.edges, u, c, v);
    }
  }

  // Union of the subtrees of some stages.
  ghost function Subtrees(g: Graph, cs: seq<StageId>): set<StageId> {
    set u, c | c in cs && u in Subtree(g, c) :: u
  }

  // What _trace has done for v after the first k predecessors.
  ghost predicate TraceState(pr: Problem, dp: Table, choice: Choices, v: StageId, i: nat, p: Placement,
          q: Placement, cs: seq<StageId>)
    requires v in choice && i < |choice[v]|
  {
    && q.Keys == p.Keys + {v} + Subtrees(pr.g, cs)
    && (forall u :: u in p ==> q[u] == p[u])
    && v in q && q[v] == NodeAt(pr.t, i)
    && (forall u :: u in Subtrees(pr.g, cs) ==> Follows(pr, dp, choice, q, u))
    && (forall c :: c in cs ==> c in choice[v][i] && c in q && q[c] == NodeAt(pr.t, choice[v][i][c]))
  }

  lemma TraceStart(pr: Problem, dp: Table, choice: Choices, v: StageId, i: nat, p: Placement)
    requires v in pr.g.stages && v in choice && i < |choice[v]| && i < |pr.t.nodes| && p.Keys !! Subtree(pr.g, v)
    ensures TraceState(pr, dp, choice, v, i, p, p[v := pr.t.nodes[i].nodeId], [])
  {
    ReachRefl(pr.g.edges, v);
    assert Subtrees(pr.g, []) == {};
  }

  lemma TraceStep(pr: Problem, dp: Table, choice: Choices, v: StageId, i: nat, p: Placement, q: Placement,
                  cs: seq<StageId>, c: StageId, r: Placement)
    requires v in choice && i < |choice[v]| && c in choice[v][i]
    requires TraceState(pr, dp, choice, v, i, p, q, cs)
    requires r.Keys == q.Keys + Subtree(pr.g, c)
    requires forall u :: u in q ==> r[u] == q[u]
    requires c in r && r[c] == NodeAt(pr.t, choice[v][i][c])
    requires forall u :: u in Subtree(pr.g, c) ==> Follows(pr, dp, choice, r, u)
    ensures TraceState(pr, dp, choice, v, i, p, r, cs + [c])
  {
    SubtreesGrow(pr.g, cs, c);
    hide Follows, Subtree, Subtrees;
    forall u | u in Subtrees(pr.g, cs) ensures Follows(pr, dp, choice, r, u) {
      FollowsKept(pr, dp, choice, q, r, u);
    }
  }

  lemma SubtreesGrow(g: Graph, cs: seq<StageId>, c: StageId)
    ensures Subtrees(g, cs + [c]) == Subtrees(g, cs) + Subtree(g, c)
  {
    assert (cs + [c])[..|cs|] == cs;
  }

  // _trace: assigns v, then follows the recorded choice of each predecessor. Every
  // stage of the subtree is assigned exactly once: its key was absent before.
  method Trace(pr: Problem, ghost order: seq<StageId>, dp: Table, choice: Choices, v: StageId, i: nat, p: Placement)
    returns (q: Placement)
    requires TreeProblem(pr, order) && PrefixSolved(pr, order, |order|, dp, choice)
    requires FiniteEntry(pr, dp, v, i) && p.Keys !! Subtree(pr.g, v)
    ensures q.Keys == p.Keys + Subtree(pr.g, v)
    ensures forall u :: u in p ==> q[u] == p[u]
    ensures v in q && q[v] == NodeAt(pr.t, i)
    ensures forall u :: u in Subtree(pr.g, v) ==> Follows(pr, dp, choice, q, u)
    decreases IndexOf(order, v)
  {
    hide TreeProblem, PrefixSolved, Follows, Subtree, Subtrees, TraceState;
    Recorded(pr, order, dp, choice, v);
    q := p[v := pr.t.nodes[i].nodeId];
    var preds := Preds(pr.g.edges, v);
    TakeAll(preds);
    TraceStart(pr, dp, choice, v, i, p);
    var k := 0;
    while k < |preds|
      invariant 0 <= k <= |preds|
      invariant TraceState(pr, dp, choice, v, i, p, q, preds[..k])
    {
      var c := preds[k];
      ChosenFinite(pr, order, dp, choice, v, i, c);
      TracePre(pr, order, dp, choice, v, i, k, p, q);
      var r := Trace(pr, order, dp, choice, c, choice[v][i][c], q);
      TraceStep(pr, dp, choice, v, i, p, q, preds[..k], c, r);
      TakeStep(preds, k);
      q := r;
      k := k + 1;
    }
    TakeAll(preds);
    TraceDone(pr, order, dp, choice, v, i, p, q);
  }

  lemma Recorded(pr: Problem, order: seq<StageId>, dp: Table, choice: Choices, v: StageId)
    requires TreeProblem(pr, order) && PrefixSolved(pr, order, |order|, dp, choice) && v in pr.g.stages
    ensures v in choice && v in dp && |choice[v]| == |dp[v]| == |pr.t.nodes|
  {
    SolvedAt(pr, order, dp, choice, v);
  }

  lemma SubtreeOfPreds(g: Graph, v: StageId)
    requires WellFormed(g) && v in g.stages
    ensures Subtree(g, v) == {v} + Subtrees(g, Preds(g.edges, v))
  {
    forall u ensures u in Subtree(g, v) <==> u in {v} + Subtrees(g, Preds(g.edges, v)) {
      SubtreeSplits(g, v, u);
    }
  }

  // Nothing of the next predecessor's subtree is placed yet.
  lemma TracePre(pr: Problem, order: seq<StageId>, dp: Table, choice: Choices, v: StageId, i: nat, k: nat,
          p: Placement, q: Placement)
    requires TreeProblem(pr, order) && v in pr.g.stages && p.Keys !! Subtree(pr.g, v)
    requires k < |Preds(pr.g.edges, v)| && v in choice && i < |choice[v]|
    requires TraceState(pr, dp, choice, v, i, p, q, Preds(pr.g.edges, v)[..k])
    ensures q.Keys !! Subtree(pr.g, Preds(pr.g.edges, v)[k])
    ensures Preds(pr.g.edges, v)[k] in order && v in order
    ensures IndexOf(order, Preds(pr.g.edges, v)[k]) < IndexOf(order, v)
  {
    var g, preds := pr.g, Preds(pr.g.edges, v);
    var c := preds[k];
    assert c in preds;
    hide Follows;
    OrderedIsAcyclic(g, order);
    Adjacent(g.edges, c, v);
    TopoEdge(g, order, c, v);
    NoBackEdge(g.edges, c, v);
    forall u | u in Subtree(g, c) ensures u !in q {
      SubtreeSplits(g, v, u);
      assert u in Subtree(g, v) && u != v;
      forall a | a in preds[..k] ensures u !in Subtree(g, a) {
        Adjacent(g.edges, a, v);
        PredsDistinct(g, v, k, a);
        SubtreesDisjoint(g, v, a, c);
      }
    }
  }

  lemma FollowsKept(pr: Problem, dp: Table, choice: Choices, p: Placement, q: Placement, u: StageId)
    requires Follows(pr, dp, choice, p, u) && forall x :: x in p ==> x in q && q[x] == p[x]
    ensures Follows(pr, dp, choice, q, u)
  {}

  lemma TraceDone(pr: Problem, order: seq<StageId>, dp: Table, choice: Choices, v: StageId, i: nat,
          p: Placement, q: Placement)
    requires TreeProblem(pr, order) && PrefixSolved(pr, order, |order|, dp, choice)
    requires FiniteEntry(pr, dp, v, i) && v in choice && |choice[v]| == |pr.t.nodes|
    requires TraceState(pr, dp, choice, v, i, p, q, Preds(pr.g.edges, v))
    ensures q.Keys == p.Keys + Subtree(pr.g, v)
    ensures forall u :: u in p ==> q[u] == p[u]
    ensures v in q && q[v] == NodeAt(pr.t, i)
    ensures forall u :: u in Subtree(pr.g, v) ==> Follows(pr, dp, choice, q, u)
  {
    hide Follows, Subtree, Subtrees, PrefixSolved;
    SubtreeOfPreds(pr.g, v);
    RootFollows(pr, order, dp, choice, v, i, q);
  }

  lemma RootFollows(pr: Problem, order: seq<StageId>, dp: Table, choice: Choices, v: StageId, i: nat, q: Placement)
    requires TreeProblem(pr, order) && PrefixSolved(pr, order, |order|, dp, choice)
    requires FiniteEntry(pr, dp, v, i) && v in q && q[v] == NodeAt(pr.t, i)
    requires v in choice && |choice[v]| == |pr.t.nodes|
    requires forall c :: c in Preds(pr.g.edges, v) ==>
      c in choice[v][i] && c in q && q[c] == NodeAt(pr.t, choice[v][i][c])
    ensures Follows(pr, dp, choice, q, v)
  {
    GetNodeAt(pr.t, i);
    assert NodeIds(pr.t)[i] == q[v];
    forall c | c in Preds(pr.g.edges, v) ensures BestVia(pr, dp, c, v, q[v]) == Some(choice[v][i][c]) {
      ChosenFinite(pr, order, dp, choice, v, i, c);
    }
  }

  // ------------------------------------------------ a traced placement costs its table value

  // A placement that follows the recorded choices below every stage.
  ghost predicate Traced(pr: Problem, dp: Table, choice: Choices, p: Placement) {
    && (forall s :: s in p ==> s in pr.g.stages)
    && (forall s :: s in pr.g.stages ==> Follows(pr, dp, choice, p, s))
  }

  lemma TracedTotal(pr: Problem, dp: Table, choice: Choices, p: Placement)
    requires Traced(pr, dp, choice, p)
    ensures Total(pr, p)
  {
    forall s | s in pr.g.stages ensures s in p && p[s] in NodeIds(pr.t) {
      assert Follows(pr, dp, choice, p, s);
    }
  }

  lemma TracedHop(pr: Problem, dp: Table, choice: Choices, p: Placement, e: Edge)
    requires ValidProblem(pr) && InTree(pr.g) && Traced(pr, dp, choice, p) && e in pr.g.edges
    ensures Total(pr, p) && EdgeAllowed(pr, p, e)
    ensures BestCost(pr, dp, e.target, p[e.target])(e.source) == ValueOf(pr, dp, p)(e.source) + HopOf(pr, p)(e)
  {
    TracedTotal(pr, dp, choice, p);
    EndsPlaced(pr, p, e);
    var c, v := e.source, e.target;
    assert Follows(pr, dp, choice, p, v) && Follows(pr, dp, choice, p, c);
    assert HasEdge(pr.g.edges, c, v);
    Adjacent(pr.g.edges, c, v);
    var m := BestVia(pr, dp, c, v, p[v]).value;
    ViaChosen(pr, RowOf(dp, c), c, v, p[v], m);
    GetNodeAt(pr.t, m);
    assert c in pr.g.ids;
    IndexedEdge(pr.g.edges, e);
  }

  lemma TracedEntry(pr: Problem, order: seq<StageId>, dp: Table, choice: Choices, p: Placement, v: StageId)
    requires TreeProblem(pr, order) && PrefixSolved(pr, order, |order|, dp, choice)
    requires Traced(pr, dp, choice, p) && v in pr.g.stages
    ensures v in p && p[v] in NodeIds(pr.t) && FitsAlone(pr.g.stages[v], GetNode(pr.t, p[v]), pr.gov)
    ensures ValueOf(pr, dp, p)(v) == LoadCost(pr, v, p[v]) + Sum(Preds(pr.g.edges, v), BestCost(pr, dp, v, p[v]))
  {
    hide LoadCost, FitsAlone, BestCost;
    TracedTotal(pr, dp, choice, p);
    EntryOf(pr, order, dp, choice, p, v);
    assert Follows(pr, dp, choice, p, v);
  }

  lemma TracedStage(pr: Problem, order: seq<StageId>, dp: Table, choice: Choices, p: Placement, v: StageId)
    requires TreeProblem(pr, order) && PrefixSolved(pr, order, |order|, dp, choice)
    requires Traced(pr, dp, choice, p) && v in pr.g.stages
    ensures v in p && p[v] in NodeIds(pr.t) && FitsAlone(pr.g.stages[v], GetNode(pr.t, p[v]), pr.gov)
    ensures ValueOf(pr, dp, p)(v) == Unfolded(pr, p, ValueOf(pr, dp, p))(v)
  {
    hide PrefixSolved, Traced, FitsAlone, BestCost, ValueOf, HopOf;
    TracedEntry(pr, order, dp, choice, p, v);
    var d := ValueOf(pr, dp, p);
    forall e | e in pr.g.edges && e.target == v
      ensures BestCost(pr, dp, v, p[v])(e.source) == AtSource(d)(e) + HopOf(pr, p)(e)
    {
      TracedHop(pr, dp, choice, p, e);
    }
    PredsExact(pr.g.edges, v, BestCost(pr, dp, v, p[v]), AtSource(d), HopOf(pr, p));
    assert RatioOf(pr, p)(v) == LoadRatio(pr.g.stages[v], GetNode(pr.t, p[v]));
  }

  lemma {:induction false} PredsExact(es: seq<Edge>, v: StageId, h: StageId -> real, f: Edge -> real, hop: Edge -> real)
    requires forall e :: e in es && e.target == v ==> h(e.source) == f(e) + hop(e)
    ensures Sum(Preds(es, v), h) == SumWhere(es, Target(), v, f) + SumWhere(es, Target(), v, hop)
  {
    if es != [] {
      var n := |es| - 1;
      PredsExact(es[..n], v, h, f, hop);
      if es[n].target == v {
        assert es[n] in es;
        SumAppend(Preds(es[..n], v), es[n].source, h);
      } else {
        assert Preds(es, v) == Preds(es[..n], v);
      }
    }
  }

  // The traced placement is feasible and costs exactly the table value of the sink.
  lemma TracedCost(pr: Problem, order: seq<StageId>, dp: Table, choice: Choices, p: Placement, s: StageId)
    requires TreeProblem(pr, order) && PrefixSolved(pr, order, |order|, dp, choice)
    requires Traced(pr, dp, choice, p) && IsOnlySink(pr.g, s)
    ensures TreeFeasible(pr, p)
    ensures ValueOf(pr, dp, p)(s) == Cost(pr, p)
  {
    TracedTotal(pr, dp, choice, p);
    forall v | v in p ensures FitsAlone(StageOf(pr, v), GetNode(pr.t, p[v]), pr.gov) {
      TracedStage(pr, order, dp, choice, p, v);
    }
    forall e | e in pr.g.edges ensures EdgeAllowed(pr, p, e) {
      TracedHop(pr, dp, choice, p, e);
    }
    TracedValue(pr, order, dp, choice, p, s);
  }

  lemma TracedValue(pr: Problem, order: seq<StageId>, dp: Table, choice: Choices, p: Placement, s: StageId)
    requires TreeProblem(pr, order) && PrefixSolved(pr, order, |order|, dp, choice)
    requires Traced(pr, dp, choice, p) && IsOnlySink(pr.g, s)
    ensures ValueOf(pr, dp, p)(s) == Cost(pr, p)
  {
    hide Follows, PrefixSolved, ValueOf, StepOf, Cost;
    var d := ValueOf(pr, dp, p);
    forall v | v in order ensures d(v) == Unfolded(pr, p, d)(v) {
      assert v in ToSet(order);
      TracedStage(pr, order, dp, choice, p, v);
    }
    SumCong(order, d, Unfolded(pr, p, d));
    UnfoldedTotal(pr, p, order, s, d);
  }

  // ---------------------------------------------------------------- the solver

  // p is feasible and no feasible assignment costs less.
  ghost predicate Optimal(pr: Problem, p: Placement)
    requires ValidProblem(pr)
  {
    TreeFeasible(pr, p) && forall q :: TreeFeasible(pr, q) ==> Cost(pr, p) <= Cost(pr, q)
  }

  // Tracing from the least entry of the sink's row gives an optimal assignment.
  lemma LeastSinkIsOptimal(pr: Problem, order: seq<StageId>, dp: Table, choice: Choices, s: StageId, i: nat,
          p: Placement)
    requires TreeProblem(pr, order) && PrefixSolved(pr, order, |order|, dp, choice) && IsOnlySink(pr.g, s)
    requires s in dp && ArgMin(dp[s]) == Some(i) && |dp[s]| == |pr.t.nodes|
    requires Traced(pr, dp, choice, p) && s in p && p[s] == NodeAt(pr.t, i)
    ensures Optimal(pr, p)
    ensures Cost(pr, p) == dp[s][i].r
  {
    hide PrefixSolved, Traced, Cost, TreeFeasible;
    TracedCost(pr, order, dp, choice, p, s);
    SinkValue(pr, dp, p, s, i);
    forall q | TreeFeasible(pr, q) ensures Cost(pr, p) <= Cost(pr, q) {
      SinkValueIsLowerBound(pr, order, dp, choice, q, s);
      LeastEntry(dp[s], i, NodeIndex(pr, q, s));
    }
  }

  lemma LeastEntry(row: seq<Ext>, i: nat, j: nat)
    requires ArgMin(row) == Some(i) && j < |row| && row[j].Fin?
    ensures row[i].Fin? && row[i].r <= row[j].r
  {
    ArgMinLeast(row);
    assert AtMost(Score(row, Some(i)), row[j]);
  }

  lemma SinkValue(pr: Problem, dp: Table, p: Placement, s: StageId, i: nat)
    requires ValidProblem(pr) && s in dp && |dp[s]| == |pr.t.nodes| && i < |dp[s]| && dp[s][i].Fin?
    requires s in p && p[s] == NodeAt(pr.t, i)
    ensures ValueOf(pr, dp, p)(s) == dp[s][i].r
  {
    GetNodeAt(pr.t, i);
  }

  lemma NoFiniteSink(pr: Problem, order: seq<StageId>, dp: Table, choice: Choices, s: StageId)
    requires TreeProblem(pr, order) && PrefixSolved(pr, order, |order|, dp, choice) && IsOnlySink(pr.g, s)
    requires s in dp && ArgMin(dp[s]).None?
    ensures forall q :: !TreeFeasible(pr, q)
  {
    hide PrefixSolved, TreeFeasible, Cost;
    forall q ensures !TreeFeasible(pr, q) {
      if TreeFeasible(pr, q) {
        SinkValueIsLowerBound(pr, order, dp, choice, q, s);
        ArgMinLeast(dp[s]);
        assert false;
      }
    }
  }

  lemma SubtreeOfSink(g: Graph, order: seq<StageId>, s: StageId)
    requires WellFormed(g) && InTree(g) && IsTopoOrder(g, order) && IsOnlySink(g, s)
    ensures Subtree(g, s) == g.stages.Keys
  {
    forall v | v in g.stages ensures v in Subtree(g, s) {
      assert v in ToSet(order);
      ReachesSink(g, order, s, v);
    }
  }

  method BestEntry(row: seq<Ext>) returns (best: Option<nat>)
    ensures best == ArgMin(row)
  {
    best := None;
    var bestCost: Ext := Inf;
    var i := 0;
    while i < |row|
      invariant 0 <= i <= |row|
      invariant best == ArgMin(row[..i]) && bestCost == Score(row[..i], best)
    {
      ArgMinStep(row, i);
      if Less(row[i], bestCost) {
        bestCost, best := row[i], Some(i);
      }
      i := i + 1;
    }
    TakeAll(row);
  }

  // The dynamic program before redistribution: it returns an optimal assignment, or
  // fails when and only when there is none.
  method SolveTree(pr: Problem, order: seq<StageId>, sinks: seq<StageId>) returns (r: Result<Placement, ()>)
    requires TreeProblem(pr, order)
    requires |sinks| == 1 && IsOnlySink(pr.g, sinks[0])
    ensures r.Ok? ==> Optimal(pr, r.value)
    ensures r.Error? ==> forall q :: !TreeFeasible(pr, q)
  {
    hide Follows, Optimal, TreeFeasible, Subtree, PrefixSolved, IsTopoOrder, InTree, ValidTopology;
    var dp, choice := SolveTable(pr, order);
    var s := sinks[0];
    assert s in ToSet(pr.g.ids);
    Recorded(pr, order, dp, choice, s);
    var best := BestEntry(dp[s]);
    if best.None? {
      NoFiniteSink(pr, order, dp, choice, s);
      return Error(());
    }
    SubtreeOfSink(pr.g, order, s);
    var p := Trace(pr, order, dp, choice, s, best.value, map[]);
    LeastSinkIsOptimal(pr, order, dp, choice, s, best.value, p);
    return Ok(p);
  }

  // ---------------------------------------------------------------- completeness

  // Every node's demand is at most the load the checker sees on it.
  lemma {:induction false} OwnDemand(pr: Problem, xs: seq<StageId>, p: Placement, s: StageId)
    requires s in p && s in pr.g.stages && s in xs
    requires forall v :: v in pr.g.stages ==> pr.g.stages[v].demand >= 0.0
    ensures pr.g.stages[s].demand <= Sum(xs, LoadOn(pr, p, p[s]))
  {
    var n := |xs| - 1;
    if s in xs[..n] {
      OwnDemand(pr, xs[..n], p, s);
    } else {
      LoadsNonNegative(pr, xs[..n], p, p[s]);
    }
  }

  lemma {:induction false} LoadsNonNegative(pr: Problem, xs: seq<StageId>, p: Placement, n: NodeId)
    requires forall v :: v in pr.g.stages ==> pr.g.stages[v].demand >= 0.0
    ensures Sum(xs, LoadOn(pr, p, n)) >= 0.0
  {
    if xs != [] { LoadsNonNegative(pr, xs[..|xs|-1], p, n); }
  }

  // What passes the full checker passes the constraints of the dynamic program.
  lemma CheckedIsTreeFeasible(pr: Problem, p: Placement)
    requires ValidProblem(pr) && NonNegativeDemands(pr) && Total(pr, p) && Feasible(pr, p)
    ensures TreeFeasible(pr, p)
  {
    forall s | s in p ensures FitsAlone(StageOf(pr, s), GetNode(pr.t, p[s]), pr.gov) {
      assert s in ToSet(pr.g.ids);
      OwnDemand(pr, pr.g.ids, p, s);
    }
    forall e | e in pr.g.edges ensures EdgeAllowed(pr, p, e) {
      EndsPlaced(pr, p, e);
    }
  }

  // An optimal tree assignment passes the full checker exactly when no node is overloaded.
  lemma TreeFeasibleIffCapacity(pr: Problem, p: Placement)
    requires ValidProblem(pr) && TreeFeasible(pr, p)
    ensures Feasible(pr, p) <==> CapacityFeasible(pr, p)
  {
    forall e | e in pr.g.edges
      ensures e.source in p && e.target in p
      ensures LatencyHolds(pr, e.bound, p[e.source], p[e.target]) && TrustHolds(pr, p[e.source], p[e.target])
    {
      EndsPlaced(pr, p, e);
      assert EdgeAllowed(pr, p, e);
    }
  }
}
