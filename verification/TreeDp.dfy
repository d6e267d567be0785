// Dynamic programming over in-trees: the table, the best sink and the trace-back.
module TreeDp {
  import opened Wrappers
  import opened Minima
  import opened Sequences
  import opened Graphs
  import opened Topologies
  import opened Feasibility

  // dp[v][i]: least cost of the subtree of v when v is on the i-th node.
  type Table = map<StageId, seq<Ext>>

  // choice[v][i][c]: node index of predecessor c in that least-cost placement.
  type Choices = map<StageId, seq<map<StageId, nat>>>

  // ---------------------------------------------------------------- the recurrence

  // Cost of the subtree of c with c on the i-th node, plus the hop to v on node n.
  function ViaAt(pr: Problem, x: Ext, c: StageId, v: StageId, i: nat, n: NodeId): Ext {
    if x.Fin? && i < |pr.t.nodes| && n in NodeIds(pr.t) && HasLatency(pr.t, NodeIds(pr.t)[i], n)
       && HopAllowed(pr, c, v, NodeIds(pr.t)[i], n)
    then Fin(x.r + HopCost(pr, NodeIds(pr.t)[i], n))
    else Inf
  }

  function Via(pr: Problem, row: seq<Ext>, c: StageId, v: StageId, n: NodeId): seq<Ext> {
    seq(|row|, i requires 0 <= i < |row| => ViaAt(pr, row[i], c, v, i, n))
  }

  function RowOf(dp: Table, c: StageId): seq<Ext> {
    if c in dp then dp[c] else []
  }

  // The best placement of predecessor c for v on node n.
  function BestVia(pr: Problem, dp: Table, c: StageId, v: StageId, n: NodeId): Option<nat> {
    ArgMin(Via(pr, RowOf(dp, c), c, v, n))
  }

  function ViaCost(xs: seq<Ext>): real {
    var best := ArgMin(xs);
    if best.Some? then xs[best.value].r else 0.0
  }

  function BestCost(pr: Problem, dp: Table, v: StageId, n: NodeId): StageId -> real {
    (c: StageId) => ViaCost(Via(pr, RowOf(dp, c), c, v, n))
  }

  function LoadCost(pr: Problem, v: StageId, n: NodeId): real
    requires v in pr.g.stages && n in NodeIds(pr.t)
  {
    Times(pr.w.beta, LoadRatio(pr.g.stages[v], GetNode(pr.t, n)))
  }

  ghost predicate EntryFeasible(pr: Problem, dp: Table, v: StageId, n: NodeId)
    requires v in pr.g.stages && n in NodeIds(pr.t)
  {
    && FitsAlone(pr.g.stages[v], GetNode(pr.t, n), pr.gov)
    && forall c :: c in Preds(pr.g.edges, v) ==> BestVia(pr, dp, c, v, n).Some?
  }

  ghost function Entry(pr: Problem, dp: Table, v: StageId, n: NodeId): Ext
    requires v in pr.g.stages && n in NodeIds(pr.t)
  {
    if EntryFeasible(pr, dp, v, n)
    then Fin(LoadCost(pr, v, n) + Sum(Preds(pr.g.edges, v), BestCost(pr, dp, v, n)))
    else Inf
  }

  ghost predicate EntrySolved(pr: Problem, dp: Table, v: StageId, n: NodeId, x: Ext, chosen: map<StageId, nat>)
    requires v in pr.g.stages && n in NodeIds(pr.t)
  {
    && x == Entry(pr, dp, v, n)
    && (x.Fin? ==> forall c :: c in Preds(pr.g.edges, v) ==> c in chosen && BestVia(pr, dp, c, v, n) == Some(chosen[c]))
  }

  // The row of v satisfies the recurrence, given the rows of its predecessors.
  ghost predicate RowSolved(pr: Problem, dp: Table, v: StageId, row: seq<Ext>, chosen: seq<map<StageId, nat>>)
    requires v in pr.g.stages
  {
    && |row| == |chosen| == |pr.t.nodes|
    && forall i :: 0 <= i < |row| ==> EntrySolved(pr, dp, v, NodeIds(pr.t)[i], row[i], chosen[i])
  }

  ghost predicate Solved(pr: Problem, dp: Table, choice: Choices, v: StageId) {
    && v in pr.g.stages && v in dp && v in choice
    && (forall c :: c in Preds(pr.g.edges, v) ==> c in dp)
    && RowSolved(pr, dp, v, dp[v], choice[v])
  }

  // ---------------------------------------------------------------- filling the table

  // Innermost loop: the best node for one predecessor, whose row is given.
  method BestChild(pr: Problem, row: seq<Ext>, c: StageId, v: StageId, n: NodeId) returns (best: Option<nat>, cost: Ext)
    requires ValidProblem(pr) && |row| == |pr.t.nodes| && n in NodeIds(pr.t)
    ensures best == ArgMin(Via(pr, row, c, v, n))
    ensures cost == Score(Via(pr, row, c, v, n), best)
  {
    hide ValidProblem, ArgMin, LatencyHolds, TrustHolds, HopCost, GetEdge;
    var edge := GetEdge(pr.g.edges, c, v);
    var bound := if edge.Some? then Fin(edge.value.bound) else Inf;
    best, cost := None, Inf;
    ghost var via := Via(pr, row, c, v, n);
    var mi := 0;
    while mi < |row|
      invariant 0 <= mi <= |row|
      invariant best == ArgMin(via[..mi]) && cost == Score(via[..mi], best)
    {
      ArgMinStep(via, mi);
      var childCost := ChildCost(pr, row[mi], bound, NodeIds(pr.t)[mi], n);
      CostIsVia(pr, row[mi], c, v, mi, n, childCost);
      if Less(childCost, cost) {
        cost, best := childCost, Some(mi);
      }
      mi := mi + 1;
    }
    assert via[..mi] == via;
  }

  lemma CostIsVia(pr: Problem, x: Ext, c: StageId, v: StageId, i: nat, n: NodeId, cost: Ext)
    requires ValidProblem(pr) && i < |pr.t.nodes| && n in NodeIds(pr.t)
    requires var edge := GetEdge(pr.g.edges, c, v);
      cost == if x.Fin? && (edge.Some? ==> LatencyHolds(pr, edge.value.bound, NodeIds(pr.t)[i], n))
                 && TrustHolds(pr, NodeIds(pr.t)[i], n)
              then Fin(x.r + HopCost(pr, NodeIds(pr.t)[i], n)) else Inf
    ensures cost == ViaAt(pr, x, c, v, i, n)
  {}

  // Cost of one candidate, or infinity when a constraint skips it.
  method ChildCost(pr: Problem, sub: Ext, bound: Ext, mid: NodeId, nid: NodeId) returns (cost: Ext)
    requires ValidProblem(pr) && mid in NodeIds(pr.t) && nid in NodeIds(pr.t)
    ensures cost == if sub.Fin? && (bound.Fin? ==> LatencyHolds(pr, bound.r, mid, nid)) && TrustHolds(pr, mid, nid)
                    then Fin(sub.r + HopCost(pr, mid, nid)) else Inf
  {
    if sub.Inf? {
      return Inf;
    }
    LatencySymmetric(pr.t, nid, mid);
    var latency := Latency(pr.t, nid, mid);
    if bound.Fin? && latency > bound.r + TOLERANCE {
      return Inf;
    }
    var predDomain, domain := DomainOf(pr, mid), DomainOf(pr, nid);
    if predDomain != domain {
      if Trust(pr.gov, predDomain, domain) <= 0.0 {
        return Inf;
      }
    }
    var cross := if predDomain != domain then 1.0 else 0.0;
    return Fin(sub.r + (Times(pr.w.alpha, latency) + Times(pr.w.gamma, cross)));
  }

  // The predecessors handled so far: their best costs added up, their choices recorded.
  ghost predicate ChildrenSolved(pr: Problem, dp: Table, v: StageId, n: NodeId, cs: seq<StageId>,
                                 total: real, chosen: map<StageId, nat>)
  {
    && total == Sum(cs, BestCost(pr, dp, v, n))
    && forall c :: c in cs ==> c in chosen && BestVia(pr, dp, c, v, n) == Some(chosen[c])
  }

  lemma ChildrenStep(pr: Problem, dp: Table, v: StageId, n: NodeId, cs: seq<StageId>,
                     total: real, chosen: map<StageId, nat>, c: StageId, m: nat)
    requires ChildrenSolved(pr, dp, v, n, cs, total, chosen) && BestVia(pr, dp, c, v, n) == Some(m)
    ensures ChildrenSolved(pr, dp, v, n, cs + [c], total + ViaCost(Via(pr, RowOf(dp, c), c, v, n)), chosen[c := m])
  {
    SumAppend(cs, c, BestCost(pr, dp, v, n));
  }

  lemma EntryDone(pr: Problem, dp: Table, v: StageId, n: NodeId, total: real, chosen: map<StageId, nat>)
    requires v in pr.g.stages && n in NodeIds(pr.t) && FitsAlone(pr.g.stages[v], GetNode(pr.t, n), pr.gov)
    requires ChildrenSolved(pr, dp, v, n, Preds(pr.g.edges, v), total, chosen)
    ensures EntrySolved(pr, dp, v, n, Fin(LoadCost(pr, v, n) + total), chosen)
  {}

  // One table entry: the sum over the predecessors of their best subtrees.
  method SolveEntry(pr: Problem, dp: Table, v: StageId, n: NodeId) returns (x: Ext, chosen: map<StageId, nat>)
    requires ValidProblem(pr) && v in pr.g.stages && n in NodeIds(pr.t)
    requires forall c :: c in Preds(pr.g.edges, v) ==> c in dp && |dp[c]| == |pr.t.nodes|
    ensures EntrySolved(pr, dp, v, n, x, chosen)
  {
    hide LoadCost;
    hide HopAllowed;
    chosen := map[];
    if !FitsAlone(pr.g.stages[v], GetNode(pr.t, n), pr.gov) {
      return Inf, chosen;
    }
    var local := LoadCost(pr, v, n);
    var ok, children;
    ok, children, chosen := SolveChildren(pr, dp, v, n);
    if !ok {
      return Inf, chosen;
    }
    EntryDone(pr, dp, v, n, children, chosen);
    x := Fin(local + children);
  }

  // The loop over the predecessors; it stops at the first one that fits nowhere.
  method SolveChildren(pr: Problem, dp: Table, v: StageId, n: NodeId)
    returns (ok: bool, total: real, chosen: map<StageId, nat>)
    requires ValidProblem(pr) && n in NodeIds(pr.t)
    requires forall c :: c in Preds(pr.g.edges, v) ==> c in dp && |dp[c]| == |pr.t.nodes|
    ensures ok ==> ChildrenSolved(pr, dp, v, n, Preds(pr.g.edges, v), total, chosen)
    ensures !ok ==> exists c :: c in Preds(pr.g.edges, v) && BestVia(pr, dp, c, v, n).None?
  {
    hide ValidTopology, WellFormed, Preds, ArgMin;
    total, chosen := 0.0, map[];
    var preds := Preds(pr.g.edges, v);
    var i := 0;
    while i < |preds|
      invariant 0 <= i <= |preds|
      invariant ChildrenSolved(pr, dp, v, n, preds[..i], total, chosen)
    {
      var c := preds[i];
      assert c in preds;
      var best, cost := BestChild(pr, dp[c], c, v, n);
      assert best == BestVia(pr, dp, c, v, n);
      if best.None? {
        return false, total, chosen;
      }
      ChildrenStep(pr, dp, v, n, preds[..i], total, chosen, c, best.value);
      TakeStep(preds, i);
      total := total + cost.r;
      chosen := chosen[c := best.value];
      i := i + 1;
    }
    TakeAll(preds);
    return true, total, chosen;
  }

  method SolveRow(pr: Problem, dp: Table, v: StageId) returns (row: seq<Ext>, chosen: seq<map<StageId, nat>>)
    requires ValidProblem(pr) && v in pr.g.stages
    requires forall c :: c in Preds(pr.g.edges, v) ==> c in dp && |dp[c]| == |pr.t.nodes|
    ensures RowSolved(pr, dp, v, row, chosen)
  {
    hide EntrySolved;
    row, chosen := [], [];
    while |row| < |pr.t.nodes|
      invariant |row| == |chosen| <= |pr.t.nodes|
      invariant forall i :: 0 <= i < |row| ==> EntrySolved(pr, dp, v, NodeIds(pr.t)[i], row[i], chosen[i])
    {
      var x, picks := SolveEntry(pr, dp, v, NodeIds(pr.t)[|row|]);
      row, chosen := row + [x], chosen + [picks];
    }
  }

  ghost predicate PrefixSolved(pr: Problem, order: seq<StageId>, k: nat, dp: Table, choice: Choices)
    requires k <= |order|
  {
    && dp.Keys == choice.Keys == ToSet(order[..k])
    && forall j :: 0 <= j < k ==> Solved(pr, dp, choice, order[j])
  }

  method SolveTable(pr: Problem, order: seq<StageId>) returns (dp: Table, choice: Choices)
    requires ValidProblem(pr) && IsTopoOrder(pr.g, order)
    ensures PrefixSolved(pr, order, |order|, dp, choice)
  {
    dp, choice := map[], map[];
    var k := 0;
    while k < |order|
      invariant 0 <= k <= |order|
      invariant PrefixSolved(pr, order, k, dp, choice)
    {
      var v := order[k];
      assert v in ToSet(order);
      PredsSolved(pr, order, k, dp, choice);
      var row, chosen := SolveRow(pr, dp, v);
      PrefixGrows(pr, order, k, dp, choice, row, chosen);
      dp, choice := dp[v := row], choice[v := chosen];
      k := k + 1;
    }
  }

  lemma PredsSolved(pr: Problem, order: seq<StageId>, k: nat, dp: Table, choice: Choices)
    requires IsTopoOrder(pr.g, order) && k < |order| && PrefixSolved(pr, order, k, dp, choice)
    ensures forall c :: c in Preds(pr.g.edges, order[k]) ==> c in order[..k] && c in dp && |dp[c]| == |pr.t.nodes|
  {
    forall c | c in Preds(pr.g.edges, order[k]) ensures c in order[..k] && c in dp && |dp[c]| == |pr.t.nodes| {
      Adjacent(pr.g.edges, c, order[k]);
      TopoEdge(pr.g, order, c, order[k]);
      IndexOfDistinct(order, k);
      var j := IndexOf(order, c);
      assert order[..k][j] == c;
      assert c in ToSet(order[..k]);
      assert Solved(pr, dp, choice, order[j]);
    }
  }

  lemma PrefixGrows(pr: Problem, order: seq<StageId>, k: nat, dp: Table, choice: Choices,
                    row: seq<Ext>, chosen: seq<map<StageId, nat>>)
    requires IsTopoOrder(pr.g, order) && k < |order| && PrefixSolved(pr, order, k, dp, choice)
    requires order[k] in pr.g.stages && RowSolved(pr, dp, order[k], row, chosen)
    ensures PrefixSolved(pr, order, k + 1, dp[order[k] := row], choice[order[k] := chosen])
  {
    var v := order[k];
    var dp', choice' := dp[v := row], choice[v := chosen];
    TakeStepSet(order, k);
    assert v !in order[..k];
    PredsSolved(pr, order, k, dp, choice);
    RowUnaffected(pr, dp, dp', v, row, chosen);
    forall j | 0 <= j < k ensures Solved(pr, dp', choice', order[j]) {
      SolvedKept(pr, dp, choice, order[j], v, row, chosen);
    }
  }

  lemma SolvedKept(pr: Problem, dp: Table, choice: Choices, u: StageId, v: StageId,
                   row: seq<Ext>, chosen: seq<map<StageId, nat>>)
    requires Solved(pr, dp, choice, u) && v !in dp
    ensures Solved(pr, dp[v := row], choice[v := chosen], u)
  {
    RowUnaffected(pr, dp, dp[v := row], u, dp[u], choice[u]);
  }

  // A row depends only on the rows of the predecessors.
  lemma RowUnaffected(pr: Problem, dp: Table, dp': Table, v: StageId, row: seq<Ext>, chosen: seq<map<StageId, nat>>)
    requires v in pr.g.stages && RowSolved(pr, dp, v, row, chosen)
    requires forall c :: c in Preds(pr.g.edges, v) ==> RowOf(dp, c) == RowOf(dp', c)
    ensures RowSolved(pr, dp', v, row, chosen)
  {
    forall i | 0 <= i < |row| ensures EntrySolved(pr, dp', v, NodeIds(pr.t)[i], row[i], chosen[i]) {
      EntryUnaffected(pr, dp, dp', v, NodeIds(pr.t)[i], row[i], chosen[i]);
    }
  }

  lemma EntryUnaffected(pr: Problem, dp: Table, dp': Table, v: StageId, n: NodeId, x: Ext, chosen: map<StageId, nat>)
    requires v in pr.g.stages && n in NodeIds(pr.t) && EntrySolved(pr, dp, v, n, x, chosen)
    requires forall c :: c in Preds(pr.g.edges, v) ==> RowOf(dp, c) == RowOf(dp', c)
    ensures EntrySolved(pr, dp', v, n, x, chosen)
  {
    hide RowOf;
    forall c | c in Preds(pr.g.edges, v)
      ensures BestVia(pr, dp, c, v, n) == BestVia(pr, dp', c, v, n)
      ensures BestCost(pr, dp, v, n)(c) == BestCost(pr, dp', v, n)(c)
    {
      ViaUnaffected(pr, dp, dp', c, v, n);
    }
    hide BestVia, BestCost;
    SumCong(Preds(pr.g.edges, v), BestCost(pr, dp, v, n), BestCost(pr, dp', v, n));
  }

  lemma ViaUnaffected(pr: Problem, dp: Table, dp': Table, c: StageId, v: StageId, n: NodeId)
    requires RowOf(dp, c) == RowOf(dp', c)
    ensures BestVia(pr, dp, c, v, n) == BestVia(pr, dp', c, v, n)
    ensures BestCost(pr, dp, v, n)(c) == BestCost(pr, dp', v, n)(c)
  {}
}
