// Service-dependency graphs as values: stages in insertion order and a list of
// edges in insertion order. This is the abstract state of class PipelineDAG.
module Graphs {
  import opened Wrappers
  import opened Sequences

  type StageId = string

  datatype Stage = Stage(id: StageId, stageType: string, demand: real,
                         slice: Option<string>, domain: Option<string>)

  datatype Edge = Edge(source: StageId, target: StageId, bound: real)

  datatype Graph = Graph(ids: seq<StageId>, stages: map<StageId, Stage>, edges: seq<Edge>)

  ghost predicate WellFormed(g: Graph) {
    && Distinct(g.ids)
    && g.stages.Keys == ToSet(g.ids)
    && (forall v :: v in g.stages ==> g.stages[v].id == v)
    && (forall e :: e in g.edges ==> e.source in g.ids && e.target in g.ids)
  }

  // ---------------------------------------------------------------- adjacency

  // Targets of u's outgoing edges, in insertion order, duplicates kept.
  function Succs(es: seq<Edge>, u: StageId): seq<StageId> {
    if es == [] then []
    else
      var e := es[|es|-1];
      Succs(es[..|es|-1], u) + if e.source == u then [e.target] else []
  }

  // Sources of v's incoming edges, in insertion order, duplicates kept.
  function Preds(es: seq<Edge>, v: StageId): seq<StageId> {
    if es == [] then []
    else
      var e := es[|es|-1];
      Preds(es[..|es|-1], v) + if e.target == v then [e.source] else []
  }

  // The edge a dictionary keyed by (source, target) holds: the last one added.
  function GetEdge(es: seq<Edge>, u: StageId, v: StageId): (r: Option<Edge>)
    ensures r.Some? ==> r.value in es && r.value.source == u && r.value.target == v
  {
    if es == [] then None
    else
      var e := es[|es|-1];
      if e.source == u && e.target == v then Some(e) else GetEdge(es[..|es|-1], u, v)
  }

  ghost predicate HasEdge(es: seq<Edge>, u: StageId, v: StageId) {
    exists e :: e in es && e.source == u && e.target == v
  }

  lemma {:induction false} Adjacent(es: seq<Edge>, u: StageId, v: StageId)
    ensures v in Succs(es, u) <==> HasEdge(es, u, v)
    ensures u in Preds(es, v) <==> HasEdge(es, u, v)
    ensures GetEdge(es, u, v).Some? <==> HasEdge(es, u, v)
  {
    if es != [] {
      var n := |es| - 1;
      Adjacent(es[..n], u, v);
      assert forall e :: e in es <==> e in es[..n] || e == es[n];
    }
  }

  // Neighbours are listed in the order of the edges.
  lemma {:induction false} ListedInOrder(es: seq<Edge>, fs: seq<Edge>, s: StageId)
    ensures Preds(es + fs, s) == Preds(es, s) + Preds(fs, s)
    ensures Succs(es + fs, s) == Succs(es, s) + Succs(fs, s)
  {
    if fs == [] {
      assert es + fs == es;
    } else {
      var n := |fs| - 1;
      ListedInOrder(es, fs[..n], s);
      assert (es + fs)[..|es|+n] == es + fs[..n] && (es + fs)[|es|+n] == fs[n];
    }
  }

  // Of several edges between two stages the last one added counts.
  lemma {:induction false} LastEdgeCounts(es: seq<Edge>, u: StageId, v: StageId) returns (i: nat)
    requires HasEdge(es, u, v)
    ensures i < |es| && GetEdge(es, u, v) == Some(es[i]) && es[i].source == u && es[i].target == v
    ensures forall j :: i < j < |es| ==> es[j].source != u || es[j].target != v
  {
    var n := |es| - 1;
    if es[n].source == u && es[n].target == v {
      i := n;
    } else {
      var e :| e in es && e.source == u && e.target == v;
      assert e in es[..n];
      i := LastEdgeCounts(es[..n], u, v);
    }
  }

  // Number of u -> v edges.
  function Multiplicity(es: seq<Edge>, u: StageId, v: StageId): nat {
    if es == [] then 0
    else
      var e := es[|es|-1];
      Multiplicity(es[..|es|-1], u, v) + if e.source == u && e.target == v then 1 else 0
  }

  lemma {:induction false} MultiplicityInSuccs(es: seq<Edge>, u: StageId, v: StageId)
    ensures multiset(Succs(es, u))[v] == Multiplicity(es, u, v)
    ensures multiset(Preds(es, v))[u] == Multiplicity(es, u, v)
  {
    if es != [] { MultiplicityInSuccs(es[..|es|-1], u, v); }
  }

  // ---------------------------------------------------------------- paths

  ghost predicate IsPath(es: seq<Edge>, p: seq<StageId>) {
    && |p| >= 1
    && forall i, j :: 0 <= i && j == i + 1 && j < |p| ==> HasEdge(es, p[i], p[j])
  }

  ghost predicate PathFromTo(es: seq<Edge>, p: seq<StageId>, u: StageId, v: StageId) {
    IsPath(es, p) && p[0] == u && p[|p|-1] == v
  }

  // v can be reached from u along zero or more edges.
  ghost predicate Reach(es: seq<Edge>, u: StageId, v: StageId) {
    exists p :: PathFromTo(es, p, u, v)
  }

  // No path of one or more edges returns to where it started.
  ghost predicate Acyclic(es: seq<Edge>) {
    forall p :: IsPath(es, p) && |p| >= 2 ==> p[0] != p[|p|-1]
  }

  lemma ReachRefl(es: seq<Edge>, u: StageId)
    ensures Reach(es, u, u)
  {
    assert PathFromTo(es, [u], u, u);
  }

  lemma ReachStep(es: seq<Edge>, u: StageId, v: StageId, w: StageId)
    requires HasEdge(es, u, v) && Reach(es, v, w)
    ensures Reach(es, u, w)
  {
    var p :| PathFromTo(es, p, v, w);
    assert PathFromTo(es, [u] + p, u, w);
  }

  lemma ReachExtend(es: seq<Edge>, u: StageId, v: StageId, w: StageId)
    requires Reach(es, u, v) && HasEdge(es, v, w)
    ensures Reach(es, u, w)
  {
    var p :| PathFromTo(es, p, u, v);
    assert PathFromTo(es, p + [w], u, w);
  }

  // Either the path is trivial or it starts with an edge.
  lemma ReachFirst(es: seq<Edge>, u: StageId, w: StageId) returns (v: StageId)
    requires Reach(es, u, w) && u != w
    ensures HasEdge(es, u, v) && Reach(es, v, w)
  {
    var p :| PathFromTo(es, p, u, w);
    v := p[1];
    assert PathFromTo(es, p[1..], v, w);
  }

  // Either the path is trivial or it ends with an edge.
  lemma ReachLast(es: seq<Edge>, u: StageId, w: StageId) returns (v: StageId)
    requires Reach(es, u, w) && u != w
    ensures Reach(es, u, v) && HasEdge(es, v, w)
  {
    var p :| PathFromTo(es, p, u, w);
    var n := |p| - 1;
    v := p[n-1];
    assert PathFromTo(es, p[..n], u, v);
  }

  lemma {:induction false} ReachTrans(es: seq<Edge>, u: StageId, v: StageId, w: StageId)
    requires Reach(es, u, v) && Reach(es, v, w)
    ensures Reach(es, u, w)
  {
    var p :| PathFromTo(es, p, u, v);
    var q :| PathFromTo(es, q, v, w);
    var r := p + q[1..];
    forall i, j | 0 <= i && j == i + 1 && j < |r| ensures HasEdge(es, r[i], r[j]) {
      if j < |p| {
        assert r[i] == p[i] && r[j] == p[j];
      } else {
        var a, b := i - |p| + 1, j - |p| + 1;
        assert r[i] == q[a] && r[j] == q[b];
      }
    }
    assert PathFromTo(es, r, u, w);
  }

  // An edge between two stages one of which already reaches the other closes a cycle.
  lemma NoBackEdge(es: seq<Edge>, u: StageId, v: StageId)
    requires Acyclic(es) && HasEdge(es, u, v)
    ensures !Reach(es, v, u)
  {
    if Reach(es, v, u) {
      var p :| PathFromTo(es, p, v, u);
      PathExtends(es, u, p);
      assert false;
    }
  }

  lemma PathExtends(es: seq<Edge>, u: StageId, p: seq<StageId>)
    requires IsPath(es, p) && HasEdge(es, u, p[0])
    ensures IsPath(es, [u] + p) && ([u] + p)[0] == u && ([u] + p)[|p|] == p[|p|-1]
  {}

  // ------------------------------------------------ adding an edge: exactly when safe

  lemma EdgesGrow(es: seq<Edge>, e: Edge, u: StageId, v: StageId)
    ensures HasEdge(es + [e], u, v) <==> HasEdge(es, u, v) || (e.source == u && e.target == v)
  {
    assert forall x :: x in es + [e] <==> x in es || x == e;
  }

  lemma PathsGrow(es: seq<Edge>, e: Edge, p: seq<StageId>)
    requires IsPath(es, p)
    ensures IsPath(es + [e], p)
  {
    forall i, j | 0 <= i && j == i + 1 && j < |p| ensures HasEdge(es + [e], p[i], p[j]) {
      EdgesGrow(es, e, p[i], p[j]);
    }
  }

  // A path to e.source in the larger graph has a prefix that reaches it without using e.
  lemma AvoidNewEdge(es: seq<Edge>, e: Edge, p: seq<StageId>)
    requires IsPath(es + [e], p) && p[|p|-1] == e.source
    ensures Reach(es, p[0], e.source)
  {
    var k := IndexOf(p, e.source);
    IndexOfFirst(p, e.source);
    var q := p[..k+1];
    forall i, j | 0 <= i && j == i + 1 && j < |q| ensures HasEdge(es, q[i], q[j]) {
      assert q[i] == p[i] && q[j] == p[j];
      EdgesGrow(es, e, p[i], p[j]);
    }
    assert PathFromTo(es, q, p[0], e.source);
  }

  // The cycle test of add_edge is exact: the larger graph is acyclic if and only
  // if the new edge's target does not reach its source.
  lemma SafeEdge(es: seq<Edge>, e: Edge)
    requires Acyclic(es)
    ensures Acyclic(es + [e]) <==> !Reach(es, e.target, e.source)
  {
    if Reach(es, e.target, e.source) {
      var p :| PathFromTo(es, p, e.target, e.source);
      PathsGrow(es, e, p);
      EdgesGrow(es, e, e.source, e.target);
      var c := [e.source] + p;
      assert IsPath(es + [e], c) && c[0] == c[|c|-1];
    } else {
      forall p | IsPath(es + [e], p) && |p| >= 2 ensures p[0] != p[|p|-1] {
        if p[0] == p[|p|-1] { CycleGivesReach(es, e, p); assert false; }
      }
    }
  }

  lemma CycleGivesReach(es: seq<Edge>, e: Edge, p: seq<StageId>)
    requires Acyclic(es) && IsPath(es + [e], p) && |p| >= 2 && p[0] == p[|p|-1]
    ensures Reach(es, e.target, e.source)
  {
    var n := |p|;
    assert !IsPath(es, p);
    var i, j :| 0 <= i && j == i + 1 && j < n && !HasEdge(es, p[i], p[j]);
    EdgesGrow(es, e, p[i], p[j]);
    // Walk the cycle from the far end of the new edge around to its near end.
    assert PathFromTo(es + [e], p[j..], e.target, p[0]);
    assert PathFromTo(es + [e], p[..j], p[0], e.source);
    ReachTrans(es + [e], e.target, p[0], e.source);
    var q :| PathFromTo(es + [e], q, e.target, e.source);
    AvoidNewEdge(es, e, q);
  }

  // ---------------------------------------------------------------- topological orders

  // A permutation of the stages in which every edge points forward.
  ghost predicate IsTopoOrder(g: Graph, order: seq<StageId>) {
    && Distinct(order)
    && ToSet(order) == ToSet(g.ids)
    && forall e :: e in g.edges ==>
         e.source in order && e.target in order && IndexOf(order, e.source) < IndexOf(order, e.target)
  }

  lemma TopoEdge(g: Graph, order: seq<StageId>, u: StageId, v: StageId)
    requires IsTopoOrder(g, order) && HasEdge(g.edges, u, v)
    ensures u in order && v in order && IndexOf(order, u) < IndexOf(order, v)
  {
    var e :| e in g.edges && e.source == u && e.target == v;
  }

  lemma IndexOfDistinct<T>(xs: seq<T>, i: nat)
    requires Distinct(xs) && i < |xs|
    ensures IndexOf(xs, xs[i]) == i
  {}

  lemma PrefixIndex<T>(xs: seq<T>, m: nat, x: T)
    requires Distinct(xs) && m <= |xs| && x in xs[..m]
    ensures x in xs && IndexOf(xs[..m], x) == IndexOf(xs, x) < m
  {
    var i := IndexOf(xs[..m], x);
    assert xs[..m][i] == xs[i];
    IndexOfDistinct(xs, i);
  }

  // Along a path positions in a topological order increase.
  lemma {:induction false} PathClimbs(g: Graph, order: seq<StageId>, p: seq<StageId>)
    requires IsTopoOrder(g, order) && IsPath(g.edges, p) && |p| >= 2
    ensures p[0] in order && p[|p|-1] in order
    ensures IndexOf(order, p[0]) < IndexOf(order, p[|p|-1])
  {
    var n := |p| - 1;
    TopoEdge(g, order, p[n-1], p[n]);
    if n > 1 { PathClimbs(g, order, p[..n]); }
  }

  lemma OrderedIsAcyclic(g: Graph, order: seq<StageId>)
    requires IsTopoOrder(g, order)
    ensures Acyclic(g.edges)
  {
    forall p | IsPath(g.edges, p) && |p| >= 2 ensures p[0] != p[|p|-1] {
      PathClimbs(g, order, p);
    }
  }

  // ------------------------------------------------ an acyclic set has a member without
  // incoming edges from inside the set

  ghost predicate FedFrom(es: seq<Edge>, s: set<StageId>, v: StageId) {
    exists u :: u in s && HasEdge(es, u, v)
  }

  ghost predicate Fed(es: seq<Edge>, s: set<StageId>) {
    forall v {:trigger FedFrom(es, s, v)} :: v in s ==> FedFrom(es, s, v)
  }

  lemma {:induction false} LongPath(es: seq<Edge>, s: set<StageId>, n: nat) returns (p: seq<StageId>)
    requires Fed(es, s) && s != {}
    ensures |p| == n + 1 && IsPath(es, p) && forall x :: x in p ==> x in s
  {
    if n == 0 {
      var v :| v in s;
      p := [v];
    } else {
      var q := LongPath(es, s, n - 1);
      assert q[0] in s;
      assert FedFrom(es, s, q[0]);
      var u :| u in s && HasEdge(es, u, q[0]);
      p := [u] + q;
    }
  }

  lemma FedSetHasCycle(es: seq<Edge>, s: set<StageId>)
    requires Fed(es, s) && s != {}
    ensures !Acyclic(es)
  {
    var p := LongPath(es, s, |s|);
    if Distinct(p) {
      DistinctFits(p, s);
      assert false;
    } else {
      var i, j :| 0 <= i < j < |p| && p[i] == p[j];
      var c := p[i..j+1];
      assert IsPath(es, c) && |c| >= 2 && c[0] == c[|c|-1];
    }
  }

  // ---------------------------------------------------------------- in-trees

  ghost predicate NoFanOut(g: Graph) {
    forall v :: v in g.ids ==> |Succs(g.edges, v)| <= 1
  }

  // The test of is_tree: no fan-out and exactly one sink.
  ghost predicate InTree(g: Graph) {
    NoFanOut(g) && exists s :: IsOnlySink(g, s)
  }

  ghost predicate IsOnlySink(g: Graph, s: StageId) {
    s in g.ids && forall v :: v in g.ids ==> (Succs(g.edges, v) == [] <==> v == s)
  }

  lemma SameSuccessor(g: Graph, u: StageId, v: StageId, w: StageId)
    requires WellFormed(g) && NoFanOut(g) && HasEdge(g.edges, u, v) && HasEdge(g.edges, u, w)
    ensures v == w
  {
    var e :| e in g.edges && e.source == u && e.target == v;
    assert u in g.ids;
    AtMostOne(Succs(g.edges, u), v, w) by {
      Adjacent(g.edges, u, v);
      Adjacent(g.edges, u, w);
    }
  }

  lemma AtMostOne<T>(xs: seq<T>, x: T, y: T)
    requires |xs| <= 1 && x in xs && y in xs
    ensures x == y
  {}

  // From one stage of an in-tree there is only one way down: of two stages it
  // reaches, one reaches the other.
  lemma {:induction false} Linear(g: Graph, p: seq<StageId>, q: seq<StageId>)
    requires WellFormed(g) && InTree(g)
    requires IsPath(g.edges, p) && IsPath(g.edges, q) && p[0] == q[0]
    ensures p <= q || q <= p
    decreases |p|
  {
    if |p| > 1 && |q| > 1 {
      SameSuccessor(g, p[0], p[1], q[1]);
      Linear(g, p[1..], q[1..]);
      assert p == [p[0]] + p[1..] && q == [q[0]] + q[1..];
    }
  }

  lemma LinearReach(g: Graph, u: StageId, a: StageId, b: StageId)
    requires WellFormed(g) && InTree(g) && Reach(g.edges, u, a) && Reach(g.edges, u, b)
    ensures Reach(g.edges, a, b) || Reach(g.edges, b, a)
  {
    var p :| PathFromTo(g.edges, p, u, a);
    var q :| PathFromTo(g.edges, q, u, b);
    Linear(g, p, q);
    if p <= q {
      assert PathFromTo(g.edges, q[|p|-1..], a, b);
    } else {
      assert PathFromTo(g.edges, p[|q|-1..], b, a);
    }
  }

  lemma {:induction false} ReachesSink(g: Graph, order: seq<StageId>, s: StageId, v: StageId)
    requires WellFormed(g) && InTree(g) && IsTopoOrder(g, order) && IsOnlySink(g, s) && v in order
    ensures Reach(g.edges, v, s)
    decreases |order| - IndexOf(order, v)
  {
    if v == s {
      ReachRefl(g.edges, s);
    } else {
      assert v in ToSet(order);
      var w := Succs(g.edges, v)[0];
      Adjacent(g.edges, v, w);
      TopoEdge(g, order, v, w);
      ReachesSink(g, order, s, w);
      ReachStep(g.edges, v, w, s);
    }
  }

  // In-tree coverage: every stage has exactly one path to the sink.
  lemma UniquePathToSink(g: Graph, order: seq<StageId>, s: StageId, v: StageId)
    requires WellFormed(g) && InTree(g) && IsTopoOrder(g, order) && IsOnlySink(g, s) && v in g.ids
    ensures exists p :: PathFromTo(g.edges, p, v, s) && forall q :: PathFromTo(g.edges, q, v, s) ==> q == p
  {
    assert v in ToSet(order);
    ReachesSink(g, order, s, v);
    var p :| PathFromTo(g.edges, p, v, s);
    forall q | PathFromTo(g.edges, q, v, s) ensures q == p {
      Linear(g, p, q);
      if p <= q { SinkEndsPath(g, s, p, q); } else { SinkEndsPath(g, s, q, p); }
    }
  }

  // No path continues past the sink.
  lemma SinkEndsPath(g: Graph, s: StageId, p: seq<StageId>, q: seq<StageId>)
    requires WellFormed(g) && IsOnlySink(g, s)
    requires IsPath(g.edges, p) && IsPath(g.edges, q) && p[|p|-1] == s && p <= q
    ensures p == q
  {
    var n := |p| - 1;
    if n + 1 < |q| {
      assert HasEdge(g.edges, q[n], q[n+1]);
      Adjacent(g.edges, s, q[n+1]);
      assert false;
    }
  }

  lemma PredIsStage(g: Graph, c: StageId, v: StageId)
    requires WellFormed(g) && c in Preds(g.edges, v)
    ensures HasEdge(g.edges, c, v) && c in g.stages && c in g.ids
  {
    Adjacent(g.edges, c, v);
    var e :| e in g.edges && e.source == c && e.target == v;
    assert c in ToSet(g.ids);
  }

  lemma PredsDistinct(g: Graph, v: StageId, k: nat, a: StageId)
    requires WellFormed(g) && NoFanOut(g) && k < |Preds(g.edges, v)| && a in Preds(g.edges, v)[..k]
    ensures a != Preds(g.edges, v)[k]
  {
    var preds := Preds(g.edges, v);
    assert a in preds;
    PredIsStage(g, a, v);
    MultisetFits(Succs(g.edges, a), v);
    MultiplicityInSuccs(g.edges, a, v);
    if a == preds[k] { OccursTwice(preds, k, a); assert false; }
  }

  lemma OccursTwice<T>(xs: seq<T>, k: nat, x: T)
    requires k < |xs| && x in xs[..k] && xs[k] == x
    ensures multiset(xs)[x] >= 2
  {
    assert xs == xs[..k] + [xs[k]] + xs[k+1..];
  }

  lemma MultisetFits<T>(xs: seq<T>, x: T)
    ensures multiset(xs)[x] <= |xs|
  {
    assert |multiset(xs)| == |xs|;
    assert multiset{} [x := multiset(xs)[x]] <= multiset(xs);
    assert |multiset{} [x := multiset(xs)[x]]| == multiset(xs)[x];
  }

  // Without fan-out no stage is listed twice among the predecessors of another.
  lemma DistinctPreds(g: Graph, v: StageId)
    requires WellFormed(g) && NoFanOut(g)
    ensures Distinct(Preds(g.edges, v))
  {
    var preds := Preds(g.edges, v);
    forall j, k | 0 <= j < k < |preds| ensures preds[j] != preds[k] {
      assert preds[..k][j] == preds[j];
      PredsDistinct(g, v, k, preds[j]);
    }
  }
}
