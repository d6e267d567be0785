// class PipelineDAG: a graph built edge by edge. Its index fields always agree
// with the edge list, and a graph built through AddEdge is always acyclic.
module PipelineDags {
  import opened Wrappers
  import opened Sequences
  import opened Graphs

  datatype DagError = DuplicateStage | MissingSource | MissingTarget | WouldCycle | CyclicGraph

  // Edges into v that do not come from a stage in done: v's in-degree in the
  // middle of Kahn's algorithm.
  ghost function Remaining(es: seq<Edge>, v: StageId, done: set<StageId>): nat {
    if es == [] then 0
    else
      var e := es[|es|-1];
      Remaining(es[..|es|-1], v, done) + if e.target == v && e.source !in done then 1 else 0
  }

  lemma RemainingStep(es: seq<Edge>, k: nat, v: StageId)
    requires k < |es|
    ensures Remaining(es[..k+1], v, {}) == Remaining(es[..k], v, {}) + if es[k].target == v then 1 else 0
  {
    assert es[..k+1][..k] == es[..k];
  }

  lemma {:induction false} RemainingAfter(es: seq<Edge>, v: StageId, done: set<StageId>, u: StageId)
    requires u !in done
    ensures Remaining(es, v, done + {u}) == Remaining(es, v, done) - Multiplicity(es, u, v)
  {
    if es != [] { RemainingAfter(es[..|es|-1], v, done, u); }
  }

  lemma {:induction false} RemainingPositive(es: seq<Edge>, v: StageId, done: set<StageId>)
    ensures Remaining(es, v, done) > 0 <==> exists e :: e in es && e.target == v && e.source !in done
  {
    if es != [] {
      var n := |es| - 1;
      RemainingPositive(es[..n], v, done);
      assert forall e :: e in es <==> e in es[..n] || e == es[n];
    }
  }

  // What Kahn's main loop keeps.
  ghost predicate KahnInvariant(g: Graph, inDegree: map<StageId, int>, queue: seq<StageId>, order: seq<StageId>) {
    && inDegree.Keys == ToSet(g.ids)
    && Distinct(order + queue)
    && (forall v :: v in order + queue ==> v in inDegree)
    && (forall v :: v in inDegree ==> inDegree[v] == Remaining(g.edges, v, ToSet(order)))
    && (forall v :: v in inDegree ==> (inDegree[v] == 0 <==> v in order + queue))
    && EdgesForward(g, order)
  }

  ghost predicate EdgesForward(g: Graph, order: seq<StageId>) {
    forall e :: e in g.edges && e.target in order ==>
      e.source in order && IndexOf(order, e.source) < IndexOf(order, e.target)
  }

  lemma {:induction false} IndexOfPrefix<T>(xs: seq<T>, ys: seq<T>, x: T)
    requires x in xs
    ensures IndexOf(xs + ys, x) == IndexOf(xs, x)
  {
    if xs[0] != x {
      assert (xs + ys)[1..] == xs[1..] + ys;
      IndexOfPrefix(xs[1..], ys, x);
    }
  }

  // Moving a stage with no remaining incoming edge to the end of the order keeps
  // every edge into the order pointing forward.
  lemma AppendForward(g: Graph, order: seq<StageId>, u: StageId)
    requires EdgesForward(g, order) && u !in order && Remaining(g.edges, u, ToSet(order)) == 0
    ensures EdgesForward(g, order + [u])
  {
    var next := order + [u];
    RemainingPositive(g.edges, u, ToSet(order));
    forall e | e in g.edges && e.target in next
      ensures e.source in next && IndexOf(next, e.source) < IndexOf(next, e.target)
    {
      assert e.source in order by {
        if e.target in order { } else { assert e.source in ToSet(order); }
      }
      IndexOfPrefix(order, [u], e.source);
      if e.target in order { IndexOfPrefix(order, [u], e.target); }
    }
  }

  lemma KahnStep(g: Graph, inDegree: map<StageId, int>, queue: seq<StageId>, order: seq<StageId>,
                 after: map<StageId, int>, added: seq<StageId>)
    requires KahnInvariant(g, inDegree, queue, order) && queue != []
    requires after.Keys == inDegree.Keys
    requires forall v :: v in after ==> after[v] == inDegree[v] - multiset(Succs(g.edges, queue[0]))[v]
    requires Distinct(added)
    requires forall v :: v in added <==> v in Succs(g.edges, queue[0]) && v in after && after[v] == 0
    ensures KahnInvariant(g, after, queue[1..] + added, order + [queue[0]])
  {
    var u, es := queue[0], g.edges;
    var next := order + [u];
    DistinctParts(order, queue);
    assert ToSet(next) == ToSet(order) + {u};
    forall v | v in after ensures after[v] == Remaining(es, v, ToSet(next)) {
      RemainingAfter(es, v, ToSet(order), u);
      MultiplicityInSuccs(es, u, v);
    }
    forall v | v in added ensures v !in order + queue {
      assert multiset(Succs(es, u))[v] > 0;
    }
    DistinctJoin(order + queue, added);
    assert next + (queue[1..] + added) == (order + queue) + added;
    forall v | v in after ensures after[v] == 0 <==> v in (order + queue) + added {
      if v in order + queue {
        assert inDegree[v] == 0;
      } else if after[v] == 0 {
        assert v in Succs(es, u);
      }
    }
    assert u in order + queue;
    AppendForward(g, order, u);
  }

  // When the queue is empty the order is complete, or the stages left over feed one another.
  lemma KahnComplete(g: Graph, inDegree: map<StageId, int>, order: seq<StageId>)
    requires WellFormed(g) && KahnInvariant(g, inDegree, [], order) && |order| == |g.ids|
    ensures IsTopoOrder(g, order)
  {
    assert order + [] == order;
    DistinctSize(order);
    DistinctSize(g.ids);
    assert ToSet(order) <= ToSet(g.ids);
    SubsetOfSameSize(ToSet(order), ToSet(g.ids));
    forall e | e in g.edges ensures e.target in order {
      assert e.target in ToSet(g.ids);
    }
  }

  lemma SubsetOfSameSize<T>(a: set<T>, b: set<T>)
    requires a <= b && |a| == |b|
    ensures a == b
  {
    assert b == a + (b - a);
    assert |b| == |a| + |b - a|;
  }

  lemma KahnStuck(g: Graph, inDegree: map<StageId, int>, order: seq<StageId>)
    requires WellFormed(g) && KahnInvariant(g, inDegree, [], order) && |order| != |g.ids|
    ensures !Acyclic(g.edges)
  {
    assert order + [] == order;
    DistinctSize(order);
    DistinctSize(g.ids);
    hide KahnInvariant, FedFrom, Acyclic;
    var left := ToSet(g.ids) - ToSet(order);
    assert ToSet(order) <= ToSet(g.ids);
    assert ToSet(g.ids) == left + ToSet(order);
    assert left != {};
    forall v | v in left ensures FedFrom(g.edges, left, v) { PendingIsFed(g, inDegree, order, v); }
    FedSetHasCycle(g.edges, left);
  }

  // With an empty queue, a stage that was not reached waits for another such stage.
  lemma PendingIsFed(g: Graph, inDegree: map<StageId, int>, order: seq<StageId>, v: StageId)
    requires WellFormed(g) && KahnInvariant(g, inDegree, [], order) && v in ToSet(g.ids) - ToSet(order)
    ensures FedFrom(g.edges, ToSet(g.ids) - ToSet(order), v)
  {
    assert order + [] == order;
    RemainingPositive(g.edges, v, ToSet(order));
    var e :| e in g.edges && e.target == v && e.source !in ToSet(order);
    assert e.source in g.ids && HasEdge(g.edges, e.source, v);
  }

  lemma NextArePending(g: Graph, current: StageId, degree: map<StageId, int>, queue: seq<StageId>, order: seq<StageId>)
    requires WellFormed(g) && KahnInvariant(g, degree, [current] + queue, order)
    ensures forall v :: v in Succs(g.edges, current) ==>
      v in degree && degree[v] >= multiset(Succs(g.edges, current))[v] > 0
  {
    DistinctParts(order, [current] + queue);
    assert current in [current] + queue;
    assert current !in ToSet(order);
    forall v | v in Succs(g.edges, current)
      ensures v in degree && degree[v] >= multiset(Succs(g.edges, current))[v] > 0
    {
      Adjacent(g.edges, current, v);
      var e :| e in g.edges && e.source == current && e.target == v;
      assert v in ToSet(g.ids);
      RemainingAfter(g.edges, v, ToSet(order), current);
      MultiplicityInSuccs(g.edges, current, v);
    }
  }

  lemma OnlySink(g: Graph, sinks: seq<StageId>)
    requires Distinct(sinks)
    requires forall v :: v in sinks <==> v in g.ids && Succs(g.edges, v) == []
    ensures |sinks| == 1 ==> IsOnlySink(g, sinks[0])
    ensures forall s :: IsOnlySink(g, s) ==> sinks == [s]
  {
    forall s | IsOnlySink(g, s) ensures sinks == [s] {
      assert ToSet(sinks) == {s};
      DistinctSize(sinks);
      assert sinks[0] in ToSet(sinks);
    }
  }

  // ---------------------------------------------------------------- breadth-first search

  // Everything reached so far except what is still queued is closed under edges.
  ghost predicate SearchInvariant(es: seq<Edge>, from: StageId, to: StageId, visited: set<StageId>,
          queue: seq<StageId>)
  {
    && from != to && to !in visited
    && (forall v :: v in visited ==> Reach(es, from, v))
    && (forall v :: v in queue ==> v == from || v in visited)
    && (forall u, v :: (u == from || u in visited) && u !in queue && HasEdge(es, u, v) ==> v in visited)
  }

  lemma {:induction false} ClosedSetTraps(es: seq<Edge>, from: StageId, to: StageId, visited: set<StageId>,
          p: seq<StageId>)
    requires SearchInvariant(es, from, to, visited, [])
    requires IsPath(es, p) && (p[0] == from || p[0] in visited)
    ensures p[|p|-1] != to
    decreases |p|
  {
    if |p| > 1 {
      assert HasEdge(es, p[0], p[1]);
      ClosedSetTraps(es, from, to, visited, p[1..]);
    }
  }

  lemma SearchStep(es: seq<Edge>, from: StageId, to: StageId, visited: set<StageId>, queue: seq<StageId>,
                   grown: set<StageId>, added: seq<StageId>)
    requires SearchInvariant(es, from, to, visited, queue) && queue != []
    requires Reach(es, from, queue[0])
    ensures to in Succs(es, queue[0]) ==> Reach(es, from, to)
    ensures
      to !in Succs(es, queue[0]) && grown == visited + ToSet(Succs(es, queue[0])) && ToSet(added) == grown - visited
      ==> SearchInvariant(es, from, to, grown, queue[1..] + added)
  {
    var current := queue[0];
    var next := Succs(es, current);
    forall v | v in next ensures Reach(es, from, v) {
      Adjacent(es, current, v);
      ReachExtend(es, from, current, v);
    }
    if to !in next && grown == visited + ToSet(next) && ToSet(added) == grown - visited {
      forall v | v in queue[1..] + added ensures v == from || v in grown {
        if v in added { assert v in ToSet(added); } else { assert v in queue; }
      }
      forall u, v | (u == from || u in grown) && u !in queue[1..] + added && HasEdge(es, u, v) ensures v in grown {
        Adjacent(es, u, v);
        if u != current {
          assert u !in ToSet(added);
          assert u !in queue;
        }
      }
    }
  }

  lemma SearchDone(es: seq<Edge>, from: StageId, to: StageId, visited: set<StageId>)
    requires SearchInvariant(es, from, to, visited, [])
    ensures !Reach(es, from, to)
  {
    forall p ensures !PathFromTo(es, p, from, to) {
      if IsPath(es, p) && p[0] == from { ClosedSetTraps(es, from, to, visited, p); }
    }
  }

  lemma EmptyIsAcyclic()
    ensures Acyclic([])
  {
    forall p ensures IsPath([], p) ==> |p| < 2 {
      if IsPath([], p) && |p| >= 2 { PathUsesEdge([], p); assert false; }
    }
  }

  lemma PathUsesEdge(es: seq<Edge>, p: seq<StageId>)
    requires IsPath(es, p) && |p| >= 2
    ensures es != []
  {
    assert HasEdge(es, p[0], p[1]);
  }

  lemma CountOneMore(xs: seq<StageId>, i: nat)
    requires i < |xs|
    ensures xs[..i+1] == xs[..i] + [xs[i]]
    ensures multiset(xs[..i+1]) == multiset(xs[..i]) + multiset{xs[i]}
    ensures multiset(xs[..i])[xs[i]] + 1 <= multiset(xs)[xs[i]]
  {
    assert xs == xs[..i] + [xs[i]] + xs[i+1..];
    assert xs[..i+1] == xs[..i] + [xs[i]];
  }

  // The redundant indexes say the same as the edge list.
  ghost predicate Agree(es: seq<Edge>, index: map<(StageId, StageId), Edge>,
                        successors: map<StageId, seq<StageId>>, predecessors: map<StageId, seq<StageId>>)
  {
    && (forall u :: Listed(successors, u) == Succs(es, u))
    && (forall v :: Listed(predecessors, v) == Preds(es, v))
    && (forall u, v :: Indexed(index, u, v) == GetEdge(es, u, v))
  }

  lemma AgreeGrows(es: seq<Edge>, e: Edge, index: map<(StageId, StageId), Edge>,
                   successors: map<StageId, seq<StageId>>, predecessors: map<StageId, seq<StageId>>)
    requires Agree(es, index, successors, predecessors)
    ensures Agree(es + [e], index[(e.source, e.target) := e],
                  successors[e.source := Listed(successors, e.source) + [e.target]],
                  predecessors[e.target := Listed(predecessors, e.target) + [e.source]])
  {
    assert (es + [e])[..|es|] == es;
    forall u
      ensures Listed(successors[e.source := Listed(successors, e.source) + [e.target]], u) == Succs(es + [e], u)
    {
      assert Listed(successors, u) == Succs(es, u);
    }
    forall v
      ensures Listed(predecessors[e.target := Listed(predecessors, e.target) + [e.source]], v) == Preds(es + [e], v)
    {
      assert Listed(predecessors, v) == Preds(es, v);
    }
    var grown := index[(e.source, e.target) := e];
    forall u, v ensures Indexed(grown, u, v) == GetEdge(es + [e], u, v) {
      assert Indexed(index, u, v) == GetEdge(es, u, v);
    }
  }

  lemma WellFormedGrows(g: Graph, e: Edge)
    requires WellFormed(g) && e.source in g.stages && e.target in g.stages
    ensures WellFormed(g.(edges := g.edges + [e]))
  {
    forall x | x in g.edges + [e] ensures x.source in g.ids && x.target in g.ids {
      if x !in g.edges { assert x == e && e.source in ToSet(g.ids) && e.target in ToSet(g.ids); }
    }
  }

  lemma WellFormedWithStage(g: Graph, stage: Stage)
    requires WellFormed(g) && stage.id !in g.stages
    ensures WellFormed(Graph(g.ids + [stage.id], g.stages[stage.id := stage], g.edges))
  {
    var ids := g.ids + [stage.id];
    assert ToSet(ids) == ToSet(g.ids) + {stage.id};
    assert stage.id !in ToSet(g.ids);
  }

  class PipelineDAG {
    var ids: seq<StageId>                          // keys of the stage dictionary, in insertion order
    var stages: map<StageId, Stage>
    var edges: seq<Edge>
    var edgeIndex: map<(StageId, StageId), Edge>
    var successors: map<StageId, seq<StageId>>     // a missing key stands for an empty list
    var predecessors: map<StageId, seq<StageId>>
    const valueBudget: Option<real>

    function View(): Graph
      reads this
    {
      Graph(ids, stages, edges)
    }

    ghost predicate Consistent()
      reads this
    {
      && WellFormed(View())
      && Agree(edges, edgeIndex, successors, predecessors)
    }

    ghost predicate Valid()
      reads this
    {
      Consistent() && Acyclic(edges)
    }

    constructor (budget: Option<real>)
      ensures Valid() && View() == Graph([], map[], []) && valueBudget == budget
    {
      ids, stages, edges := [], map[], [];
      edgeIndex, successors, predecessors := map[], map[], map[];
      valueBudget := budget;
      new;
      EmptyIsAcyclic();
    }

    method AddStage(stage: Stage) returns (r: Result<(), DagError>)
      requires Valid()
      modifies this
      ensures Valid()
      ensures r == if stage.id in old(stages) then Error(DuplicateStage) else Ok(())
      ensures r.Error? ==> View() == old(View())
      ensures r.Ok? ==> View() == Graph(old(ids) + [stage.id], old(stages)[stage.id := stage], old(edges))
    {
      if stage.id in stages {
        return Error(DuplicateStage);
      }
      WellFormedWithStage(View(), stage);
      ids := ids + [stage.id];
      stages := stages[stage.id := stage];
      return Ok(());
    }

    // add_edge rejects exactly the edges that would close a cycle.
    method AddEdge(edge: Edge) returns (r: Result<(), DagError>)
      requires Valid()
      modifies this
      ensures Valid()
      ensures edge.source !in old(stages) ==> r == Error(MissingSource)
      ensures edge.source in old(stages) && edge.target !in old(stages) ==> r == Error(MissingTarget)
      ensures edge.source in old(stages) && edge.target in old(stages) ==>
        r == if Acyclic(old(edges) + [edge]) then Ok(()) else Error(WouldCycle)
      ensures r.Error? ==> View() == old(View())
      ensures r.Ok? ==> View() == old(View()).(edges := old(edges) + [edge])
    {
      hide Agree, Acyclic, WellFormed;
      if edge.source !in stages {
        return Error(MissingSource);
      }
      if edge.target !in stages {
        return Error(MissingTarget);
      }
      SafeEdge(edges, edge);
      var back := CanReach(edge.target, edge.source);
      if back {
        return Error(WouldCycle);
      }
      AgreeGrows(edges, edge, edgeIndex, successors, predecessors);
      WellFormedGrows(View(), edge);
      edges := edges + [edge];
      edgeIndex := edgeIndex[(edge.source, edge.target) := edge];
      successors := successors[edge.source := Listed(successors, edge.source) + [edge.target]];
      predecessors := predecessors[edge.target := Listed(predecessors, edge.target) + [edge.source]];
      return Ok(());
    }

    method CanReach(from: StageId, to: StageId) returns (r: bool)
      requires Consistent() && from in stages
      ensures r <==> Reach(edges, from, to)
    {
      ReachRefl(edges, from);
      if from == to {
        return true;
      }
      var visited: set<StageId> := {};
      var queue := [from];
      while queue != []
        invariant SearchInvariant(edges, from, to, visited, queue)
        invariant visited <= stages.Keys
        decreases stages.Keys - visited, |queue|
      {
        var current := queue[0];
        assert Reach(edges, from, current);
        var next := Listed(successors, current);
        var found, grown, added := Explore(next, to, visited);
        SearchStep(edges, from, to, visited, queue, grown, added);
        if found {
          return true;
        }
        forall v | v in next ensures v in stages {
          Adjacent(edges, current, v);
          var e :| e in edges && e.source == current && e.target == v;
          assert v in ToSet(ids);
        }
        assert added != [] ==> added[0] in grown - visited;
        visited, queue := grown, queue[1..] + added;
      }
      SearchDone(edges, from, to, visited);
      return false;
    }

    // The inner loop of _can_reach: look at the successors of one stage.
    static method Explore(next: seq<StageId>, to: StageId, visited: set<StageId>)
      returns (found: bool, grown: set<StageId>, added: seq<StageId>)
      requires to !in visited
      ensures found <==> to in next
      ensures !found ==> grown == visited + ToSet(next) && ToSet(added) == grown - visited
    {
      grown, added := visited, [];
      var i := 0;
      while i < |next|
        invariant 0 <= i <= |next|
        invariant to !in next[..i]
        invariant forall v :: v in grown <==> v in visited || v in next[..i]
        invariant forall v :: v in added <==> v in grown && v !in visited
      {
        var succ := next[i];
        if succ == to {
          return true, grown, added;
        }
        if succ !in grown {
          grown := grown + {succ};
          added := added + [succ];
        }
        i := i + 1;
      }
      assert next[..i] == next;
      return false, grown, added;
    }

    // topological_sort fails exactly on a cyclic graph, so never on one built by AddEdge.
    method TopologicalSort() returns (r: Result<seq<StageId>, DagError>)
      requires Consistent()
      ensures r.Ok? <==> Acyclic(edges)
      ensures r.Ok? ==> IsTopoOrder(View(), r.value)
      ensures r.Error? ==> r.error == CyclicGraph
    {
      var inDegree := InDegrees();
      var queue := Unfed(ids, inDegree);
      var order: seq<StageId> := [];
      assert order + queue == queue;
      assert ToSet(order) == {};
      while queue != []
        invariant KahnInvariant(View(), inDegree, queue, order)
        decreases |ids| - |order|
      {
        var current := queue[0];
        assert queue == [current] + queue[1..];
        FitsInStages(order + queue);
        NextArePending(View(), current, inDegree, queue[1..], order);
        var after, added := Relax(Listed(successors, current), inDegree);
        KahnStep(View(), inDegree, queue, order, after, added);
        inDegree, queue, order := after, queue[1..] + added, order + [current];
      }
      if |order| != |ids| {
        KahnStuck(View(), inDegree, order);
        return Error(CyclicGraph);
      }
      KahnComplete(View(), inDegree, order);
      OrderedIsAcyclic(View(), order);
      return Ok(order);
    }

    // The stages whose in-degree is zero, in insertion order.
    static method Unfed(ids: seq<StageId>, inDegree: map<StageId, int>) returns (queue: seq<StageId>)
      requires Distinct(ids) && inDegree.Keys == ToSet(ids)
      ensures Distinct(queue)
      ensures forall v :: v in queue <==> v in inDegree && inDegree[v] == 0
    {
      queue := [];
      var k := 0;
      while k < |ids|
        invariant 0 <= k <= |ids|
        invariant Distinct(queue)
        invariant forall v :: v in queue <==> v in ids[..k] && v in inDegree && inDegree[v] == 0
      {
        assert ids[k] in ToSet(ids);
        assert ids[k] !in ids[..k];
        if inDegree[ids[k]] == 0 {
          queue := queue + [ids[k]];
        }
        k := k + 1;
      }
      assert ids[..k] == ids;
    }

    lemma FitsInStages(xs: seq<StageId>)
      requires Consistent() && Distinct(xs) && forall v :: v in xs ==> v in stages
      ensures |xs| <= |ids|
    {
      DistinctFits(xs, stages.Keys);
      DistinctSize(ids);
    }

    method InDegrees() returns (inDegree: map<StageId, int>)
      requires Consistent()
      ensures inDegree.Keys == ToSet(ids)
      ensures forall v :: v in inDegree ==> inDegree[v] == Remaining(edges, v, {})
    {
      inDegree := map v | v in ids :: 0;
      assert edges[..0] == [];
      var k := 0;
      while k < |edges|
        invariant 0 <= k <= |edges|
        invariant inDegree.Keys == ToSet(ids)
        invariant forall v :: v in inDegree ==> inDegree[v] == Remaining(edges[..k], v, {})
      {
        var e := edges[k];
        assert e in edges && e.target in ToSet(ids);
        ghost var before := inDegree;
        inDegree := inDegree[e.target := inDegree[e.target] + 1];
        forall v | v in inDegree ensures inDegree[v] == Remaining(edges[..k+1], v, {}) {
          assert before[v] == Remaining(edges[..k], v, {});
          RemainingStep(edges, k, v);
        }
        k := k + 1;
      }
      assert edges[..k] == edges;
    }

    // Kahn's inner loop: the edges to the given targets are removed.
    static method Relax(next: seq<StageId>, degree: map<StageId, int>)
      returns (after: map<StageId, int>, added: seq<StageId>)
      requires forall v :: v in next ==> v in degree && degree[v] >= multiset(next)[v] > 0
      ensures after.Keys == degree.Keys
      ensures forall v :: v in after ==> after[v] == degree[v] - multiset(next)[v]
      ensures Distinct(added)
      ensures forall v :: v in added <==> v in next && v in after && after[v] == 0
    {
      after, added := degree, [];
      var i := 0;
      while i < |next|
        invariant 0 <= i <= |next|
        invariant after.Keys == degree.Keys
        invariant forall v :: v in after ==> after[v] == degree[v] - multiset(next[..i])[v]
        invariant Distinct(added)
        invariant forall v :: v in added <==> v in next[..i] && v in after && after[v] == 0
      {
        var succ := next[i];
        CountOneMore(next, i);
        after := after[succ := after[succ] - 1];
        if after[succ] == 0 {
          added := added + [succ];
        }
        i := i + 1;
      }
      assert next[..i] == next;
    }

    // is_tree: no fan-out and exactly one sink.
    method IsTree() returns (r: bool)
      requires Consistent()
      ensures r <==> InTree(View())
    {
      var sinkCount := 0;
      ghost var sinks: seq<StageId> := [];
      var k := 0;
      while k < |ids|
        invariant 0 <= k <= |ids|
        invariant forall v :: v in ids[..k] ==> |Succs(edges, v)| <= 1
        invariant sinkCount == |sinks| && Distinct(sinks)
        invariant forall v :: v in sinks <==> v in ids[..k] && Succs(edges, v) == []
      {
        var nSucc := |Listed(successors, ids[k])|;
        assert ids[k] in ids && ids[k] !in ids[..k];
        if nSucc > 1 {
          return false;
        }
        if nSucc == 0 {
          sinkCount := sinkCount + 1;
          sinks := sinks + [ids[k]];
        }
        k := k + 1;
      }
      assert ids[..k] == ids;
      OnlySink(View(), sinks);
      return sinkCount == 1;
    }

    // Stages without successors, in insertion order.
    method Sinks() returns (sinks: seq<StageId>)
      requires Consistent()
      ensures Distinct(sinks) && forall v :: v in sinks <==> v in ids && Succs(edges, v) == []
    {
      sinks := [];
      var k := 0;
      while k < |ids|
        invariant 0 <= k <= |ids|
        invariant Distinct(sinks)
        invariant forall v :: v in sinks <==> v in ids[..k] && Succs(edges, v) == []
      {
        assert ids[k] in ids && ids[k] !in ids[..k];
        if Listed(successors, ids[k]) == [] {
          sinks := sinks + [ids[k]];
        }
        k := k + 1;
      }
      assert ids[..k] == ids;
    }

    // accepts_cost
    predicate AcceptsCost(totalCost: Ext) {
      Affordable(valueBudget, totalCost)
    }
  }

  // No budget accepts any cost.
  predicate Affordable(budget: Option<real>, total: Ext) {
    budget.None? || AtMost(total, Fin(budget.value))
  }

  // dict.get(key, [])
  function Listed(m: map<StageId, seq<StageId>>, key: StageId): seq<StageId> {
    if key in m then m[key] else []
  }

  // dict.get((u, v))
  function Indexed(m: map<(StageId, StageId), Edge>, u: StageId, v: StageId): Option<Edge> {
    if (u, v) in m then Some(m[(u, v)]) else None
  }
}
