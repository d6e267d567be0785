// Per-slice round-robin of the static broker: one cycle over the eligible workers for
// each slice requirement.
module RoundRobin {
  import opened Wrappers
  import opened Sequences
  import opened Graphs
  import opened Topologies
  import opened Brokers

  // ---------------------------------------------------------------- sorted worker lists

  predicate Precedes(a: string, b: string) {
    b != [] && (a == [] || a[0] < b[0] || (a[0] == b[0] && Precedes(a[1..], b[1..])))
  }

  lemma {:induction false} PrecedesTotal(a: string, b: string)
    ensures a == b || Precedes(a, b) || Precedes(b, a)
    ensures !(Precedes(a, b) && Precedes(b, a)) && !Precedes(a, a)
  {
    if a != [] && b != [] && a[0] == b[0] {
      PrecedesTotal(a[1..], b[1..]);
      assert a == [a[0]] + a[1..] && b == [b[0]] + b[1..];
    } else if a != [] && b != [] {
      PrecedesIrreflexive(a);
    } else if a != [] {
      PrecedesIrreflexive(a);
    }
  }

  lemma {:induction false} PrecedesIrreflexive(a: string)
    ensures !Precedes(a, a)
  {
    if a != [] { PrecedesIrreflexive(a[1..]); }
  }

  lemma {:induction false} PrecedesTransitive(a: string, b: string, c: string)
    requires Precedes(a, b) && Precedes(b, c)
    ensures Precedes(a, c)
  {
    if a != [] && a[0] == b[0] == c[0] { PrecedesTransitive(a[1..], b[1..], c[1..]); }
  }

  // Lexicographic order: a proper prefix comes first, otherwise the first difference decides.
  lemma {:induction false} PrecedesExactly(a: string, b: string)
    ensures Precedes(a, b) <==> (a <= b && a != b) || exists k: nat :: Differ(a, b, k) && a[k] < b[k]
  {
    if a != [] && b != [] && a[0] == b[0] {
      PrecedesExactly(a[1..], b[1..]);
      assert a == [a[0]] + a[1..] && b == [b[0]] + b[1..];
      forall k: nat ensures Differ(a, b, k + 1) <==> Differ(a[1..], b[1..], k) { DifferLater(a, b, k); }
      if k: nat :| Differ(a, b, k) && a[k] < b[k] { assert Differ(a[1..], b[1..], k - 1); }
      if k: nat :| Differ(a[1..], b[1..], k) && a[1..][k] < b[1..][k] { assert Differ(a, b, k + 1); }
    } else if a != [] && b != [] && a[0] < b[0] {
      assert Differ(a, b, 0);
    }
  }

  // The strings agree up to position k and no further.
  ghost predicate Differ(a: string, b: string, k: nat) {
    k < |a| && k < |b| && a[..k] == b[..k] && a[k] != b[k]
  }

  lemma DifferLater(a: string, b: string, k: nat)
    requires a != [] && b != [] && a[0] == b[0]
    ensures Differ(a, b, k + 1) <==> Differ(a[1..], b[1..], k)
  {
    if k < |a| - 1 && k < |b| - 1 {
      assert a[..k+1] == [a[0]] + a[1..][..k] && b[..k+1] == [b[0]] + b[1..][..k];
      assert a[..k+1][1..] == a[1..][..k] && b[..k+1][1..] == b[1..][..k];
    }
  }

  ghost predicate Ascending(xs: seq<NodeId>) {
    forall i, j :: 0 <= i < j < |xs| ==> Precedes(xs[i], xs[j])
  }

  lemma AscendingDistinct(xs: seq<NodeId>)
    requires Ascending(xs)
    ensures Distinct(xs)
  {
    forall i, j | 0 <= i < j < |xs| ensures xs[i] != xs[j] { PrecedesIrreflexive(xs[i]); }
  }

  // Sorting leaves no choice.
  lemma {:induction false} AscendingUnique(xs: seq<NodeId>, ys: seq<NodeId>)
    requires Ascending(xs) && Ascending(ys) && ToSet(xs) == ToSet(ys)
    ensures xs == ys
  {
    AscendingDistinct(xs);
    AscendingDistinct(ys);
    DistinctSize(xs);
    DistinctSize(ys);
    if xs != [] {
      var n := |xs| - 1;
      LastIsGreatest(xs, ys);
      LastRemoved(xs);
      LastRemoved(ys);
      AscendingUnique(xs[..n], ys[..n]);
      assert xs == xs[..n] + [xs[n]] && ys == ys[..n] + [ys[n]];
    }
  }

  lemma LastIsGreatest(xs: seq<NodeId>, ys: seq<NodeId>)
    requires Ascending(xs) && Ascending(ys) && ToSet(xs) == ToSet(ys) && xs != [] && ys != []
    ensures xs[|xs|-1] == ys[|ys|-1]
  {
    var a, b := xs[|xs|-1], ys[|ys|-1];
    assert a in ToSet(ys) && b in ToSet(xs);
    var i := IndexOf(ys, a);
    var j := IndexOf(xs, b);
    if i < |ys| - 1 && j < |xs| - 1 { PrecedesTotal(a, b); }
  }

  lemma LastRemoved(xs: seq<NodeId>)
    requires Ascending(xs) && xs != []
    ensures Ascending(xs[..|xs|-1]) && ToSet(xs[..|xs|-1]) == ToSet(xs) - {xs[|xs|-1]}
  {
    AscendingDistinct(xs);
    TakeStepSet(xs, |xs| - 1);
    TakeAll(xs);
    assert xs[|xs|-1] !in xs[..|xs|-1];
  }

  function Inserted(xs: seq<NodeId>, x: NodeId): seq<NodeId> {
    if xs == [] || Precedes(x, xs[0]) then [x] + xs else [xs[0]] + Inserted(xs[1..], x)
  }

  lemma {:induction false} InsertedAscends(xs: seq<NodeId>, x: NodeId)
    requires Ascending(xs) && x !in xs
    ensures Ascending(Inserted(xs, x)) && forall y :: y in Inserted(xs, x) <==> y in xs || y == x
  {
    if xs != [] {
      if Precedes(x, xs[0]) {
        forall i | 1 <= i < |xs| ensures Precedes(x, xs[i]) { PrecedesTransitive(x, xs[0], xs[i]); }
      } else {
        InsertedAscends(xs[1..], x);
        PrecedesTotal(x, xs[0]);
        var rest := Inserted(xs[1..], x);
        forall i | 0 <= i < |rest| ensures Precedes(xs[0], rest[i]) { assert rest[i] in rest; }
      }
    }
  }

  // ---------------------------------------------------------------- cycles

  // itertools.cycle over a list, and the position of its next element.
  datatype Cycle = Cycle(workers: seq<NodeId>, at: nat)

  type Requirement = Option<string>

  type Cycles = map<Requirement, Cycle>

  predicate Eligible(workers: map<NodeId, WorkerInfo>, req: Requirement, w: NodeId) {
    w in workers && SliceMatches(workers[w].slice, req)
  }

  // A requirement is met by its own slice and by flat workers, no requirement by every worker.
  lemma EligibleExactly(workers: map<NodeId, WorkerInfo>, req: Requirement, w: NodeId)
    ensures Eligible(workers, req, w)
      <==> w in workers && (req == None || req == Some(workers[w].slice) || workers[w].slice == "flat")
    ensures Served(workers, None) <==> workers != map[]
  {
    if workers != map[] {
      var u :| u in workers;
      assert Eligible(workers, None, u);
    }
  }

  // The cycle lists exactly the workers that match the slice, in order.
  ghost predicate Lists(workers: map<NodeId, WorkerInfo>, req: Requirement, xs: seq<NodeId>) {
    Ascending(xs) && forall w :: w in xs <==> Eligible(workers, req, w)
  }

  lemma {:induction false} SortedExists(s: set<NodeId>) returns (xs: seq<NodeId>)
    ensures Ascending(xs) && forall w :: w in xs <==> w in s
  {
    if s == {} {
      xs := [];
    } else {
      var w :| w in s;
      var rest := SortedExists(s - {w});
      InsertedAscends(rest, w);
      xs := Inserted(rest, w);
    }
  }

  lemma ListExists(workers: map<NodeId, WorkerInfo>, req: Requirement)
    ensures exists xs :: Lists(workers, req, xs)
  {
    var xs := SortedExists(set w | w in workers && Eligible(workers, req, w));
    assert Lists(workers, req, xs);
  }

  // The sorted eligible workers.
  ghost function EligibleList(workers: map<NodeId, WorkerInfo>, req: Requirement): (xs: seq<NodeId>)
    ensures Lists(workers, req, xs)
  {
    ListExists(workers, req);
    var xs :| Lists(workers, req, xs);
    xs
  }

  lemma ListUnique(workers: map<NodeId, WorkerInfo>, req: Requirement, xs: seq<NodeId>)
    requires Lists(workers, req, xs)
    ensures xs == EligibleList(workers, req)
  {
    AscendingUnique(xs, EligibleList(workers, req));
  }

  ghost predicate CycleValid(workers: map<NodeId, WorkerInfo>, req: Requirement, c: Cycle) {
    Lists(workers, req, c.workers) && c.at < |c.workers|
  }

  ghost predicate CyclesValid(workers: map<NodeId, WorkerInfo>, cycles: Cycles) {
    forall req :: req in cycles ==> CycleValid(workers, req, cycles[req])
  }

  function Advance(c: Cycle): Cycle
    requires c.workers != []
  {
    c.(at := (c.at + 1) % |c.workers|)
  }

  // The k-th next element.
  function Upcoming(c: Cycle, k: nat): NodeId
    requires c.workers != []
  {
    c.workers[(c.at + k) % |c.workers|]
  }

  datatype PickError = NoWorkers | NoEligible(req: Requirement)

  datatype Strategy = RoundRobin | Random

  class StaticBroker {
    const strategy: Strategy
    var workers: map<NodeId, WorkerInfo>
    var sliceCycles: Cycles

    ghost predicate Valid()
      reads this
    {
      CyclesValid(workers, sliceCycles)
    }

    constructor (placement: Strategy)
      ensures Valid() && strategy == placement && workers == map[] && sliceCycles == map[]
    {
      strategy, workers, sliceCycles := placement, map[], map[];
    }

    // _eligible_workers
    method EligibleWorkers(req: Requirement) returns (xs: seq<NodeId>)
      ensures Lists(workers, req, xs)
    {
      xs := [];
      var todo := workers.Keys;
      while todo != {}
        invariant todo <= workers.Keys && Ascending(xs)
        invariant forall w :: w in xs <==> Eligible(workers, req, w) && w !in todo
      {
        var w :| w in todo;
        if SliceMatches(workers[w].slice, req) {
          InsertedAscends(xs, w);
          xs := Inserted(xs, w);
        }
        todo := todo - {w};
      }
    }

    // _rebuild_cycle: a fresh cycle for no requirement and for every worker's slice.
    method RebuildCycle()
      modifies this`sliceCycles
      ensures Valid()
      ensures forall req :: req in sliceCycles ==> sliceCycles[req].at == 0
      ensures forall req :: req in sliceCycles <==> Prebuilt(workers, req)
    {
      var keys: set<Requirement> := {None}
        + set w | w in workers && workers[w].slice != "flat" :: Some(workers[w].slice);
      sliceCycles := map[];
      var todo := keys;
      while todo != {}
        invariant todo <= keys && Valid()
        invariant forall req :: req in sliceCycles ==> sliceCycles[req].at == 0
        invariant forall req :: req in sliceCycles <==> req in keys && req !in todo && Served(workers, req)
      {
        var req :| req in todo;
        var eligible := EligibleWorkers(req);
        if |eligible| > 0 {
          assert Eligible(workers, req, eligible[0]);
          sliceCycles := sliceCycles[req := Cycle(eligible, 0)];
        }
        todo := todo - {req};
      }
      forall req | req in keys ensures Served(workers, req) <==> req.Some? || workers != map[] {
        if req.Some? {
          var w :| w in workers && workers[w].slice != "flat" && req == Some(workers[w].slice);
          assert Eligible(workers, req, w);
        } else if workers != map[] {
          var w :| w in workers;
          assert Eligible(workers, req, w);
        }
      }
    }

    // Registering or removing a worker restarts every cycle.
    method ChangeWorkers(registry: map<NodeId, WorkerInfo>)
      modifies this
      ensures Valid() && workers == registry
      ensures forall req :: req in sliceCycles ==> sliceCycles[req].at == 0
    {
      workers := registry;
      RebuildCycle();
    }

    // _pick_worker: the next worker of the requirement's cycle, or a drawn eligible worker.
    method PickWorker(req: Requirement, draw: nat) returns (r: Result<NodeId, PickError>)
      requires Valid()
      modifies this`sliceCycles
      ensures Valid()
      ensures r.Ok? <==> Served(workers, req)
      ensures r.Ok? ==> Eligible(workers, req, r.value)
      ensures r.Error? ==> r.error == (if workers == map[] then NoWorkers else NoEligible(req))
      ensures r.Error? ==> sliceCycles == old(sliceCycles)
      ensures strategy.RoundRobin? ==> sliceCycles == Serve(workers, old(sliceCycles), req).0
      ensures strategy.RoundRobin? ==> Serve(workers, old(sliceCycles), req).1 == if r.Ok? then Some(r.value) else None
      ensures strategy.Random? ==> sliceCycles == old(sliceCycles)
      ensures strategy.Random? && r.Ok? ==> Drawn(EligibleList(workers, req), draw, r.value)
    {
      hide Serve, Ascending;
      if |workers.Keys| == 0 {
        NobodyServes(workers, old(sliceCycles), req);
        return Error(NoWorkers);
      }
      if strategy.Random? {
        var eligible := EligibleWorkers(req);
        ListUnique(workers, req, eligible);
        if |eligible| == 0 {
          return Error(NoEligible(req));
        }
        assert eligible[draw % |eligible|] in eligible;
        return Ok(eligible[draw % |eligible|]);
      }
      if req !in sliceCycles {
        var eligible := EligibleWorkers(req);
        ListUnique(workers, req, eligible);
        if |eligible| == 0 {
          NobodyServes(workers, old(sliceCycles), req);
          return Error(NoEligible(req));
        }
        sliceCycles := sliceCycles[req := Cycle(eligible, 0)];
      }
      var c := sliceCycles[req];
      CycleServes(workers, old(sliceCycles), req, c);
      r := Ok(c.workers[c.at]);
      sliceCycles := sliceCycles[req := Advance(c)];
    }

    // _compute_placement: every stage asks for a worker of its slice, in order. On failure
    // the cycles stay where the stages before the failing one left them.
    method ComputePlacement(g: Graph, order: seq<StageId>, draws: seq<nat>)
      returns (r: Result<map<StageId, NodeId>, PickError>)
      requires Valid() && Distinct(order) && |draws| == |order| && forall s :: s in order ==> s in g.stages
      modifies this`sliceCycles
      ensures Valid()
      ensures r.Ok? <==> forall s :: s in order ==> Served(workers, g.stages[s].slice)
      ensures r.Ok? ==> PlacedEligibly(workers, g, order, r.value)
      ensures r.Ok? && strategy.RoundRobin? ==>
        Follows(order, r.value, AnswersOf(workers, old(sliceCycles), Slices(g, order)))
      ensures r.Ok? && strategy.RoundRobin? ==>
        sliceCycles == CyclesAfter(workers, old(sliceCycles), Slices(g, order))
      ensures r.Error? && strategy.RoundRobin? ==>
        exists k: nat ::
          StopsAt(workers, g, order, k) && sliceCycles == CyclesAfter(workers, old(sliceCycles), Slices(g, order[..k]))
      ensures strategy.Random? ==> sliceCycles == old(sliceCycles)
    {
      hide Serve, Served, CyclesValid, Placing, CyclesAfter, AnswersOf, Slices;
      var placement: map<StageId, NodeId> := map[];
      ghost var start := sliceCycles;
      var k := 0;
      StartPlacing(strategy, workers, start, g, order);
      while k < |order|
        invariant 0 <= k <= |order| && Valid()
        invariant Placing(strategy, workers, start, sliceCycles, g, order[..k], placement)
      {
        var s := order[k];
        TakeStep(order, k);
        assert s !in order[..k];
        ghost var before := sliceCycles;
        var pick := PickWorker(g.stages[s].slice, draws[k]);
        if pick.Error? {
          StopPlacing(strategy, workers, start, before, g, order, k, placement);
          return Error(pick.error);
        }
        PlaceStep(strategy, workers, start, before, sliceCycles, g, order[..k], s, placement, pick.value);
        placement := placement[s := pick.value];
        k := k + 1;
      }
      TakeAll(order);
      DonePlacing(strategy, workers, start, sliceCycles, g, order, placement);
      return Ok(placement);
    }
  }

  // ---------------------------------------------------------------- requests as values

  ghost predicate Served(workers: map<NodeId, WorkerInfo>, req: Requirement) {
    exists w :: Eligible(workers, req, w)
  }

  // Requirements that get a cycle when the registry changes.
  ghost predicate Prebuilt(workers: map<NodeId, WorkerInfo>, req: Requirement) {
    || (req.None? && workers != map[])
    || (exists w :: w in workers && workers[w].slice != "flat" && req == Some(workers[w].slice))
  }

  ghost predicate Drawn(xs: seq<NodeId>, draw: nat, w: NodeId) {
    xs != [] && w == xs[draw % |xs|]
  }

  // The cycle a requirement is served from: the stored one, else a fresh one.
  ghost function Turn(workers: map<NodeId, WorkerInfo>, cycles: Cycles, req: Requirement): Cycle {
    if req in cycles then cycles[req] else Cycle(EligibleList(workers, req), 0)
  }

  // One request: its own cycle advances by one worker, no other cycle moves.
  ghost function Serve(workers: map<NodeId, WorkerInfo>, cycles: Cycles, req: Requirement): (Cycles, Option<NodeId>) {
    var c := Turn(workers, cycles, req);
    if c.workers == [] then (cycles, None) else (cycles[req := Advance(c)], Some(Upcoming(c, 0)))
  }

  lemma CycleServes(workers: map<NodeId, WorkerInfo>, cycles: Cycles, req: Requirement, c: Cycle)
    requires CycleValid(workers, req, c) && c == Turn(workers, cycles, req)
    ensures Serve(workers, cycles, req) == (cycles[req := Advance(c)], Some(c.workers[c.at]))
    ensures cycles[req := c][req := Advance(c)] == cycles[req := Advance(c)]
    ensures CycleValid(workers, req, Advance(c)) && Eligible(workers, req, c.workers[c.at])
  {
    NextTurn(c, 0);
    assert c.workers[c.at] in c.workers;
  }

  lemma NobodyServes(workers: map<NodeId, WorkerInfo>, cycles: Cycles, req: Requirement)
    requires CyclesValid(workers, cycles) && !Served(workers, req)
    ensures Serve(workers, cycles, req) == (cycles, None)
  {
    var c := Turn(workers, cycles, req);
    assert Lists(workers, req, c.workers);
    ListedServe(workers, req, c.workers);
  }

  // A requirement that has no cycle yet is served by the first eligible worker.
  lemma FirstServed(workers: map<NodeId, WorkerInfo>, cycles: Cycles, req: Requirement)
    requires req !in cycles && Served(workers, req)
    ensures EligibleList(workers, req) != []
    ensures Serve(workers, cycles, req).1 == Some(EligibleList(workers, req)[0])
  {
    var w :| Eligible(workers, req, w);
    assert w in EligibleList(workers, req);
  }

  lemma ListedServe(workers: map<NodeId, WorkerInfo>, req: Requirement, xs: seq<NodeId>)
    requires Lists(workers, req, xs)
    ensures xs != [] ==> Served(workers, req)
  {
    if xs != [] {
      assert xs[0] in xs;
      assert Eligible(workers, req, xs[0]);
    }
  }

  // The cycles after a run of requests.
  ghost function CyclesAfter(workers: map<NodeId, WorkerInfo>, cycles: Cycles, reqs: seq<Requirement>): Cycles {
    if reqs == [] then cycles
    else Serve(workers, CyclesAfter(workers, cycles, reqs[..|reqs|-1]), reqs[|reqs|-1]).0
  }

  // The worker given to each request of a run.
  ghost function AnswersOf(workers: map<NodeId, WorkerInfo>, cycles: Cycles,
          reqs: seq<Requirement>): (rs: seq<Option<NodeId>>)
    ensures |rs| == |reqs|
  {
    if reqs == [] then []
    else
      var before := reqs[..|reqs|-1];
      AnswersOf(workers, cycles, before) + [Serve(workers, CyclesAfter(workers, cycles, before), reqs[|reqs|-1]).1]
  }

  lemma OneMore(workers: map<NodeId, WorkerInfo>, cycles: Cycles, reqs: seq<Requirement>, req: Requirement)
    ensures var served := Serve(workers, CyclesAfter(workers, cycles, reqs), req);
      && CyclesAfter(workers, cycles, reqs + [req]) == served.0
      && AnswersOf(workers, cycles, reqs + [req]) == AnswersOf(workers, cycles, reqs) + [served.1]
  {
    hide Serve;
    assert (reqs + [req])[..|reqs|] == reqs;
  }

  // A run after a run is one run.
  lemma {:induction false} RunsJoin(workers: map<NodeId, WorkerInfo>, cycles: Cycles, xs: seq<Requirement>,
          ys: seq<Requirement>)
    ensures CyclesAfter(workers, cycles, xs + ys) == CyclesAfter(workers, CyclesAfter(workers, cycles, xs), ys)
    ensures AnswersOf(workers, cycles, xs + ys)
      == AnswersOf(workers, cycles, xs) + AnswersOf(workers, CyclesAfter(workers, cycles, xs), ys)
  {
    if ys == [] {
      assert xs + ys == xs;
      NothingAsked(workers, CyclesAfter(workers, cycles, xs));
      hide CyclesAfter, AnswersOf;
    } else {
      hide Serve, CyclesAfter, AnswersOf;
      var n := |ys| - 1;
      var middle := CyclesAfter(workers, cycles, xs);
      RunsJoin(workers, cycles, xs, ys[..n]);
      OneMore(workers, cycles, xs + ys[..n], ys[n]);
      OneMore(workers, middle, ys[..n], ys[n]);
      LastApart(xs, ys);
      var (_, answer) := Serve(workers, CyclesAfter(workers, middle, ys[..n]), ys[n]);
      Associate(AnswersOf(workers, cycles, xs), AnswersOf(workers, middle, ys[..n]), [answer]);
    }
  }

  lemma NothingAsked(workers: map<NodeId, WorkerInfo>, cycles: Cycles)
    ensures CyclesAfter(workers, cycles, []) == cycles && AnswersOf(workers, cycles, []) == []
  {}

  lemma LastApart<T>(xs: seq<T>, ys: seq<T>)
    requires ys != []
    ensures ys[..|ys|-1] + [ys[|ys|-1]] == ys && (xs + ys[..|ys|-1]) + [ys[|ys|-1]] == xs + ys
  {}

  lemma Associate<T>(xs: seq<T>, ys: seq<T>, zs: seq<T>)
    ensures (xs + ys) + zs == xs + (ys + zs)
  {}

  // ---------------------------------------------------------------- placements

  function Slices(g: Graph, xs: seq<StageId>): seq<Requirement>
    requires forall s :: s in xs ==> s in g.stages
  {
    seq(|xs|, i requires 0 <= i < |xs| => g.stages[xs[i]].slice)
  }

  ghost predicate PlacedEligibly(workers: map<NodeId, WorkerInfo>, g: Graph, order: seq<StageId>,
          p: map<StageId, NodeId>)
    requires forall s :: s in order ==> s in g.stages
  {
    p.Keys == ToSet(order) && forall s :: s in order ==> s in p && Eligible(workers, g.stages[s].slice, p[s])
  }

  // The stages got the given answers.
  ghost predicate Follows(order: seq<StageId>, p: map<StageId, NodeId>, answers: seq<Option<NodeId>>) {
    |answers| == |order| && forall i :: 0 <= i < |order| ==> order[i] in p && answers[i] == Some(p[order[i]])
  }

  // The first stage without an eligible worker.
  ghost predicate StopsAt(workers: map<NodeId, WorkerInfo>, g: Graph, order: seq<StageId>, k: nat)
    requires forall s :: s in order ==> s in g.stages
  {
    && k < |order| && !Served(workers, g.stages[order[k]].slice)
    && forall s :: s in order[..k] ==> Served(workers, g.stages[s].slice)
  }

  // The stages of xs are placed and the cycles stand where their requests left them.
  ghost predicate Placing(strategy: Strategy, workers: map<NodeId, WorkerInfo>, start: Cycles, now: Cycles, g: Graph,
                          xs: seq<StageId>, p: map<StageId, NodeId>)
    requires forall s :: s in xs ==> s in g.stages
  {
    && PlacedEligibly(workers, g, xs, p)
    && (strategy.RoundRobin? ==> Follows(xs, p, AnswersOf(workers, start, Slices(g, xs))))
    && (strategy.RoundRobin? ==> now == CyclesAfter(workers, start, Slices(g, xs)))
    && (strategy.Random? ==> now == start)
  }

  lemma StartPlacing(strategy: Strategy, workers: map<NodeId, WorkerInfo>, start: Cycles, g: Graph, order: seq<StageId>)
    requires forall s :: s in order ==> s in g.stages
    ensures Placing(strategy, workers, start, start, g, order[..0], map[])
  {
    assert order[..0] == [] && Slices(g, order[..0]) == [];
  }

  lemma DonePlacing(strategy: Strategy, workers: map<NodeId, WorkerInfo>, start: Cycles, now: Cycles, g: Graph,
                    order: seq<StageId>, p: map<StageId, NodeId>)
    requires (forall s :: s in order ==> s in g.stages) && Placing(strategy, workers, start, now, g, order, p)
    ensures PlacedEligibly(workers, g, order, p) && forall s :: s in order ==> Served(workers, g.stages[s].slice)
    ensures strategy.RoundRobin? ==> Follows(order, p, AnswersOf(workers, start, Slices(g, order)))
    ensures strategy.RoundRobin? ==> now == CyclesAfter(workers, start, Slices(g, order))
    ensures strategy.Random? ==> now == start
  {
    hide Eligible, CyclesAfter, AnswersOf, Slices, Follows;
  }

  lemma StopPlacing(strategy: Strategy, workers: map<NodeId, WorkerInfo>, start: Cycles, now: Cycles, g: Graph,
                    order: seq<StageId>, k: nat, p: map<StageId, NodeId>)
    requires (forall s :: s in order ==> s in g.stages) && k < |order|
    requires Placing(strategy, workers, start, now, g, order[..k], p) && !Served(workers, g.stages[order[k]].slice)
    ensures StopsAt(workers, g, order, k)
    ensures strategy.RoundRobin? ==> now == CyclesAfter(workers, start, Slices(g, order[..k]))
    ensures strategy.Random? ==> now == start
  {
    DonePlacing(strategy, workers, start, now, g, order[..k], p);
    hide Eligible, Served, CyclesAfter, AnswersOf, Slices, Placing;
  }

  lemma PlaceStep(strategy: Strategy, workers: map<NodeId, WorkerInfo>, start: Cycles, before: Cycles, after: Cycles,
                  g: Graph, xs: seq<StageId>, s: StageId, p: map<StageId, NodeId>, w: NodeId)
    requires s in g.stages && (forall x :: x in xs ==> x in g.stages) && s !in xs
    requires Placing(strategy, workers, start, before, g, xs, p) && Eligible(workers, g.stages[s].slice, w)
    requires strategy.RoundRobin? ==> Serve(workers, before, g.stages[s].slice) == (after, Some(w))
    requires strategy.Random? ==> after == before
    ensures Placing(strategy, workers, start, after, g, xs + [s], p[s := w])
  {
    hide Serve, CyclesAfter, AnswersOf, Slices, Follows, PlacedEligibly, Eligible;
    EligibleStep(workers, g, xs, s, p, w);
    RequestStep(workers, start, g, xs, s);
    if strategy.RoundRobin? { FollowsStep(xs, s, p, w, AnswersOf(workers, start, Slices(g, xs))); }
  }

  lemma EligibleStep(workers: map<NodeId, WorkerInfo>, g: Graph, xs: seq<StageId>, s: StageId,
          p: map<StageId, NodeId>, w: NodeId)
    requires s in g.stages && (forall x :: x in xs ==> x in g.stages)
    requires PlacedEligibly(workers, g, xs, p) && Eligible(workers, g.stages[s].slice, w)
    ensures PlacedEligibly(workers, g, xs + [s], p[s := w])
  {
    AppendSet(xs, s);
  }

  lemma FollowsStep(xs: seq<StageId>, s: StageId, p: map<StageId, NodeId>, w: NodeId, answers: seq<Option<NodeId>>)
    requires Follows(xs, p, answers) && s !in xs
    ensures Follows(xs + [s], p[s := w], answers + [Some(w)])
  {}

  lemma RequestStep(workers: map<NodeId, WorkerInfo>, start: Cycles, g: Graph, xs: seq<StageId>, s: StageId)
    requires s in g.stages && forall x :: x in xs ==> x in g.stages
    ensures var cycles, req := CyclesAfter(workers, start, Slices(g, xs)), g.stages[s].slice;
      && CyclesAfter(workers, start, Slices(g, xs + [s])) == Serve(workers, cycles, req).0
      && AnswersOf(workers, start, Slices(g, xs + [s]))
         == AnswersOf(workers, start, Slices(g, xs)) + [Serve(workers, cycles, req).1]
  {
    OneMore(workers, start, Slices(g, xs), g.stages[s].slice);
    assert Slices(g, xs + [s]) == Slices(g, xs) + [g.stages[s].slice];
  }

  // Advancing k times and then once.
  lemma NextTurn(c: Cycle, k: nat)
    requires c.workers != [] && c.at < |c.workers|
    ensures Upcoming(Later(c, k), 0) == Upcoming(c, k) && Advance(Later(c, k)) == Later(c, k + 1) && Later(c, 0) == c
  {
    var m := |c.workers|;
    var q, r := (c.at + k) / m, (c.at + k) % m;
    assert c.at + k == q * m + r;
    DivModUnique(r, m, 0, r);
    DivModUnique(c.at, m, 0, c.at);
    if r + 1 < m {
      DivModUnique(c.at + k + 1, m, q, r + 1);
      DivModUnique(r + 1, m, 0, r + 1);
    } else {
      assert (q + 1) * m == q * m + m;
      DivModUnique(c.at + k + 1, m, q + 1, 0);
      DivModUnique(r + 1, m, 1, 0);
    }
  }

  // ---------------------------------------------------------------- fairness

  function Picks(c: Cycle, n: nat): seq<NodeId>
    requires c.workers != []
  {
    seq(n, k requires 0 <= k => Upcoming(c, k))
  }

  function CountIn(xs: seq<NodeId>, w: NodeId): nat {
    if xs == [] then 0 else CountIn(xs[..|xs|-1], w) + if xs[|xs|-1] == w then 1 else 0
  }

  lemma DivModUnique(a: int, m: nat, q: int, r: int)
    requires m >= 1 && a == q * m + r && 0 <= r < m
    ensures a / m == q && a % m == r
  {
    var d := a / m - q;
    assert d * m == r - a % m;
    assert d >= 1 ==> d * m >= m;
    assert d <= -1 ==> d * m <= -1 * m;
  }

  // How far the worker at position i is from the next element of the cycle.
  function Distance(at: nat, i: nat, m: nat): nat
    requires at < m && i < m
  {
    if i >= at then i - at else i + m - at
  }

  // The k-th next element is the worker at position i when k is its distance, modulo the length.
  lemma TurnComes(at: nat, i: nat, m: nat, k: nat)
    requires at < m && i < m
    ensures (at + k) % m == i <==> (k + m - Distance(at, i, m)) % m == 0
  {
    var d := Distance(at, i, m);
    var q, r := (k + m - d) / m, (k + m - d) % m;
    assert k + m - d == q * m + r;
    var turn := if i >= at then q - 1 else q;
    assert at + k == turn * m + (i + r) by {
      if i >= at { assert (q - 1) * m == q * m - m; }
    }
    if i + r < m {
      DivModUnique(at + k, m, turn, i + r);
    } else {
      assert (turn + 1) * m == turn * m + m;
      DivModUnique(at + k, m, turn + 1, i + r - m);
    }
  }

  lemma DivNext(a: nat, m: nat)
    requires m >= 1
    ensures (a + 1) / m == a / m + if (a + 1) % m == 0 then 1 else 0
  {
    var q, r := a / m, a % m;
    assert a == q * m + r;
    if r + 1 == m {
      assert a + 1 == (q + 1) * m + 0;
      DivModUnique(a + 1, m, q + 1, 0);
    } else {
      DivModUnique(a + 1, m, q, r + 1);
    }
  }

  // Exact number of turns of a worker among the next n picks.
  lemma {:induction false} TurnsExact(c: Cycle, n: nat, i: nat)
    requires Distinct(c.workers) && c.at < |c.workers| && i < |c.workers|
    ensures CountIn(Picks(c, n), c.workers[i]) == (n + |c.workers| - 1 - Distance(c.at, i, |c.workers|)) / |c.workers|
  {
    var m, d := |c.workers|, Distance(c.at, i, |c.workers|);
    if n == 0 {
      DivModUnique(m - 1 - d, m, 0, m - 1 - d);
    } else {
      var k := n - 1;
      TurnsExact(c, k, i);
      assert Picks(c, n)[..k] == Picks(c, k);
      TurnComes(c.at, i, m, k);
      DivNext(k + m - 1 - d, m);
    }
  }

  // count is the floor or the ceiling of n over m.
  predicate Even(count: nat, n: nat, m: nat) {
    m > 0 && n / m <= count <= (n + m - 1) / m
  }

  // Among any n consecutive picks over m workers each is picked floor(n/m) or ceil(n/m) times.
  lemma RoundRobinFair(c: Cycle, n: nat, w: NodeId)
    requires Distinct(c.workers) && c.at < |c.workers| && w in c.workers
    ensures Even(CountIn(Picks(c, n), w), n, |c.workers|)
  {
    var m, i := |c.workers|, IndexOf(c.workers, w);
    TurnsExact(c, n, i);
    DivMonotone(n, n + m - 1 - Distance(c.at, i, m), m);
    DivMonotone(n + m - 1 - Distance(c.at, i, m), n + m - 1, m);
  }

  lemma DivMonotone(a: nat, b: nat, m: nat)
    requires m >= 1 && a <= b
    ensures a / m <= b / m
  {
    var d := a / m - b / m;
    assert a == (a / m) * m + a % m && b == (b / m) * m + b % m;
    assert d * m <= b % m - a % m;
    assert d >= 1 ==> d * m >= m;
  }

  // The workers given to the requests for req, in order.
  ghost function PicksOf(workers: map<NodeId, WorkerInfo>, cycles: Cycles, reqs: seq<Requirement>,
          req: Requirement): seq<NodeId>
  {
    if reqs == [] then []
    else
      var n := |reqs| - 1;
      var answer := Serve(workers, CyclesAfter(workers, cycles, reqs[..n]), reqs[n]).1;
      PicksOf(workers, cycles, reqs[..n], req) + if reqs[n] == req && answer.Some? then [answer.value] else []
  }

  // Requests for req in a run.
  function Asked(reqs: seq<Requirement>, req: Requirement): nat {
    if reqs == [] then 0 else Asked(reqs[..|reqs|-1], req) + if reqs[|reqs|-1] == req then 1 else 0
  }

  function Later(c: Cycle, k: nat): Cycle
    requires c.workers != []
  {
    c.(at := (c.at + k) % |c.workers|)
  }

  lemma PicksGrow(c: Cycle, k: nat)
    requires c.workers != []
    ensures Picks(c, k + 1) == Picks(c, k) + [Upcoming(c, k)]
  {}

  // Whatever else is requested in between, the requests for req take successive turns of
  // its cycle.
  lemma {:induction false} RequestsTakeTurns(workers: map<NodeId, WorkerInfo>, cycles: Cycles,
          reqs: seq<Requirement>, req: Requirement)
    requires var c := Turn(workers, cycles, req); c.workers != [] && c.at < |c.workers|
    ensures var c, k := Turn(workers, cycles, req), Asked(reqs, req);
      && PicksOf(workers, cycles, reqs, req) == Picks(c, k)
      && Turn(workers, CyclesAfter(workers, cycles, reqs), req) == Later(c, k)
  {
    var c := Turn(workers, cycles, req);
    if reqs == [] {
      NextTurn(c, 0);
    } else {
      hide EligibleList;
      var n, k := |reqs| - 1, Asked(reqs[..|reqs|-1], req);
      RequestsTakeTurns(workers, cycles, reqs[..n], req);
      NextTurn(c, k);
      PicksGrow(c, k);
      assert Picks(c, k) + [] == Picks(c, k);
    }
  }

  lemma ModAdds(a: nat, k: nat, m: nat)
    requires m >= 1
    ensures (a % m + k) % m == (a + k) % m
  {
    var q, r := a / m, a % m;
    var d, e := (r + k) / m, (r + k) % m;
    assert a == q * m + r && r + k == d * m + e;
    Distributes(q, d, m);
    DivModUnique(a + k, m, q + d, e);
  }

  lemma Distributes(a: int, b: int, c: int)
    ensures (a + b) * c == a * c + b * c
  {}

  lemma LaterTurns(c: Cycle, i: nat, k: nat)
    requires c.workers != [] && c.at < |c.workers|
    ensures Upcoming(Later(c, i), k) == Upcoming(c, i + k)
  {
    var m := |c.workers|;
    ModAdds(c.at + i, k, m);
  }

  lemma PicksWithin(c: Cycle, k: nat, i: nat, n: nat)
    requires c.workers != [] && c.at < |c.workers| && i + n <= k
    ensures Picks(c, k)[i..i+n] == Picks(Later(c, i), n)
  {
    var xs, ys := Picks(c, k)[i..i+n], Picks(Later(c, i), n);
    forall j | 0 <= j < n ensures xs[j] == ys[j] { LaterTurns(c, i, j); }
  }

  // The cycle of a requirement with an eligible worker is never empty.
  lemma TurnValid(workers: map<NodeId, WorkerInfo>, cycles: Cycles, req: Requirement, w: NodeId)
    requires CyclesValid(workers, cycles) && Eligible(workers, req, w)
    ensures CycleValid(workers, req, Turn(workers, cycles, req)) && w in Turn(workers, cycles, req).workers
    ensures Turn(workers, cycles, req).workers == EligibleList(workers, req)
  {
    var c := Turn(workers, cycles, req);
    assert Lists(workers, req, c.workers);
    ListUnique(workers, req, c.workers);
    assert w in c.workers;
  }

  // Between registry changes, over any run of requests with whatever requirements, any n
  // consecutive picks for a slice with m eligible workers give each of them floor(n/m) or
  // ceil(n/m).
  lemma RunFair(workers: map<NodeId, WorkerInfo>, cycles: Cycles, reqs: seq<Requirement>, req: Requirement,
                i: nat, n: nat, w: NodeId)
    requires CyclesValid(workers, cycles) && Eligible(workers, req, w) && i + n <= Asked(reqs, req)
    ensures |PicksOf(workers, cycles, reqs, req)| == Asked(reqs, req)
    ensures Even(CountIn(PicksOf(workers, cycles, reqs, req)[i..i+n], w), n, |EligibleList(workers, req)|)
  {
    TurnValid(workers, cycles, req, w);
    hide CyclesValid, Turn, EligibleList, CountIn, PicksOf, Even;
    var c := Turn(workers, cycles, req);
    RequestsTakeTurns(workers, cycles, reqs, req);
    PicksWithin(c, Asked(reqs, req), i, n);
    AscendingDistinct(c.workers);
    RoundRobinFair(Later(c, i), n, w);
  }

  // Stages of the list with the given requirement that p puts on w.
  function Share(g: Graph, xs: seq<StageId>, p: map<StageId, NodeId>, req: Requirement, w: NodeId): nat
    requires forall s :: s in xs ==> s in g.stages && s in p
  {
    if xs == [] then 0
    else
      var s := xs[|xs|-1];
      Share(g, xs[..|xs|-1], p, req, w) + if g.stages[s].slice == req && p[s] == w then 1 else 0
  }

  lemma {:induction false} ShareIsPicks(workers: map<NodeId, WorkerInfo>, cycles: Cycles, g: Graph, xs: seq<StageId>,
                                        p: map<StageId, NodeId>, req: Requirement, w: NodeId)
    requires (forall s :: s in xs ==> s in g.stages) && Follows(xs, p, AnswersOf(workers, cycles, Slices(g, xs)))
    ensures forall s :: s in xs ==> s in p
    ensures Share(g, xs, p, req, w) == CountIn(PicksOf(workers, cycles, Slices(g, xs), req), w)
  {
    if xs != [] {
      hide *;
      FollowsPrefix(workers, cycles, g, xs, p);
      PicksStep(workers, cycles, g, xs, p, req);
      var n := |xs| - 1;
      ShareIsPicks(workers, cycles, g, xs[..n], p, req, w);
      ShareStep(g, xs, p, req, w);
      CountGrows(PicksOf(workers, cycles, Slices(g, xs[..n]), req), p[xs[n]], w);
    }
  }

  lemma ShareStep(g: Graph, xs: seq<StageId>, p: map<StageId, NodeId>, req: Requirement, w: NodeId)
    requires xs != [] && (forall s :: s in xs[..|xs|-1] ==> s in p) && xs[|xs|-1] in p
    requires forall s :: s in xs ==> s in g.stages
    ensures forall s :: s in xs ==> s in p
    ensures var n := |xs| - 1;
      Share(g, xs, p, req, w)
        == Share(g, xs[..n], p, req, w) + if g.stages[xs[n]].slice == req && p[xs[n]] == w then 1 else 0
  {
    SplitLast(xs);
    hide Share;
    ShareUnfolds(g, xs, p, req, w);
  }

  lemma ShareUnfolds(g: Graph, xs: seq<StageId>, p: map<StageId, NodeId>, req: Requirement, w: NodeId)
    requires xs != [] && forall s :: s in xs ==> s in g.stages && s in p
    ensures var n := |xs| - 1;
      Share(g, xs, p, req, w)
        == Share(g, xs[..n], p, req, w) + if g.stages[xs[n]].slice == req && p[xs[n]] == w then 1 else 0
  {}

  lemma PicksStep(workers: map<NodeId, WorkerInfo>, cycles: Cycles, g: Graph, xs: seq<StageId>, p: map<StageId, NodeId>,
                  req: Requirement)
    requires xs != [] && (forall s :: s in xs ==> s in g.stages)
    requires Follows(xs, p, AnswersOf(workers, cycles, Slices(g, xs)))
    ensures var n := |xs| - 1; var picks := PicksOf(workers, cycles, Slices(g, xs[..n]), req);
      && xs[n] in p
      && PicksOf(workers, cycles, Slices(g, xs), req)
         == if g.stages[xs[n]].slice == req then picks + [p[xs[n]]] else picks
  {
    FollowsPrefix(workers, cycles, g, xs, p);
    hide Serve, CyclesAfter, AnswersOf, Follows;
    var n, reqs := |xs| - 1, Slices(g, xs);
    assert reqs[..n] == Slices(g, xs[..n]) && reqs[n] == g.stages[xs[n]].slice;
    var picks := PicksOf(workers, cycles, reqs[..n], req);
    assert picks + [] == picks;
  }

  lemma CountGrows(xs: seq<NodeId>, x: NodeId, w: NodeId)
    ensures CountIn(xs + [x], w) == CountIn(xs, w) + if x == w then 1 else 0
  {
    assert (xs + [x])[..|xs|] == xs;
  }

  lemma FollowsPrefix(workers: map<NodeId, WorkerInfo>, cycles: Cycles, g: Graph, xs: seq<StageId>,
          p: map<StageId, NodeId>)
    requires xs != [] && (forall s :: s in xs ==> s in g.stages)
    requires Follows(xs, p, AnswersOf(workers, cycles, Slices(g, xs)))
    ensures Follows(xs[..|xs|-1], p, AnswersOf(workers, cycles, Slices(g, xs[..|xs|-1])))
    ensures var n := |xs| - 1;
      xs[n] in p
      && Serve(workers, CyclesAfter(workers, cycles, Slices(g, xs[..n])), g.stages[xs[n]].slice).1 == Some(p[xs[n]])
  {
    hide Serve;
    var n, reqs := |xs| - 1, Slices(g, xs);
    assert reqs[..n] == Slices(g, xs[..n]) && reqs[n] == g.stages[xs[n]].slice;
    var answers := AnswersOf(workers, cycles, reqs);
    assert answers[n] == Some(p[xs[n]]);
    assert forall i :: 0 <= i < n ==> AnswersOf(workers, cycles, reqs[..n])[i] == answers[i];
  }

  // In one placement the stages of a slice are shared evenly among its m eligible workers.
  lemma PlacementFair(workers: map<NodeId, WorkerInfo>, cycles: Cycles, g: Graph, order: seq<StageId>,
                      p: map<StageId, NodeId>, req: Requirement, w: NodeId)
    requires CyclesValid(workers, cycles) && Eligible(workers, req, w) && forall s :: s in order ==> s in g.stages
    requires Follows(order, p, AnswersOf(workers, cycles, Slices(g, order)))
    ensures forall s :: s in order ==> s in p
    ensures Even(Share(g, order, p, req, w), Asked(Slices(g, order), req), |EligibleList(workers, req)|)
  {
    ShareIsPicks(workers, cycles, g, order, p, req, w);
    hide CyclesValid, Eligible, Follows, PicksOf, Asked, Share, CountIn, EligibleList, Slices, Even;
    var reqs := Slices(g, order);
    RunFair(workers, cycles, reqs, req, 0, Asked(reqs, req), w);
    TakeAll(PicksOf(workers, cycles, reqs, req));
  }
}
