// The locality and spillover baselines: first-fit over a list of workers, in
// topological order, with the load booked so far.
module Heuristics {
  import opened Wrappers
  import opened Sequences
  import opened Graphs
  import opened Topologies
  import opened Feasibility
  import opened Greedy

  // ---------------------------------------------------------------- first fit

  datatype Booking = Booking(p: Placement, load: map<NodeId, real>)

  predicate HasRoom(stage: Stage, node: Unit, load: map<NodeId, real>) {
    node.Residual() - LoadEntry(load, node.nodeId) >= stage.demand - TOLERANCE
  }

  predicate Takes(pr: Problem, stage: Stage, load: map<NodeId, real>, node: Unit) {
    HasRoom(stage, node, load) && FitsAlone(stage, node, pr.gov)
  }

  function FirstTaking(pr: Problem, stage: Stage, load: map<NodeId, real>, workers: seq<Unit>): Option<Unit> {
    if workers == [] then None
    else if Takes(pr, stage, load, workers[0]) then Some(workers[0])
    else FirstTaking(pr, stage, load, workers[1..])
  }

  lemma {:induction false} FirstTakingMeaning(pr: Problem, stage: Stage, load: map<NodeId, real>, workers: seq<Unit>)
    ensures var r := FirstTaking(pr, stage, load, workers);
      && (r.None? <==> forall w :: w in workers ==> !Takes(pr, stage, load, w))
      && (r.Some? ==> r.value in workers && Takes(pr, stage, load, r.value))
  {
    if workers != [] { FirstTakingMeaning(pr, stage, load, workers[1..]); }
  }

  function Book(st: Booking, stage: Stage, node: Unit): Booking {
    Booking(st.p[stage.id := node.nodeId], st.load[node.nodeId := LoadEntry(st.load, node.nodeId) + stage.demand])
  }

  function BookFirst(pr: Problem, st: Booking, stage: Stage, workers: seq<Unit>): Result<Booking, StageId> {
    var w := FirstTaking(pr, stage, st.load, workers);
    if w.None? then Error(stage.id) else Ok(Book(st, stage, w.value))
  }

  // Every stage of the list on the first worker that takes it; the first stage none takes is an error.
  function FirstFit(pr: Problem, order: seq<StageId>, workers: seq<Unit>): Result<Booking, StageId>
    requires forall s :: s in order ==> s in pr.g.stages
  {
    if order == [] then Ok(Booking(map[], map[]))
    else
      var n := |order| - 1;
      var st := FirstFit(pr, order[..n], workers);
      if st.Error? then st else BookFirst(pr, st.value, pr.g.stages[order[n]], workers)
  }

  // ---------------------------------------------------------------- the two baselines

  datatype Failure = NoLocalWorkers | NoWorker(stage: StageId)

  function InDomain(nodes: seq<Unit>, domain: string): seq<Unit> {
    if nodes == [] then []
    else (if nodes[0].domain == domain then [nodes[0]] else []) + InDomain(nodes[1..], domain)
  }

  function OutsideOf(nodes: seq<Unit>, domain: string): seq<Unit> {
    if nodes == [] then []
    else (if nodes[0].domain != domain then [nodes[0]] else []) + OutsideOf(nodes[1..], domain)
  }

  lemma {:induction false} DomainsSplit(nodes: seq<Unit>, domain: string, w: Unit)
    ensures w in InDomain(nodes, domain) <==> w in nodes && w.domain == domain
    ensures w in OutsideOf(nodes, domain) <==> w in nodes && w.domain != domain
  {
    if nodes != [] { DomainsSplit(nodes[1..], domain, w); }
  }

  function Placed(r: Result<Booking, StageId>): Result<Placement, Failure> {
    if r.Ok? then Ok(r.value.p) else Error(NoWorker(r.error))
  }

  // What the two baselines answer.
  function LocalityAnswer(pr: Problem, order: seq<StageId>, localDomain: string): Result<Placement, Failure>
    requires forall s :: s in order ==> s in pr.g.stages
  {
    var local := InDomain(pr.t.nodes, localDomain);
    if local == [] then Error(NoLocalWorkers) else Placed(FirstFit(pr, order, local))
  }

  function SpilloverAnswer(pr: Problem, order: seq<StageId>, localDomain: string): Result<Placement, Failure>
    requires forall s :: s in order ==> s in pr.g.stages
  {
    Placed(FirstFit(pr, order, InDomain(pr.t.nodes, localDomain) + OutsideOf(pr.t.nodes, localDomain)))
  }

  // The inner "for worker in ..." loop with its break.
  method TryWorkers(pr: Problem, st: Booking, stage: Stage, workers: seq<Unit>) returns (placed: bool, after: Booking)
    ensures placed <==> FirstTaking(pr, stage, st.load, workers).Some?
    ensures after == if placed then Book(st, stage, FirstTaking(pr, stage, st.load, workers).value) else st
  {
    var i := 0;
    while i < |workers|
      invariant 0 <= i <= |workers|
      invariant FirstTaking(pr, stage, st.load, workers) == FirstTaking(pr, stage, st.load, workers[i..])
    {
      var worker := workers[i];
      var committed := LoadEntry(st.load, worker.nodeId);
      if worker.Residual() - committed >= stage.demand - TOLERANCE {
        if FitsAlone(stage, worker, pr.gov) {
          return true, Booking(st.p[stage.id := worker.nodeId], st.load[worker.nodeId := committed + stage.demand]);
        }
      }
      assert workers[i..][1..] == workers[i+1..];
      i := i + 1;
    }
    return false, st;
  }

  // locality_placement
  method LocalityPlacement(pr: Problem, order: seq<StageId>, localDomain: string)
    returns (r: Result<Placement, Failure>)
    requires ValidProblem(pr) && forall s :: s in order ==> s in pr.g.stages
    ensures r == LocalityAnswer(pr, order, localDomain)
  {
    var workers := InDomain(pr.t.nodes, localDomain);
    if |workers| == 0 {
      return Error(NoLocalWorkers);
    }
    var st := Booking(map[], map[]);
    var k := 0;
    assert order[..0] == [];
    while k < |order|
      invariant 0 <= k <= |order|
      invariant FirstFit(pr, order[..k], workers) == Ok(st)
    {
      assert order[..k+1][..k] == order[..k];
      var stage := pr.g.stages[order[k]];
      var placed, after := TryWorkers(pr, st, stage, workers);
      if !placed {
        StuckStays(pr, order, k, workers);
        return Error(NoWorker(stage.id));
      }
      st := after;
      k := k + 1;
    }
    TakeAll(order);
    return Ok(st.p);
  }

  // spillover_placement
  method SpilloverPlacement(pr: Problem, order: seq<StageId>, localDomain: string)
    returns (r: Result<Placement, Failure>)
    requires ValidProblem(pr) && forall s :: s in order ==> s in pr.g.stages
    ensures r == SpilloverAnswer(pr, order, localDomain)
  {
    var local, remote := InDomain(pr.t.nodes, localDomain), OutsideOf(pr.t.nodes, localDomain);
    var st := Booking(map[], map[]);
    var k := 0;
    assert order[..0] == [];
    while k < |order|
      invariant 0 <= k <= |order|
      invariant FirstFit(pr, order[..k], local + remote) == Ok(st)
    {
      assert order[..k+1][..k] == order[..k];
      var stage := pr.g.stages[order[k]];
      FirstOfTwo(pr, stage, st.load, local, remote);
      var placed, after := TryWorkers(pr, st, stage, local);
      if !placed {
        placed, after := TryWorkers(pr, st, stage, remote);
      }
      if !placed {
        StuckStays(pr, order, k, local + remote);
        return Error(NoWorker(stage.id));
      }
      st := after;
      k := k + 1;
    }
    TakeAll(order);
    return Ok(st.p);
  }

  // A stage no worker takes is the error of the whole pass.
  lemma {:induction false} StuckStays(pr: Problem, order: seq<StageId>, k: nat, workers: seq<Unit>)
    requires forall s :: s in order ==> s in pr.g.stages
    requires k < |order| && FirstFit(pr, order[..k+1], workers).Error?
    ensures FirstFit(pr, order, workers) == FirstFit(pr, order[..k+1], workers)
    decreases |order|
  {
    TakeAll(order);
    if k + 1 < |order| {
      var n := |order| - 1;
      assert order[..n][..k+1] == order[..k+1];
      StuckStays(pr, order[..n], k, workers);
    }
  }

  // Trying one list and then another is trying their concatenation.
  lemma {:induction false} FirstOfTwo(pr: Problem, stage: Stage, load: map<NodeId, real>, xs: seq<Unit>, ys: seq<Unit>)
    ensures FirstTaking(pr, stage, load, xs + ys)
      == if FirstTaking(pr, stage, load, xs).Some? then FirstTaking(pr, stage, load, xs)
         else FirstTaking(pr, stage, load, ys)
  {
    if xs == [] {
      assert xs + ys == ys;
    } else {
      FirstOfTwo(pr, stage, load, xs[1..], ys);
      assert (xs + ys)[1..] == xs[1..] + ys;
    }
  }

  // ---------------------------------------------------------------- spillover extends locality

  ghost predicate UsesOnly(p: Placement, workers: seq<Unit>) {
    forall s :: s in p ==> exists w :: w in workers && w.nodeId == p[s]
  }

  ghost predicate NoSharedId(xs: seq<Unit>, ys: seq<Unit>) {
    forall x, y :: x in xs && y in ys ==> x.nodeId != y.nodeId
  }

  // First fit over xs succeeds exactly when first fit over xs + ys succeeds without
  // using a worker of ys, and then both place the same.
  lemma {:induction false} FirstFitExtends(pr: Problem, order: seq<StageId>, xs: seq<Unit>, ys: seq<Unit>)
    requires WellFormed(pr.g) && Distinct(order) && forall s :: s in order ==> s in pr.g.stages
    requires NoSharedId(xs, ys)
    ensures var narrow, wide := FirstFit(pr, order, xs), FirstFit(pr, order, xs + ys);
      && (narrow.Ok? ==> wide == narrow && UsesOnly(narrow.value.p, xs))
      && (wide.Ok? && UsesOnly(wide.value.p, xs) ==> narrow == wide)
      && (wide.Ok? ==> wide.value.p.Keys == ToSet(order))
  {
    if order != [] {
      var n := |order| - 1;
      FirstFitExtends(pr, order[..n], xs, ys);
      TakeStepSet(order, n);
      TakeAll(order);
      var wide := FirstFit(pr, order[..n], xs + ys);
      if wide.Ok? {
        assert order[n] !in wide.value.p;
        BookExtends(pr, wide.value, pr.g.stages[order[n]], xs, ys);
      }
    }
  }

  lemma BookExtends(pr: Problem, st: Booking, stage: Stage, xs: seq<Unit>, ys: seq<Unit>)
    requires NoSharedId(xs, ys) && stage.id !in st.p
    ensures var narrow, wide := BookFirst(pr, st, stage, xs), BookFirst(pr, st, stage, xs + ys);
      && (narrow.Ok? ==> wide == narrow && (UsesOnly(st.p, xs) ==> UsesOnly(narrow.value.p, xs)))
      && (wide.Ok? && UsesOnly(wide.value.p, xs) ==> narrow == wide && UsesOnly(st.p, xs))
      && (wide.Ok? ==> wide.value.p.Keys == st.p.Keys + {stage.id})
  {
    FirstOfTwo(pr, stage, st.load, xs, ys);
    FirstTakingMeaning(pr, stage, st.load, xs);
    FirstTakingMeaning(pr, stage, st.load, ys);
    var wide := BookFirst(pr, st, stage, xs + ys);
    if wide.Ok? && UsesOnly(wide.value.p, xs) {
      assert stage.id in wide.value.p;
      forall s | s in st.p ensures exists w :: w in xs && w.nodeId == st.p[s] {
        assert s in wide.value.p && wide.value.p[s] == st.p[s];
      }
    }
  }

  // Spillover answers what locality answers, whenever locality answers; and locality
  // answers exactly when there are local workers and spillover uses no other.
  lemma SpilloverExtendsLocality(pr: Problem, order: seq<StageId>, localDomain: string)
    requires ValidProblem(pr) && IsTopoOrder(pr.g, order) && forall s :: s in order ==> s in pr.g.stages
    ensures var local, narrow, wide := InDomain(pr.t.nodes, localDomain),
                                       LocalityAnswer(pr, order, localDomain), SpilloverAnswer(pr, order, localDomain);
      && (narrow.Ok? ==> wide == narrow)
      && (narrow.Ok? <==> local != [] && wide.Ok? && UsesOnly(wide.value, local))
  {
    var xs, ys := InDomain(pr.t.nodes, localDomain), OutsideOf(pr.t.nodes, localDomain);
    forall x, y | x in xs && y in ys ensures x.nodeId != y.nodeId {
      DomainsSplit(pr.t.nodes, localDomain, x);
      DomainsSplit(pr.t.nodes, localDomain, y);
      KnownNode(pr.t, x);
      KnownNode(pr.t, y);
    }
    FirstFitExtends(pr, order, xs, ys);
  }

  // ---------------------------------------------------------------- what the checker says

  // st books exactly its own placement, within every constraint but the edges'.
  ghost predicate Sound(pr: Problem, st: Booking, workers: seq<Unit>)
    requires ValidProblem(pr)
  {
    && Assigns(pr, st.p)
    && (forall n :: LoadEntry(st.load, n) == NodeLoad(pr, st.p, n))
    && (forall s :: s in st.p ==> StageSound(pr, st.p, s, workers))
  }

  ghost predicate StageSound(pr: Problem, p: Placement, s: StageId, workers: seq<Unit>)
    requires Assigns(pr, p) && s in p
  {
    && GetNode(pr.t, p[s]) in workers
    && FitsAlone(StageOf(pr, s), GetNode(pr.t, p[s]), pr.gov)
    && NodeLoad(pr, p, p[s]) <= GetNode(pr.t, p[s]).Residual() + TOLERANCE
  }

  lemma BookSound(pr: Problem, st: Booking, s: StageId, node: Unit, workers: seq<Unit>)
    requires ValidProblem(pr) && Sound(pr, st, workers) && s in pr.g.stages && s !in st.p
    requires node in workers && node in pr.t.nodes && Takes(pr, pr.g.stages[s], st.load, node)
    ensures Sound(pr, Book(st, pr.g.stages[s], node), workers)
  {
    hide NodeLoad, FitsAlone;
    var after := Book(st, pr.g.stages[s], node);
    KnownNode(pr.t, node);
    assert after.p == st.p[s := node.nodeId];
    forall n ensures LoadEntry(after.load, n) == NodeLoad(pr, after.p, n) {
      LoadExtends(pr, st.p, s, node.nodeId, n);
      assert LoadEntry(st.load, n) == NodeLoad(pr, st.p, n);
    }
    forall u | u in after.p ensures StageSound(pr, after.p, u, workers) {
      LoadExtends(pr, st.p, s, node.nodeId, after.p[u]);
      assert LoadEntry(st.load, node.nodeId) == NodeLoad(pr, st.p, node.nodeId);
      if u != s { assert StageSound(pr, st.p, u, workers); }
    }
  }

  lemma {:induction false} FirstFitSound(pr: Problem, order: seq<StageId>, workers: seq<Unit>)
    requires ValidProblem(pr) && Distinct(order) && forall s :: s in order ==> s in pr.g.stages
    requires forall w :: w in workers ==> w in pr.t.nodes
    requires FirstFit(pr, order, workers).Ok?
    ensures var st := FirstFit(pr, order, workers).value; Sound(pr, st, workers) && st.p.Keys == ToSet(order)
  {
    if order == [] {
      forall n ensures NodeLoad(pr, map[], n) == 0.0 { SumZero(pr.g.ids, LoadOn(pr, map[], n)); }
    } else {
      hide Sound, Takes;
      var n := |order| - 1;
      FirstFitSound(pr, order[..n], workers);
      TakeStepSet(order, n);
      TakeAll(order);
      var st := FirstFit(pr, order[..n], workers).value;
      assert order[n] !in ToSet(order[..n]);
      FirstTakingMeaning(pr, pr.g.stages[order[n]], st.load, workers);
      BookSound(pr, st, order[n], FirstTaking(pr, pr.g.stages[order[n]], st.load, workers).value, workers);
    }
  }

  // The only constraints a first-fit placement can miss are the edges'.
  lemma FirstFitFaults(pr: Problem, order: seq<StageId>, workers: seq<Unit>)
    requires ValidProblem(pr) && IsTopoOrder(pr.g, order)
    requires (forall s :: s in order ==> s in pr.g.stages) && (forall w :: w in workers ==> w in pr.t.nodes)
    requires FirstFit(pr, order, workers).Ok?
    ensures var p := FirstFit(pr, order, workers).value.p;
      && Total(pr, p)
      && CapacityFeasible(pr, p) && SovereigntyFeasible(pr, p) && SliceFeasible(pr, p)
      && (Feasible(pr, p) <==> LatencyFeasible(pr, p) && TrustFeasible(pr, p))
  {
    hide NodeLoad;
    FirstFitSound(pr, order, workers);
    var p := FirstFit(pr, order, workers).value.p;
    assert forall s :: s in pr.g.stages ==> s in ToSet(order);
    assert forall s :: s in p ==> StageSound(pr, p, s, workers);
  }

  // Inside one domain trust holds too: a locality placement can only be too slow.
  lemma LocalityFaults(pr: Problem, order: seq<StageId>, localDomain: string)
    requires ValidProblem(pr) && IsTopoOrder(pr.g, order) && (forall s :: s in order ==> s in pr.g.stages)
    requires FirstFit(pr, order, InDomain(pr.t.nodes, localDomain)).Ok?
    ensures var p := FirstFit(pr, order, InDomain(pr.t.nodes, localDomain)).value.p;
      Total(pr, p) && TrustFeasible(pr, p) && (Feasible(pr, p) <==> LatencyFeasible(pr, p))
  {
    hide NodeLoad, LatencyFeasible, TrustHolds;
    var workers := InDomain(pr.t.nodes, localDomain);
    var p := FirstFit(pr, order, workers).value.p;
    forall w | w in workers ensures w in pr.t.nodes { DomainsSplit(pr.t.nodes, localDomain, w); }
    FirstFitFaults(pr, order, workers);
    forall e | e in pr.g.edges ensures BothPlaced(p, e) && TrustHolds(pr, p[e.source], p[e.target]) {
      LocalTrust(pr, order, localDomain, e);
    }
  }

  lemma LocalTrust(pr: Problem, order: seq<StageId>, localDomain: string, e: Edge)
    requires ValidProblem(pr) && IsTopoOrder(pr.g, order) && (forall s :: s in order ==> s in pr.g.stages)
    requires FirstFit(pr, order, InDomain(pr.t.nodes, localDomain)).Ok?
    requires var p := FirstFit(pr, order, InDomain(pr.t.nodes, localDomain)).value.p; Total(pr, p) && e in pr.g.edges
    ensures var p := FirstFit(pr, order, InDomain(pr.t.nodes, localDomain)).value.p;
      BothPlaced(p, e) && TrustHolds(pr, p[e.source], p[e.target])
  {
    var workers := InDomain(pr.t.nodes, localDomain);
    var p := FirstFit(pr, order, workers).value.p;
    forall w | w in workers ensures w in pr.t.nodes { DomainsSplit(pr.t.nodes, localDomain, w); }
    FirstFitSound(pr, order, workers);
    EndsPlaced(pr, p, e);
    assert StageSound(pr, p, e.source, workers) && StageSound(pr, p, e.target, workers);
    DomainsSplit(pr.t.nodes, localDomain, GetNode(pr.t, p[e.source]));
    DomainsSplit(pr.t.nodes, localDomain, GetNode(pr.t, p[e.target]));
  }
}
