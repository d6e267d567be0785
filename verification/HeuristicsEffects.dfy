// What the baselines do on raw capacities and loads: which worker takes a stage, and when
// they give up.
module HeuristicsEffects {
  import opened Wrappers
  import opened Sequences
  import opened Graphs
  import opened Topologies
  import opened Feasibility
  import opened PlacementEffects
  import opened Heuristics

  // The worker permits the stage and has room for it, alone and beside everything p puts there.
  ghost predicate MayHost(pr: Problem, p: Placement, stage: Stage, node: Unit) {
    && Permitted(stage, node)
    && stage.demand <= node.capacity - node.load + 0.000000001
    && NodeLoad(pr, p, node.nodeId) + stage.demand <= node.capacity - node.load + 0.000000001
  }

  lemma TakesExactly(pr: Problem, st: Booking, stage: Stage, node: Unit)
    requires LoadEntry(st.load, node.nodeId) == NodeLoad(pr, st.p, node.nodeId)
    ensures Takes(pr, stage, st.load, node) <==> MayHost(pr, st.p, stage, node)
  {
    FitsAloneExactly(stage, node, pr.gov);
    hide FitsAlone, Permitted, NodeLoad;
  }

  // The j-th worker is the first one that may host the stage.
  ghost predicate FirstHost(pr: Problem, p: Placement, stage: Stage, workers: seq<Unit>, j: nat) {
    && j < |workers| && MayHost(pr, p, stage, workers[j])
    && forall i :: 0 <= i < j ==> !MayHost(pr, p, stage, workers[i])
  }

  lemma {:induction false} FirstTaken(pr: Problem, stage: Stage, load: map<NodeId, real>, workers: seq<Unit>)
    returns (j: nat)
    requires FirstTaking(pr, stage, load, workers).Some?
    ensures j < |workers| && workers[j] == FirstTaking(pr, stage, load, workers).value
    ensures Takes(pr, stage, load, workers[j]) && forall i :: 0 <= i < j ==> !Takes(pr, stage, load, workers[i])
  {
    hide Takes;
    if Takes(pr, stage, load, workers[0]) {
      j := 0;
    } else {
      j := FirstTaken(pr, stage, load, workers[1..]);
      assert forall i :: 1 <= i < |workers| ==> workers[1..][i-1] == workers[i];
      j := j + 1;
    }
  }

  // One stage goes to the first worker that may host it, and is an error when none may.
  lemma BooksExactly(pr: Problem, st: Booking, stage: Stage, workers: seq<Unit>)
    requires forall n :: LoadEntry(st.load, n) == NodeLoad(pr, st.p, n)
    ensures var r := BookFirst(pr, st, stage, workers);
      && (r.Error? <==> forall w :: w in workers ==> !MayHost(pr, st.p, stage, w))
      && (r.Error? ==> r.error == stage.id)
      && (r.Ok? ==> exists j: nat ::
            FirstHost(pr, st.p, stage, workers, j) && r.value.p == st.p[stage.id := workers[j].nodeId])
  {
    FirstTakingMeaning(pr, stage, st.load, workers);
    hide Takes, MayHost, NodeLoad;
    forall w ensures Takes(pr, stage, st.load, w) <==> MayHost(pr, st.p, stage, w) { TakesExactly(pr, st, stage, w); }
    if FirstTaking(pr, stage, st.load, workers).Some? {
      var j := FirstTaken(pr, stage, st.load, workers);
      assert FirstHost(pr, st.p, stage, workers, j);
    }
  }

  // The stages before the k-th are placed, and no worker may host the k-th.
  ghost predicate GivesUpAt(pr: Problem, order: seq<StageId>, workers: seq<Unit>, k: nat)
    requires forall s :: s in order ==> s in pr.g.stages
  {
    && k < |order| && FirstFit(pr, order[..k], workers).Ok?
    && forall w :: w in workers ==>
         !MayHost(pr, FirstFit(pr, order[..k], workers).value.p, pr.g.stages[order[k]], w)
  }

  lemma LastGivesUp(pr: Problem, order: seq<StageId>, workers: seq<Unit>)
    requires ValidProblem(pr) && Distinct(order) && order != [] && forall s :: s in order ==> s in pr.g.stages
    requires forall w :: w in workers ==> w in pr.t.nodes
    ensures FirstFit(pr, order, workers).Error? <==>
      FirstFit(pr, order[..|order|-1], workers).Error? || GivesUpAt(pr, order, workers, |order| - 1)
  {
    var n := |order| - 1;
    if FirstFit(pr, order[..n], workers).Ok? {
      var st := FirstFit(pr, order[..n], workers).value;
      FirstFitSound(pr, order[..n], workers);
      assert forall m :: LoadEntry(st.load, m) == NodeLoad(pr, st.p, m);
      hide BookFirst, MayHost, ValidProblem, NodeLoad, Sound;
      BooksExactly(pr, st, pr.g.stages[order[n]], workers);
    }
  }

  lemma StillGivesUp(pr: Problem, order: seq<StageId>, workers: seq<Unit>, k: nat)
    requires order != [] && forall s :: s in order ==> s in pr.g.stages
    ensures GivesUpAt(pr, order[..|order|-1], workers, k) ==> GivesUpAt(pr, order, workers, k)
    ensures GivesUpAt(pr, order, workers, k) ==> GivesUpAt(pr, order[..|order|-1], workers, k) || k == |order| - 1
  {
    hide FirstFit, MayHost;
    if k < |order| - 1 { assert order[..|order|-1][..k] == order[..k]; }
  }

  // First fit gives up exactly at a stage that no worker may host.
  lemma {:induction false} GivesUpExactly(pr: Problem, order: seq<StageId>, workers: seq<Unit>)
    requires ValidProblem(pr) && Distinct(order) && forall s :: s in order ==> s in pr.g.stages
    requires forall w :: w in workers ==> w in pr.t.nodes
    ensures FirstFit(pr, order, workers).Error? <==> exists k: nat :: GivesUpAt(pr, order, workers, k)
  {
    if order != [] {
      var n := |order| - 1;
      GivesUpExactly(pr, order[..n], workers);
      LastGivesUp(pr, order, workers);
      hide FirstFit, GivesUpAt, ValidProblem, Distinct;
      if FirstFit(pr, order[..n], workers).Error? {
        var k: nat :| GivesUpAt(pr, order[..n], workers, k);
        StillGivesUp(pr, order, workers, k);
      } else if k: nat :| GivesUpAt(pr, order, workers, k) {
        StillGivesUp(pr, order, workers, k);
      }
    }
  }

  // The error names that stage.
  lemma {:induction false} ErrorNames(pr: Problem, order: seq<StageId>, workers: seq<Unit>) returns (k: nat)
    requires ValidProblem(pr) && Distinct(order) && forall s :: s in order ==> s in pr.g.stages
    requires (forall w :: w in workers ==> w in pr.t.nodes) && FirstFit(pr, order, workers).Error?
    ensures GivesUpAt(pr, order, workers, k) && FirstFit(pr, order, workers).error == order[k]
  {
    var n := |order| - 1;
    if FirstFit(pr, order[..n], workers).Error? {
      k := ErrorNames(pr, order[..n], workers);
      StillGivesUp(pr, order, workers, k);
      assert order[..n][k] == order[k];
    } else {
      k := n;
      LastGivesUp(pr, order, workers);
      StillOk(pr, order, workers);
      assert pr.g.stages[order[n]].id == order[n];
    }
    hide GivesUpAt, ValidProblem;
  }

  lemma StillOk(pr: Problem, order: seq<StageId>, workers: seq<Unit>)
    requires order != [] && (forall s :: s in order ==> s in pr.g.stages)
    requires FirstFit(pr, order[..|order|-1], workers).Ok? && FirstFit(pr, order, workers).Error?
    ensures FirstFit(pr, order, workers).error == pr.g.stages[order[|order|-1]].id
  {}

  // Locality tries the workers of the local domain only: it fails without any, and otherwise
  // exactly at a stage that none of them may host, which the error names.
  lemma LocalityExactly(pr: Problem, order: seq<StageId>, local: string)
    requires ValidProblem(pr) && Distinct(order) && forall s :: s in order ==> s in pr.g.stages
    ensures var r, workers := LocalityAnswer(pr, order, local), InDomain(pr.t.nodes, local);
      && (r == Error(NoLocalWorkers) <==> forall w :: w in pr.t.nodes ==> w.domain != local)
      && (r.Ok? ==> r.value == FirstFit(pr, order, workers).value.p
                    && forall k: nat :: !GivesUpAt(pr, order, workers, k))
      && (r.Error? && r.error.NoWorker? ==>
            exists k: nat :: GivesUpAt(pr, order, workers, k) && r.error.stage == order[k])
  {
    var workers := InDomain(pr.t.nodes, local);
    forall w ensures w in workers <==> w in pr.t.nodes && w.domain == local { DomainsSplit(pr.t.nodes, local, w); }
    if workers != [] { assert workers[0] in workers; }
    GivesUpExactly(pr, order, workers);
    hide FirstFit, ValidProblem, GivesUpAt, InDomain;
    if FirstFit(pr, order, workers).Error? { var k := ErrorNames(pr, order, workers); }
  }

  // Spillover tries them first and then all the others, and fails only at a stage that no
  // worker at all may host.
  lemma SpilloverExactly(pr: Problem, order: seq<StageId>, local: string)
    requires ValidProblem(pr) && Distinct(order) && forall s :: s in order ==> s in pr.g.stages
    ensures var r, workers := SpilloverAnswer(pr, order, local),
                              InDomain(pr.t.nodes, local) + OutsideOf(pr.t.nodes, local);
      && (forall w :: w in workers <==> w in pr.t.nodes)
      && (r.Ok? ==> r.value == FirstFit(pr, order, workers).value.p
                    && forall k: nat :: !GivesUpAt(pr, order, workers, k))
      && (r.Error? ==> exists k: nat :: GivesUpAt(pr, order, workers, k) && r.error == NoWorker(order[k]))
  {
    var workers := InDomain(pr.t.nodes, local) + OutsideOf(pr.t.nodes, local);
    forall w ensures w in workers <==> w in pr.t.nodes { DomainsSplit(pr.t.nodes, local, w); }
    GivesUpExactly(pr, order, workers);
    hide FirstFit, ValidProblem, GivesUpAt, InDomain, OutsideOf;
    if FirstFit(pr, order, workers).Error? { var k := ErrorNames(pr, order, workers); }
  }

  // The local workers come in the order of the topology, and so do the remote ones.
  lemma {:induction false} LocalsInOrder(xs: seq<Unit>, ys: seq<Unit>, domain: string)
    ensures InDomain(xs + ys, domain) == InDomain(xs, domain) + InDomain(ys, domain)
  {
    if xs == [] {
      assert xs + ys == ys;
    } else {
      LocalsInOrder(xs[1..], ys, domain);
      var first := if xs[0].domain == domain then [xs[0]] else [];
      assert (xs + ys)[1..] == xs[1..] + ys && (xs + ys)[0] == xs[0];
      Grouped(first, InDomain(xs[1..], domain), InDomain(ys, domain));
    }
  }

  lemma {:induction false} RemotesInOrder(xs: seq<Unit>, ys: seq<Unit>, domain: string)
    ensures OutsideOf(xs + ys, domain) == OutsideOf(xs, domain) + OutsideOf(ys, domain)
  {
    if xs == [] {
      assert xs + ys == ys;
    } else {
      RemotesInOrder(xs[1..], ys, domain);
      var first := if xs[0].domain != domain then [xs[0]] else [];
      assert (xs + ys)[1..] == xs[1..] + ys && (xs + ys)[0] == xs[0];
      Grouped(first, OutsideOf(xs[1..], domain), OutsideOf(ys, domain));
    }
  }

  lemma Grouped(xs: seq<Unit>, ys: seq<Unit>, zs: seq<Unit>)
    ensures (xs + ys) + zs == xs + (ys + zs)
  {}
}
