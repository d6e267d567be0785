// Deadlock freedom and completion: what it takes for a pipeline to be delivered.
module ExecutionProgress {
  import opened Sequences
  import opened Graphs
  import opened Topologies
  import opened Execution
  import opened ExecutionSafety

  // ---------------------------------------------------------------- deadlock freedom

  // Some unfinished stage has no unfinished predecessor.
  lemma NextStage(g: Graph, completed: set<StageId>) returns (v: StageId)
    requires WellFormed(g) && Acyclic(g.edges) && !(ToSet(g.ids) <= completed)
    ensures v in g.ids && v !in completed && AllIn(Preds(g.edges, v), completed)
  {
    var todo := ToSet(g.ids) - completed;
    if Graphs.Fed(g.edges, todo) {
      var u :| u in ToSet(g.ids) && u !in completed;
      assert u in todo;
      FedSetHasCycle(g.edges, todo);
      assert false;
    }
    v :| v in todo && !FedFrom(g.edges, todo, v);
    forall p | p in Preds(g.edges, v) ensures p in completed {
      Adjacent(g.edges, p, v);
      var e :| e in g.edges && e.source == p && e.target == v;
      assert p in g.ids;
      assert p !in todo;
    }
  }

  // An active unfinished pipeline has a stage that was sent and has not reported,
  // unless a skipped stage was never sent.
  lemma NoDeadlock(r: Run) returns (v: StageId)
    requires RunInv(r) && r.skipped <= r.dispatched && r.completed != r.All()
    ensures v in r.dispatched && v !in r.completed
  {
    v := NextStage(r.g, r.completed);
  }

  // Outside proceed mode there is no exception.
  lemma NeverDeadlocked(cfg: Config, evs: seq<Event>, pid: PipelineId) returns (v: StageId)
    requires HonestRun(cfg, Initial(), evs) && cfg.mode != Proceed
    requires pid in ApplyAll(cfg, Initial(), evs).active && ApplyAll(cfg, Initial(), evs).active[pid].g.ids != []
    ensures var r := ApplyAll(cfg, Initial(), evs).active[pid]; v in r.dispatched && v !in r.completed
  {
    RunsKeep(cfg, Initial(), evs);
    NeverSkips(cfg, evs);
    var r := ApplyAll(cfg, Initial(), evs).active[pid];
    assert r.g.ids[0] in r.All();
    v := NoDeadlock(r);
  }

  // ---------------------------------------------------------------- undisturbed runs

  ghost predicate Hosted(sys: System, pid: PipelineId) {
    pid in sys.active ==> sys.active[pid].placement.Values <= sys.workers
  }

  // No stage of pid fails, is re-placed or loses its worker.
  ghost predicate Calm(sys: System, ev: Event, pid: PipelineId) {
    match ev
    case StageResult(q, _, success, _) => q == pid ==> success
    case SendFails(q) => q != pid
    case Replaced(q, _, _) => q != pid
    case Deregister(node) => pid in sys.active ==> node !in sys.active[pid].placement.Values
    case _ => true
  }

  ghost predicate CalmRun(cfg: Config, sys: System, evs: seq<Event>, pid: PipelineId) {
    evs == [] || (CalmRun(cfg, sys, evs[..|evs|-1], pid) && Calm(ApplyAll(cfg, sys, evs[..|evs|-1]), evs[|evs|-1], pid))
  }

  // The stages a run reports done for pid.
  function Reported(evs: seq<Event>, pid: PipelineId): set<StageId> {
    if evs == [] then {}
    else
      var ev := evs[|evs|-1];
      Reported(evs[..|evs|-1], pid) + if ev.StageResult? && ev.pid == pid then {ev.stage} else {}
  }

  // pid is active with exactly the stages done completed, or delivered.
  ghost predicate Tracked(sys: System, pid: PipelineId, g: Graph, done: set<StageId>) {
    && Hosted(sys, pid) && pid in sys.issued
    && (pid in sys.active ==> sys.active[pid].g == g && sys.active[pid].completed == done && done != ToSet(g.ids))
    && (pid !in sys.active ==> pid in sys.delivered && ToSet(g.ids) <= done)
  }

  // A successful result while every placed worker is registered.
  lemma HostedResult(cfg: Config, sys: System, pid: PipelineId, stage: StageId, now: real)
    requires SystemInv(sys) && pid in sys.active && Hosted(sys, pid) && stage in sys.active[pid].dispatched
    ensures var r, after := sys.active[pid], AfterResult(cfg, sys, pid, stage, true, now);
      && after.workers == sys.workers && sys.issued == after.issued
      && (r.completed + {stage} == r.All() ==> pid in after.delivered && pid !in after.active)
      && (r.completed + {stage} != r.All() ==> pid in after.active && after.active[pid].g == r.g
                                               && after.active[pid].placement == r.placement
                                               && after.active[pid].completed == r.completed + {stage}
                                               && after.active[pid].skipped == r.skipped
                                               && r.dispatched <= after.active[pid].dispatched)
  {
    hide DispatchReady, Acyclic, FrontierSent, SentSupplied;
    var r := sys.active[pid];
    assert RunInv(r);
    CompletedGrows(r, stage);
    DispatchKeeps(cfg, sys.workers, now, r.(completed := r.completed + {stage}));
  }

  lemma CalmStep(cfg: Config, sys: System, ev: Event, pid: PipelineId, g: Graph, done: set<StageId>)
    requires SystemInv(sys) && Honest(sys, ev) && Calm(sys, ev, pid) && Tracked(sys, pid, g, done)
    ensures Tracked(Apply(cfg, sys, ev), pid, g, done + Reported([ev], pid))
  {
    hide DispatchReady, RunInv;
    assert [ev][..0] == [];
    if ev.StageResult? && ev.pid == pid && pid in sys.active {
      HostedResult(cfg, sys, pid, ev.stage, ev.now);
    }
  }

  lemma {:induction false} CalmKeeps(cfg: Config, sys: System, evs: seq<Event>, pid: PipelineId, g: Graph,
          done: set<StageId>)
    requires SystemInv(sys) && HonestRun(cfg, sys, evs) && CalmRun(cfg, sys, evs, pid) && Tracked(sys, pid, g, done)
    ensures Tracked(ApplyAll(cfg, sys, evs), pid, g, done + Reported(evs, pid))
  {
    if evs != [] {
      var n := |evs| - 1;
      CalmKeeps(cfg, sys, evs[..n], pid, g, done);
      RunsKeep(cfg, sys, evs[..n]);
      CalmStep(cfg, ApplyAll(cfg, sys, evs[..n]), evs[n], pid, g, done + Reported(evs[..n], pid));
      assert [evs[n]][..0] == [];
      assert done + Reported(evs[..n], pid) + Reported([evs[n]], pid) == done + Reported(evs, pid);
    }
  }

  // An undisturbed pipeline is delivered exactly when every stage has been reported:
  // not before its last distinct result, and at once with it.
  lemma DeliveredExactly(cfg: Config, sys: System, evs: seq<Event>, pid: PipelineId)
    requires SystemInv(sys) && HonestRun(cfg, sys, evs) && CalmRun(cfg, sys, evs, pid)
    requires pid in sys.active && Hosted(sys, pid) && sys.active[pid].g.ids != []
    ensures var r, end := sys.active[pid], ApplyAll(cfg, sys, evs);
      && (pid in end.delivered <==> r.All() <= r.completed + Reported(evs, pid))
      && (pid in end.active <==> pid !in end.delivered)
      && (pid in end.active ==> end.active[pid].completed == r.completed + Reported(evs, pid)
                                && |r.completed + Reported(evs, pid)| < |r.g.ids|)
  {
    hide Acyclic, FrontierSent, SentSupplied;
    var r, end := sys.active[pid], ApplyAll(cfg, sys, evs);
    assert RunInv(r) && r.g.ids[0] in r.All();
    CalmKeeps(cfg, sys, evs, pid, r.g, r.completed);
    RunsKeep(cfg, sys, evs);
    if pid in end.active {
      var done := end.active[pid].completed;
      assert RunInv(end.active[pid]);
      ProperSize(done, r.All());
      DistinctSize(r.g.ids);
    }
  }

  lemma {:induction false} ProperSize<T>(a: set<T>, b: set<T>)
    requires a < b
    ensures |a| < |b|
  {
    var x :| x in b && x !in a;
    assert b == (b - {x}) + {x};
    if a != {} {
      var y :| y in a;
      ProperSize(a - {y}, b - {y});
    }
  }

  // ---------------------------------------------------------------- can it still finish?

  ghost predicate CanFinish(cfg: Config, sys: System, pid: PipelineId) {
    exists evs :: HonestRun(cfg, sys, evs) && pid in ApplyAll(cfg, sys, evs).delivered
  }

  lemma AppendEvent(cfg: Config, sys: System, evs: seq<Event>, ev: Event)
    requires HonestRun(cfg, sys, evs) && Honest(ApplyAll(cfg, sys, evs), ev)
    ensures HonestRun(cfg, sys, evs + [ev]) && ApplyAll(cfg, sys, evs + [ev]) == Apply(cfg, ApplyAll(cfg, sys, evs), ev)
  {
    assert (evs + [ev])[..|evs|] == evs;
  }

  // Registering the placed workers disturbs no pipeline.
  lemma {:induction false} RegisterAll(cfg: Config, sys: System, nodes: set<NodeId>) returns (evs: seq<Event>)
    ensures HonestRun(cfg, sys, evs) && ApplyAll(cfg, sys, evs) == sys.(workers := sys.workers + nodes)
    decreases nodes
  {
    if nodes == {} {
      evs := [];
      assert sys.workers + nodes == sys.workers;
    } else {
      var n :| n in nodes;
      var rest := RegisterAll(cfg, sys, nodes - {n});
      evs := rest + [Register(n)];
      AppendEvent(cfg, sys, rest, Register(n));
      assert sys.workers + (nodes - {n}) + {n} == sys.workers + nodes;
    }
  }

  ghost predicate Hopeful(sys: System, pid: PipelineId) {
    && pid in sys.active
    && Hosted(sys, pid)
    && sys.active[pid].skipped <= sys.active[pid].dispatched
    && sys.active[pid].g.ids != []
  }

  function Left(sys: System, pid: PipelineId): set<StageId> {
    if pid in sys.active then sys.active[pid].All() - sys.active[pid].completed else {}
  }

  // With its workers registered, one more result brings the pipeline closer to delivery.
  lemma Advance(cfg: Config, sys: System, pid: PipelineId) returns (ev: Event)
    requires SystemInv(sys) && Hopeful(sys, pid)
    ensures Honest(sys, ev)
    ensures var after := Apply(cfg, sys, ev);
      pid in after.delivered || (Hopeful(after, pid) && Left(after, pid) < Left(sys, pid))
  {
    hide DispatchReady, Acyclic, FrontierSent, SentSupplied;
    var r := sys.active[pid];
    assert RunInv(r) && r.g.ids[0] in r.All();
    var v := NoDeadlock(r);
    ev := StageResult(pid, v, true, 0.0);
    HostedResult(cfg, sys, pid, v, 0.0);
  }

  lemma {:induction false} Finish(cfg: Config, sys: System, evs: seq<Event>, pid: PipelineId) returns (all: seq<Event>)
    requires SystemInv(sys) && HonestRun(cfg, sys, evs) && Hopeful(ApplyAll(cfg, sys, evs), pid)
    ensures HonestRun(cfg, sys, all) && pid in ApplyAll(cfg, sys, all).delivered
    decreases Left(ApplyAll(cfg, sys, evs), pid)
  {
    var now := ApplyAll(cfg, sys, evs);
    RunsKeep(cfg, sys, evs);
    var ev := Advance(cfg, now, pid);
    AppendEvent(cfg, sys, evs, ev);
    all := evs + [ev];
    if pid !in ApplyAll(cfg, sys, all).delivered {
      all := Finish(cfg, sys, all, pid);
    }
  }

  // A skipped stage that was never sent, or no stage at all.
  ghost predicate Hopeless(r: Run) {
    !(r.skipped <= r.dispatched) || r.g.ids == []
  }

  ghost predicate NeverDelivers(sys: System, pid: PipelineId) {
    pid in sys.issued && pid !in sys.delivered && (pid in sys.active ==> Hopeless(sys.active[pid]))
  }

  lemma HopelessDispatch(cfg: Config, workers: set<NodeId>, now: real, r: Run)
    requires Bookkeeping(r) && Hopeless(r)
    ensures DispatchReady(cfg, workers, now, r).failed || Hopeless(DispatchReady(cfg, workers, now, r))
  {
    hide DispatchReady, Acyclic, FrontierSent, SentSupplied;
    DispatchKeeps(cfg, workers, now, r);
    var after := DispatchReady(cfg, workers, now, r);
    if !(r.skipped <= r.dispatched) && !after.failed {
      var v :| v in r.skipped && v !in r.dispatched;
      assert v in after.skipped && v !in after.dispatched;
    }
  }

  lemma HopelessStep(cfg: Config, sys: System, ev: Event, pid: PipelineId)
    requires SystemInv(sys) && Honest(sys, ev) && NeverDelivers(sys, pid)
    ensures NeverDelivers(Apply(cfg, sys, ev), pid)
  {
    hide DispatchReady, Acyclic, FrontierSent, SentSupplied;
    if pid in sys.active {
      var r := sys.active[pid];
      assert RunInv(r);
      match ev
      case StageResult(q, stage, success, now) =>
        if q == pid && success {
          CompletedGrows(r, stage);
          HopelessDispatch(cfg, sys.workers, now, r.(completed := r.completed + {stage}));
          HopelessUnfinished(r, stage);
        }
      case Replaced(q, moved, now) =>
        if q == pid {
          ReplacedBook(r, moved);
          HopelessDispatch(cfg, sys.workers, now, r.(placement := r.placement + moved));
        }
      case _ =>
    }
  }

  lemma HopelessUnfinished(r: Run, stage: StageId)
    requires RunInv(r) && Hopeless(r) && stage in r.dispatched
    ensures r.completed + {stage} != r.All()
  {
    hide Acyclic, FrontierSent, SentSupplied;
    if !(r.skipped <= r.dispatched) {
      var v :| v in r.skipped && v !in r.dispatched;
      assert v in r.All() && v !in r.completed;
    }
  }

  lemma {:induction false} HopelessRun(cfg: Config, sys: System, evs: seq<Event>, pid: PipelineId)
    requires SystemInv(sys) && HonestRun(cfg, sys, evs) && NeverDelivers(sys, pid)
    ensures NeverDelivers(ApplyAll(cfg, sys, evs), pid)
  {
    if evs != [] {
      HopelessRun(cfg, sys, evs[..|evs|-1], pid);
      RunsKeep(cfg, sys, evs[..|evs|-1]);
      HopelessStep(cfg, ApplyAll(cfg, sys, evs[..|evs|-1]), evs[|evs|-1], pid);
    }
  }

  // An active pipeline can still be delivered exactly when it has stages and each of its
  // skipped stages was sent before it was skipped.
  lemma FinishableExactly(cfg: Config, sys: System, pid: PipelineId)
    requires SystemInv(sys) && pid in sys.active
    ensures CanFinish(cfg, sys, pid)
      <==> sys.active[pid].skipped <= sys.active[pid].dispatched && sys.active[pid].g.ids != []
  {
    hide Apply, RunInv;
    if sys.active[pid].skipped <= sys.active[pid].dispatched && sys.active[pid].g.ids != [] {
      var evs := RegisterAll(cfg, sys, sys.active[pid].placement.Values);
      assert Hopeful(ApplyAll(cfg, sys, evs), pid);
      var all := Finish(cfg, sys, evs, pid);
    } else {
      forall evs | HonestRun(cfg, sys, evs) ensures pid !in ApplyAll(cfg, sys, evs).delivered {
        HopelessRun(cfg, sys, evs, pid);
      }
    }
  }
}
