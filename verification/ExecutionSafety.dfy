// What every run of the broker keeps: the frontier invariant.
module ExecutionSafety {
  import opened Wrappers
  import opened Sequences
  import opened Graphs
  import opened Topologies
  import opened Feasibility
  import opened Execution

  // ---------------------------------------------------------------- the invariant

  ghost predicate GraphReady(r: Run) {
    WellFormed(r.g) && Acyclic(r.g.edges) && forall s :: s in r.g.ids ==> s in r.placement
  }

  // Every stage that may run was sent or skipped.
  ghost predicate FrontierSent(r: Run) {
    forall v :: v in r.g.ids && AllIn(Preds(r.g.edges, v), r.completed) ==> v in r.dispatched || v in r.skipped
  }

  ghost predicate SentSupplied(r: Run) {
    forall v :: v in r.dispatched ==> Supplied(r, v)
  }

  // Completed, dispatched and skipped stages; holds while a result is being handled too.
  ghost predicate Bookkeeping(r: Run) {
    && GraphReady(r) && !r.failed
    && r.completed <= r.dispatched <= r.All()
    && r.skipped <= r.All()
    && SentSupplied(r)
    && (r.partial <==> r.skipped != {})
  }

  ghost predicate RunInv(r: Run) {
    Bookkeeping(r) && FrontierSent(r) && (r.completed == r.All() ==> r.All() == {})
  }

  ghost predicate SystemInv(sys: System) {
    && (forall pid :: pid in sys.active ==> RunInv(sys.active[pid]))
    && sys.active.Keys <= sys.issued && sys.delivered <= sys.issued
    && sys.active.Keys !! sys.delivered
  }

  // ---------------------------------------------------------------- one dispatch

  // Dispatching only adds stages that were never sent, and restores the frontier.
  lemma DispatchKeeps(cfg: Config, workers: set<NodeId>, now: real, r: Run)
    requires Bookkeeping(r)
    ensures var after := DispatchReady(cfg, workers, now, r);
      && SameSetting(r, after)
      && (!after.failed ==> Bookkeeping(after) && FrontierSent(after) && r.dispatched <= after.dispatched)
      && (!after.failed ==> (r.skipped - r.dispatched) !! after.dispatched)
      && (cfg.mode != Proceed ==> after.skipped == r.skipped)
      && (DeadWorkers(r, workers) == {} ==> !after.failed && after.skipped == r.skipped)
  {
    hide ScanStages, Acyclic;
    var sc := ScanStages(cfg, DeadWorkers(r, workers), now, r, r.g.ids);
    ScanMeaning(cfg, DeadWorkers(r, workers), now, r, r.g.ids);
    var after := DispatchReady(cfg, workers, now, r);
    SourcesKnown(r.g);
    if !after.failed {
      forall v | v in after.dispatched ensures Supplied(after, v) {
        if v in r.dispatched { SuppliedGrows(r, after, v); } else { assert Supplied(sc.run, v); }
      }
      forall v | v in r.g.ids && AllIn(Preds(r.g.edges, v), r.completed)
        ensures v in after.dispatched || v in after.skipped
      {}
    }
  }

  ghost predicate SameSetting(a: Run, b: Run) {
    a.g == b.g && a.placement == b.placement && a.completed == b.completed && a.skipped <= b.skipped
  }

  lemma SuppliedGrows(r: Run, after: Run, v: StageId)
    requires Supplied(r, v) && r.g == after.g && r.completed <= after.completed && r.skipped <= after.skipped
    ensures Supplied(after, v)
  {
    if !AllIn(Preds(r.g.edges, v), r.completed) {
      var p :| p in Preds(r.g.edges, v) && p in r.skipped;
      assert p in after.skipped;
    }
  }

  lemma SourcesKnown(g: Graph)
    requires WellFormed(g)
    ensures SourcesOf(g.edges) <= ToSet(g.ids)
  {}

  // The stages a dispatch sends are the ones it marks; they were not marked, completed or
  // skipped before, and each is sent once.
  lemma MarkedOnce(cfg: Config, workers: set<NodeId>, now: real, r: Run)
    requires Distinct(r.g.ids)
    ensures var sends := ReadyToSend(cfg, workers, now, r);
      && Distinct(sends) && (forall v :: v in sends ==> v !in r.dispatched && v !in r.completed && v !in r.skipped)
      && (!r.failed ==> DispatchReady(cfg, workers, now, r).dispatched == r.dispatched + ToSet(sends))
  {
    hide ScanStages;
    ScanMeaning(cfg, DeadWorkers(r, workers), now, r, r.g.ids);
  }

  // ---------------------------------------------------------------- when the funnel policy fails a pipeline

  // An open fan-in that misses an input from a dead worker.
  ghost predicate Starved(r: Run, dead: set<NodeId>, v: StageId) {
    Open(r, v) && !AllIn(Preds(r.g.edges, v), r.completed) && |Preds(r.g.edges, v)| > 1 && DeadPreds(r, dead, v) != {}
  }

  function WaitingSince(r: Run, now: real): real {
    if r.waitStart.Some? then r.waitStart.value else now
  }

  // The verdict on any missing input, at one moment.
  predicate Fatal(cfg: Config, r: Run, now: real) {
    cfg.mode == Abort || (cfg.mode == Wait && now - WaitingSince(r, now) >= cfg.timeout)
  }

  // What a scan outside proceed mode leaves: nothing skipped, the wait started by the first
  // starved fan-in, and one verdict for all of them.
  ghost predicate ScanVerdict(cfg: Config, dead: set<NodeId>, now: real, r: Run, ids: seq<StageId>, sc: Scan) {
    && SameButFunnel(r, sc.run) && sc.run.skipped == r.skipped
    && (sc.result.Some? <==> exists v :: v in ids && Starved(r, dead, v))
    && (sc.result.Some? ==> sc.result.value.failed == Fatal(cfg, r, now))
    && sc.run.waitStart == if sc.result.Some? then Some(WaitingSince(r, now)) else r.waitStart
  }

  lemma VerdictStep(cfg: Config, dead: set<NodeId>, now: real, r: Run, ids: seq<StageId>, sc: Scan, v: StageId)
    requires cfg.mode != Proceed && ScanVerdict(cfg, dead, now, r, ids, sc)
    ensures ScanVerdict(cfg, dead, now, r, ids + [v], ScanStage(cfg, dead, now, sc, v))
  {
    assert DeadPreds(sc.run, dead, v) == DeadPreds(r, dead, v);
    assert forall u :: u in ids + [v] <==> u in ids || u == v;
    if Starved(r, dead, v) {
      ConsultMeaning(cfg, now, sc, v, DeadPreds(r, dead, v));
      MissingInputs(r, dead, v);
    }
  }

  lemma MissingInputs(r: Run, dead: set<NodeId>, v: StageId)
    requires DeadPreds(r, dead, v) != {}
    ensures var preds := ToSet(Preds(r.g.edges, v)); !(r.completed * preds >= preds)
  {
    var p :| p in DeadPreds(r, dead, v);
    assert p in ToSet(Preds(r.g.edges, v));
  }

  lemma {:induction false} ScanJudges(cfg: Config, dead: set<NodeId>, now: real, r: Run, ids: seq<StageId>)
    requires cfg.mode != Proceed
    ensures ScanVerdict(cfg, dead, now, r, ids, ScanStages(cfg, dead, now, r, ids))
  {
    if ids != [] {
      hide ScanVerdict, ScanStage;
      var n := |ids| - 1;
      ScanJudges(cfg, dead, now, r, ids[..n]);
      VerdictStep(cfg, dead, now, r, ids[..n], ScanStages(cfg, dead, now, r, ids[..n]), ids[n]);
      assert ids == ids[..n] + [ids[n]];
    }
  }

  lemma {:induction false} ProceedNeverFails(cfg: Config, dead: set<NodeId>, now: real, r: Run, ids: seq<StageId>)
    requires cfg.mode == Proceed
    ensures var sc := ScanStages(cfg, dead, now, r, ids); sc.result.Some? ==> !sc.result.value.failed
  {
    if ids != [] {
      hide Consult;
      var n := |ids| - 1;
      ProceedNeverFails(cfg, dead, now, r, ids[..n]);
      var sc := ScanStages(cfg, dead, now, r, ids[..n]);
      if DeadPreds(sc.run, dead, ids[n]) != {} {
        ConsultMeaning(cfg, now, sc, ids[n], DeadPreds(sc.run, dead, ids[n]));
      }
    }
  }

  // A dispatch fails the pipeline exactly when some open fan-in misses an input from a dead
  // worker and the mode is abort, or wait with the wait over. Proceed mode never fails it.
  lemma DispatchFailsExactly(cfg: Config, workers: set<NodeId>, now: real, r: Run)
    requires !r.failed
    ensures DispatchReady(cfg, workers, now, r).failed <==>
      Fatal(cfg, r, now) && exists v :: v in r.g.ids && Starved(r, DeadWorkers(r, workers), v)
  {
    hide ScanStages, Starved, DeadWorkers;
    ScanSetting(cfg, DeadWorkers(r, workers), now, r, r.g.ids);
    if cfg.mode == Proceed {
      ProceedNeverFails(cfg, DeadWorkers(r, workers), now, r, r.g.ids);
    } else {
      ScanJudges(cfg, DeadWorkers(r, workers), now, r, r.g.ids);
    }
  }

  // ---------------------------------------------------------------- every run

  lemma CompletedGrows(r: Run, s: StageId)
    requires RunInv(r) && s in r.dispatched
    ensures Bookkeeping(r.(completed := r.completed + {s}))
  {
    hide Acyclic;
    var after := r.(completed := r.completed + {s});
    forall v | v in after.dispatched ensures Supplied(after, v) { SuppliedGrows(r, after, v); }
  }

  lemma StoreKeeps(sys: System, pid: PipelineId, r: Run)
    requires SystemInv(sys) && pid in sys.issued && pid !in sys.delivered && (r.failed || RunInv(r))
    ensures SystemInv(Store(sys, pid, r))
  {
    hide RunInv;
  }

  lemma DropKeeps(sys: System, pid: PipelineId)
    requires SystemInv(sys)
    ensures SystemInv(Drop(sys, pid))
  {
    hide RunInv;
  }

  lemma StepKeeps(cfg: Config, sys: System, ev: Event)
    requires SystemInv(sys) && Honest(sys, ev)
    ensures SystemInv(Apply(cfg, sys, ev))
  {
    hide DispatchReady, Acyclic, RunInv;
    match ev
    case Publish(pid, g, placement, now) =>
      PublishKeeps(cfg, sys, pid, g, placement, now);
    case StageResult(pid, stage, success, now) =>
      DropKeeps(sys, pid);
      if pid in sys.active && success { ResultKeeps(cfg, sys, pid, stage, now); }
    case SendStarts(pid, stage) => DropKeeps(sys, pid);
    case SendFails(pid) => DropKeeps(sys, pid);
    case Replaced(pid, moved, now) =>
      if pid in sys.active { ReplacedKeeps(cfg, sys, pid, moved, now); }
    case Register(node) =>
    case Deregister(node) =>
  }

  lemma PublishKeeps(cfg: Config, sys: System, pid: PipelineId, g: Graph, placement: Placement, now: real)
    requires SystemInv(sys) && Honest(sys, Publish(pid, g, placement, now))
    ensures SystemInv(AfterPublish(cfg, sys, pid, g, placement, now))
  {
    hide DispatchReady, Acyclic;
    var r := NewRun(g, placement);
    assert Bookkeeping(r);
    DispatchKeeps(cfg, sys.workers, now, r);
    StoreKeeps(sys.(issued := sys.issued + {pid}), pid, DispatchReady(cfg, sys.workers, now, r));
  }

  lemma ResultKeeps(cfg: Config, sys: System, pid: PipelineId, stage: StageId, now: real)
    requires SystemInv(sys) && pid in sys.active && stage in sys.active[pid].dispatched
    ensures SystemInv(AfterResult(cfg, sys, pid, stage, true, now))
  {
    hide DispatchReady, Acyclic, FrontierSent, Bookkeeping;
    var r := sys.active[pid].(completed := sys.active[pid].completed + {stage});
    CompletedGrows(sys.active[pid], stage);
    DropKeeps(sys, pid);
    if !r.failed && r.completed != r.All() {
      DispatchKeeps(cfg, sys.workers, now, r);
      StoreKeeps(sys, pid, DispatchReady(cfg, sys.workers, now, r));
    }
  }

  lemma ReplacedBook(before: Run, moved: Placement)
    requires Bookkeeping(before)
    ensures Bookkeeping(before.(placement := before.placement + moved))
  {
    hide Acyclic;
    var r := before.(placement := before.placement + moved);
    forall v | v in r.dispatched ensures Supplied(r, v) { SuppliedGrows(before, r, v); }
  }

  lemma ReplacedKeeps(cfg: Config, sys: System, pid: PipelineId, moved: Placement, now: real)
    requires SystemInv(sys) && pid in sys.active
    ensures SystemInv(AfterReplaced(cfg, sys, pid, moved, now))
  {
    hide DispatchReady, Acyclic, FrontierSent;
    var r := sys.active[pid].(placement := sys.active[pid].placement + moved);
    ReplacedBook(sys.active[pid], moved);
    DispatchKeeps(cfg, sys.workers, now, r);
    StoreKeeps(sys, pid, DispatchReady(cfg, sys.workers, now, r));
  }

  lemma {:induction false} RunsKeep(cfg: Config, sys: System, evs: seq<Event>)
    requires SystemInv(sys) && HonestRun(cfg, sys, evs)
    ensures SystemInv(ApplyAll(cfg, sys, evs))
  {
    if evs != [] {
      RunsKeep(cfg, sys, evs[..|evs|-1]);
      StepKeeps(cfg, ApplyAll(cfg, sys, evs[..|evs|-1]), evs[|evs|-1]);
    }
  }

  // ---------------------------------------------------------------- without the proceed branch

  ghost predicate NothingSkipped(sys: System) {
    forall pid :: pid in sys.active ==> sys.active[pid].skipped == {}
  }

  lemma SkipsOnlyInProceed(cfg: Config, sys: System, ev: Event)
    requires SystemInv(sys) && Honest(sys, ev) && NothingSkipped(sys) && cfg.mode != Proceed
    ensures NothingSkipped(Apply(cfg, sys, ev))
  {
    hide DispatchReady, Acyclic;
    match ev
    case Publish(pid, g, placement, now) =>
      var r := NewRun(g, placement);
      assert Bookkeeping(r);
      DispatchKeeps(cfg, sys.workers, now, r);
    case StageResult(pid, stage, success, now) =>
      if pid in sys.active && success {
        assert RunInv(sys.active[pid]);
        CompletedGrows(sys.active[pid], stage);
        DispatchKeeps(cfg, sys.workers, now, sys.active[pid].(completed := sys.active[pid].completed + {stage}));
      }
    case Replaced(pid, moved, now) =>
      if pid in sys.active {
        assert RunInv(sys.active[pid]);
        ReplacedBook(sys.active[pid], moved);
        DispatchKeeps(cfg, sys.workers, now, sys.active[pid].(placement := sys.active[pid].placement + moved));
      }
    case _ =>
  }

  lemma {:induction false} NeverSkips(cfg: Config, evs: seq<Event>)
    requires HonestRun(cfg, Initial(), evs) && cfg.mode != Proceed
    ensures NothingSkipped(ApplyAll(cfg, Initial(), evs))
  {
    if evs != [] {
      NeverSkips(cfg, evs[..|evs|-1]);
      RunsKeep(cfg, Initial(), evs[..|evs|-1]);
      SkipsOnlyInProceed(cfg, ApplyAll(cfg, Initial(), evs[..|evs|-1]), evs[|evs|-1]);
    }
  }

  // The stages whose predecessors have all completed.
  function Frontier(r: Run): set<StageId> {
    set v | v in r.g.ids && AllIn(Preds(r.g.edges, v), r.completed)
  }

  // In every run outside proceed mode, every active pipeline has sent exactly its
  // frontier, and every ancestor of a sent stage has completed.
  lemma FrontierExact(cfg: Config, evs: seq<Event>, pid: PipelineId)
    requires HonestRun(cfg, Initial(), evs) && cfg.mode != Proceed
    requires pid in ApplyAll(cfg, Initial(), evs).active
    ensures var r := ApplyAll(cfg, Initial(), evs).active[pid];
      && !r.failed && !r.partial && r.completed <= r.dispatched && r.dispatched == Frontier(r)
      && forall u, v :: v in r.dispatched && u != v && Reach(r.g.edges, u, v) ==> u in r.completed
  {
    RunsKeep(cfg, Initial(), evs);
    NeverSkips(cfg, evs);
    var r := ApplyAll(cfg, Initial(), evs).active[pid];
    SentIsFrontier(r);
    forall u, v | v in r.dispatched && u != v && Reach(r.g.edges, u, v) ensures u in r.completed {
      var p :| PathFromTo(r.g.edges, p, u, v);
      AncestorsComplete(r, p);
    }
  }

  lemma SentIsFrontier(r: Run)
    requires RunInv(r) && r.skipped == {}
    ensures r.dispatched == Frontier(r)
  {
    hide Acyclic;
    forall v | v in r.dispatched ensures v in Frontier(r) {
      assert Supplied(r, v);
      assert v in r.All();
    }
  }

  lemma {:induction false} AncestorsComplete(r: Run, p: seq<StageId>)
    requires RunInv(r) && r.skipped == {} && IsPath(r.g.edges, p) && |p| >= 2 && p[|p|-1] in r.dispatched
    ensures p[0] in r.completed
  {
    hide Acyclic;
    var n := |p| - 1;
    assert HasEdge(r.g.edges, p[n-1], p[n]);
    Adjacent(r.g.edges, p[n-1], p[n]);
    assert Supplied(r, p[n]);
    if n > 1 { AncestorsComplete(r, p[..n]); }
  }
}
