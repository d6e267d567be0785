// Pipeline execution as a state machine over values: which stages are ready, what the
// funnel policy decides, and what each broker event does to the active pipelines.
module Execution {
  import opened Wrappers
  import opened Sequences
  import opened Graphs
  import opened Topologies
  import opened Feasibility

  type PipelineId = string

  // ---------------------------------------------------------------- funnel policy

  datatype Mode = Wait | Proceed | Abort

  datatype Action = KeepWaiting | GoOn | GiveUp | TimedOut

  datatype Policy = Policy(action: Action, partial: bool, failed: bool)

  // FUNNEL_MODE and FUNNEL_TIMEOUT
  datatype Config = Config(mode: Mode, timeout: real)

  // apply_funnel_policy
  function ApplyFunnelPolicy(mode: Mode, expected: set<StageId>, received: set<StageId>, timeoutReached: bool): Policy {
    if received >= expected then Policy(GoOn, false, false)
    else match mode
      case Wait => if timeoutReached then Policy(TimedOut, false, true) else Policy(KeepWaiting, false, false)
      case Proceed => Policy(GoOn, true, false)
      case Abort => Policy(GiveUp, false, true)
  }

  // ---------------------------------------------------------------- one pipeline

  // The mutable part of a pipeline record, and its graph.
  datatype Run = Run(g: Graph, placement: Placement, completed: set<StageId>, dispatched: set<StageId>,
                     skipped: set<StageId>, failed: bool, partial: bool, waitStart: Option<real>)
  {
    function All(): set<StageId> {
      ToSet(g.ids)
    }
  }

  function NewRun(g: Graph, placement: Placement): Run {
    Run(g, placement, {}, {}, {}, false, false, None)
  }

  predicate AllIn(xs: seq<StageId>, s: set<StageId>) {
    forall x :: x in xs ==> x in s
  }

  // Predecessors of v that have not completed and sit on dead workers.
  function DeadPreds(r: Run, dead: set<NodeId>, v: StageId): set<StageId> {
    set p | p in Preds(r.g.edges, v) && p !in r.completed && p in r.placement && r.placement[p] in dead
  }

  datatype Scan = Scan(run: Run, ready: seq<StageId>, result: Option<Policy>)

  // Neither finished, nor sent, nor given up.
  predicate Open(r: Run, v: StageId) {
    v !in r.completed && v !in r.dispatched && v !in r.skipped
  }

  function Consult(cfg: Config, now: real, sc: Scan, v: StageId, deadPreds: set<StageId>): Scan {
    var r := sc.run;
    var preds := ToSet(Preds(r.g.edges, v));
    var start := if r.waitStart.None? then now else r.waitStart.value;
    var policy := ApplyFunnelPolicy(cfg.mode, preds, r.completed * preds, now - start >= cfg.timeout);
    var waiting := r.(waitStart := Some(start));
    if policy.action.GoOn?
    then Scan(waiting.(skipped := r.skipped + deadPreds, partial := true), sc.ready + [v], Some(policy))
    else Scan(waiting, sc.ready, Some(policy))
  }

  function ScanStage(cfg: Config, dead: set<NodeId>, now: real, sc: Scan, v: StageId): Scan {
    var preds := Preds(sc.run.g.edges, v);
    if !Open(sc.run, v) then sc
    else if AllIn(preds, sc.run.completed) then sc.(ready := sc.ready + [v])
    else if |preds| <= 1 then sc
    else if DeadPreds(sc.run, dead, v) == {} then sc
    else Consult(cfg, now, sc, v, DeadPreds(sc.run, dead, v))
  }

  // _find_ready_stages over the first stages of the graph
  function ScanStages(cfg: Config, dead: set<NodeId>, now: real, r: Run, ids: seq<StageId>): Scan {
    if ids == [] then Scan(r, [], None)
    else ScanStage(cfg, dead, now, ScanStages(cfg, dead, now, r, ids[..|ids|-1]), ids[|ids|-1])
  }

  function DeadWorkers(r: Run, workers: set<NodeId>): set<NodeId> {
    r.placement.Values - workers
  }

  // _dispatch_ready_stages: a failing policy fails the pipeline, otherwise every ready
  // stage is marked before any of them is sent.
  function DispatchReady(cfg: Config, workers: set<NodeId>, now: real, r: Run): Run {
    if r.failed then r
    else
      var sc := ScanStages(cfg, DeadWorkers(r, workers), now, r, r.g.ids);
      if sc.result.Some? && sc.result.value.failed then sc.run.(failed := true)
      else sc.run.(dispatched := sc.run.dispatched + ToSet(sc.ready))
  }

  // The stages a dispatch sends: the ready ones, none when the pipeline fails.
  function ReadyToSend(cfg: Config, workers: set<NodeId>, now: real, r: Run): seq<StageId> {
    var sc := ScanStages(cfg, DeadWorkers(r, workers), now, r, r.g.ids);
    if r.failed || (sc.result.Some? && sc.result.value.failed) then [] else sc.ready
  }

  // ---------------------------------------------------------------- the broker

  // issued: identifiers ever handed out; delivered: pipelines reported complete with success.
  datatype System = System(workers: set<NodeId>, active: map<PipelineId, Run>,
                           issued: set<PipelineId>, delivered: set<PipelineId>)

  datatype Event =
    | Publish(pid: PipelineId, g: Graph, placement: Placement, now: real)
    | StageResult(pid: PipelineId, stage: StageId, success: bool, now: real)
    | SendStarts(pid: PipelineId, stage: StageId)
    | SendFails(pid: PipelineId)
    | Replaced(pid: PipelineId, moved: Placement, now: real)
    | Register(node: NodeId)
    | Deregister(node: NodeId)

  function Initial(): System {
    System({}, map[], {}, {})
  }

  function Drop(sys: System, pid: PipelineId): System {
    sys.(active := sys.active - {pid})
  }

  // A pipeline whose run failed leaves the table.
  function Store(sys: System, pid: PipelineId, r: Run): System {
    if r.failed then Drop(sys, pid) else sys.(active := sys.active[pid := r])
  }

  // The tail of _handle_result, once r is the updated record of pid.
  function Conclude(cfg: Config, sys: System, pid: PipelineId, r: Run, now: real): System {
    if r.failed then Drop(sys, pid)
    else if r.completed == r.All() then Drop(sys, pid).(delivered := sys.delivered + {pid})
    else Store(sys, pid, DispatchReady(cfg, sys.workers, now, r))
  }

  // Nothing depends on the record that is replaced.
  lemma RecordReplaced(cfg: Config, sys: System, pid: PipelineId, r: Run, last: Run, now: real)
    ensures var mid := sys.(active := sys.active[pid := r]);
      && Drop(mid, pid) == Drop(sys, pid) && Store(mid, pid, last) == Store(sys, pid, last)
      && Conclude(cfg, mid, pid, r, now) == Conclude(cfg, sys, pid, r, now)
  {
    hide DispatchReady;
  }

  function AfterPublish(cfg: Config, sys: System, pid: PipelineId, g: Graph, placement: Placement, now: real): System {
    if sys.workers == {} then sys
    else Store(sys.(issued := sys.issued + {pid}), pid, DispatchReady(cfg, sys.workers, now, NewRun(g, placement)))
  }

  // _handle_result
  function AfterResult(cfg: Config, sys: System, pid: PipelineId, stage: StageId, success: bool, now: real): System {
    if pid !in sys.active then sys
    else
      var r := sys.active[pid];
      Conclude(cfg, sys, pid, if success then r.(completed := r.completed + {stage}) else r.(failed := true), now)
  }

  // A send task that finds its worker gone fails the pipeline.
  function AfterSendStarts(sys: System, pid: PipelineId, stage: StageId): System {
    if pid in sys.active && stage in sys.active[pid].placement && sys.active[pid].placement[stage] !in sys.workers
    then Drop(sys, pid) else sys
  }

  // Stages of a dead worker get new workers, then whatever is ready is sent.
  function AfterReplaced(cfg: Config, sys: System, pid: PipelineId, moved: Placement, now: real): System {
    if pid !in sys.active then sys
    else
      var rerouted := sys.active[pid].(placement := sys.active[pid].placement + moved);
      Store(sys, pid, DispatchReady(cfg, sys.workers, now, rerouted))
  }

  function Apply(cfg: Config, sys: System, ev: Event): System {
    match ev
    case Publish(pid, g, placement, now) => AfterPublish(cfg, sys, pid, g, placement, now)
    case StageResult(pid, stage, success, now) => AfterResult(cfg, sys, pid, stage, success, now)
    case SendStarts(pid, stage) => AfterSendStarts(sys, pid, stage)
    case SendFails(pid) => Drop(sys, pid)
    case Replaced(pid, moved, now) => AfterReplaced(cfg, sys, pid, moved, now)
    case Register(node) => sys.(workers := sys.workers + {node})
    case Deregister(node) => sys.(workers := sys.workers - {node})
  }

  function ApplyAll(cfg: Config, sys: System, evs: seq<Event>): System {
    if evs == [] then sys else Apply(cfg, ApplyAll(cfg, sys, evs[..|evs|-1]), evs[|evs|-1])
  }

  datatype Status = UnknownPipeline | PipelineFailed | PipelineComplete | StageRecorded

  // The answer to a result report.
  function ResultStatus(sys: System, pid: PipelineId, stage: StageId, success: bool): Status {
    if pid !in sys.active then UnknownPipeline
    else if !success then PipelineFailed
    else if sys.active[pid].completed + {stage} == sys.active[pid].All() then PipelineComplete
    else StageRecorded
  }

  // The stages sent on a result report.
  function ResultSends(cfg: Config, sys: System, pid: PipelineId, stage: StageId, success: bool,
          now: real): seq<StageId>
  {
    if ResultStatus(sys, pid, stage, success).StageRecorded?
    then ReadyToSend(cfg, sys.workers, now, sys.active[pid].(completed := sys.active[pid].completed + {stage}))
    else []
  }

  // What the broker relies on: fresh identifiers, graphs built by add_edge, placements of
  // every stage, and results only for stages that were sent.
  ghost predicate Honest(sys: System, ev: Event) {
    match ev
    case Publish(pid, g, placement, _) =>
      pid !in sys.issued && WellFormed(g) && Acyclic(g.edges) && forall s :: s in g.ids ==> s in placement
    case StageResult(pid, stage, _, _) => pid in sys.active ==> stage in sys.active[pid].dispatched
    case _ => true
  }

  ghost predicate HonestRun(cfg: Config, sys: System, evs: seq<Event>) {
    evs == [] || (HonestRun(cfg, sys, evs[..|evs|-1]) && Honest(ApplyAll(cfg, sys, evs[..|evs|-1]), evs[|evs|-1]))
  }

  // ---------------------------------------------------------------- what a scan finds

  ghost predicate SameButFunnel(a: Run, b: Run) {
    && a.g == b.g && a.placement == b.placement && a.completed == b.completed
    && a.dispatched == b.dispatched && a.failed == b.failed && a.skipped <= b.skipped
  }

  // A sent stage has every input, or gave up on one of several.
  ghost predicate Supplied(r: Run, v: StageId) {
    AllIn(Preds(r.g.edges, v), r.completed) || exists p :: p in Preds(r.g.edges, v) && p in r.skipped
  }

  ghost predicate ScanSound(cfg: Config, r: Run, ids: seq<StageId>, sc: Scan) {
    && SameButFunnel(r, sc.run)
    && Distinct(sc.ready)
    && (forall v :: v in sc.ready ==> v in ids && Open(r, v) && Supplied(sc.run, v))
    && (sc.run.skipped <= r.skipped + SourcesOf(r.g.edges))
    && (cfg.mode != Proceed ==> sc.run.skipped == r.skipped && sc.run.partial == r.partial)
    && ((r.partial <==> r.skipped != {}) ==> (sc.run.partial <==> sc.run.skipped != {}))
  }

  lemma {:induction false} ScanSetting(cfg: Config, dead: set<NodeId>, now: real, r: Run, ids: seq<StageId>)
    ensures SameButFunnel(r, ScanStages(cfg, dead, now, r, ids).run)
  {
    if ids != [] { ScanSetting(cfg, dead, now, r, ids[..|ids|-1]); }
  }

  ghost predicate ScanComplete(r: Run, ids: seq<StageId>, sc: Scan) {
    forall v :: v in ids && AllIn(Preds(r.g.edges, v), r.completed) ==>
      v in r.completed || v in r.dispatched || v in sc.run.skipped || v in sc.ready
  }

  function SourcesOf(es: seq<Edge>): set<StageId> {
    set e | e in es :: e.source
  }

  lemma {:induction false} PredsAreSources(es: seq<Edge>, v: StageId)
    ensures forall p :: p in Preds(es, v) ==> p in SourcesOf(es)
  {
    forall p | p in Preds(es, v) ensures p in SourcesOf(es) {
      Adjacent(es, p, v);
      var e :| e in es && e.source == p && e.target == v;
    }
  }

  // The funnel is consulted only about missing inputs.
  lemma ConsultMeaning(cfg: Config, now: real, sc: Scan, v: StageId, deadPreds: set<StageId>)
    requires deadPreds != {} && forall p :: p in deadPreds ==> p in Preds(sc.run.g.edges, v) && p !in sc.run.completed
    ensures var after := Consult(cfg, now, sc, v, deadPreds);
      && after.result.Some?
      && (cfg.mode == Proceed ==> after.ready == sc.ready + [v] && !after.result.value.failed)
      && (cfg.mode == Proceed ==> after.run.skipped == sc.run.skipped + deadPreds && after.run.partial)
      && (cfg.mode != Proceed ==> after.ready == sc.ready && after.run.skipped == sc.run.skipped)
      && (cfg.mode != Proceed ==> after.run.partial == sc.run.partial)
  {
    var p :| p in deadPreds;
    assert p in ToSet(Preds(sc.run.g.edges, v));
  }

  lemma ScanStageSound(cfg: Config, dead: set<NodeId>, now: real, r: Run, ids: seq<StageId>, sc: Scan, v: StageId)
    requires ScanSound(cfg, r, ids, sc) && v !in ids
    ensures ScanSound(cfg, r, ids + [v], ScanStage(cfg, dead, now, sc, v))
  {
    var after := ScanStage(cfg, dead, now, sc, v);
    var deadPreds := DeadPreds(sc.run, dead, v);
    PredsAreSources(r.g.edges, v);
    if deadPreds != {} { ConsultMeaning(cfg, now, sc, v, deadPreds); }
    forall u | u in after.ready ensures u in ids + [v] && Open(r, u) && Supplied(after.run, u) {
      if u == v && u !in sc.ready {
        if !AllIn(Preds(r.g.edges, v), r.completed) {
          var p :| p in deadPreds;
          assert p in after.run.skipped;
        }
      } else {
        assert Supplied(sc.run, u);
      }
    }
  }

  lemma {:induction false} ScanIsSound(cfg: Config, dead: set<NodeId>, now: real, r: Run, ids: seq<StageId>)
    requires Distinct(ids)
    ensures ScanSound(cfg, r, ids, ScanStages(cfg, dead, now, r, ids))
  {
    if ids != [] {
      var n := |ids| - 1;
      ScanIsSound(cfg, dead, now, r, ids[..n]);
      assert ids == ids[..n] + [ids[n]];
      assert ids[n] !in ids[..n];
      hide ScanSound, ScanStage;
      ScanStageSound(cfg, dead, now, r, ids[..n], ScanStages(cfg, dead, now, r, ids[..n]), ids[n]);
    }
  }

  lemma {:induction false} ScanIsComplete(cfg: Config, dead: set<NodeId>, now: real, r: Run, ids: seq<StageId>)
    ensures ScanComplete(r, ids, ScanStages(cfg, dead, now, r, ids))
  {
    if ids != [] {
      var n := |ids| - 1;
      ScanIsComplete(cfg, dead, now, r, ids[..n]);
      ScanSetting(cfg, dead, now, r, ids[..n]);
      assert ids == ids[..n] + [ids[n]];
    }
  }

  lemma {:induction false} ScanUndisturbed(cfg: Config, now: real, r: Run, ids: seq<StageId>)
    ensures var sc := ScanStages(cfg, {}, now, r, ids); sc.run == r && sc.result.None?
  {
    if ids != [] { ScanUndisturbed(cfg, now, r, ids[..|ids|-1]); }
  }

  lemma ScanMeaning(cfg: Config, dead: set<NodeId>, now: real, r: Run, ids: seq<StageId>)
    requires Distinct(ids)
    ensures ScanSound(cfg, r, ids, ScanStages(cfg, dead, now, r, ids))
    ensures ScanComplete(r, ids, ScanStages(cfg, dead, now, r, ids))
    ensures dead == {} ==> ScanStages(cfg, dead, now, r, ids).run == r
    ensures dead == {} ==> ScanStages(cfg, dead, now, r, ids).result.None?
  {
    hide *;
    ScanIsSound(cfg, dead, now, r, ids);
    ScanIsComplete(cfg, dead, now, r, ids);
    ScanUndisturbed(cfg, now, r, ids);
  }
}
