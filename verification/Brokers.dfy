// The broker as the source keeps it: mutable pipeline records and registries, whose
// handlers run without suspending and are proved equal to the events of Execution.
module Brokers {
  import opened Wrappers
  import opened Sequences
  import opened Graphs
  import opened PipelineDags
  import opened Topologies
  import opened Feasibility
  import opened Execution

  datatype WorkerInfo = WorkerInfo(domain: string, slice: string, capacity: real)

  class PipelineState {
    const pipelineId: PipelineId
    const dag: Graph
    const allStages: set<StageId>
    var placement: Placement
    var completed: set<StageId>
    var dispatched: set<StageId>
    var skipped: set<StageId>
    var failed: bool
    var partial: bool
    var funnelWaitStart: Option<real>

    constructor (pid: PipelineId, g: Graph, p: Placement)
      ensures Valid() && pipelineId == pid && View() == NewRun(g, p)
    {
      pipelineId, dag, allStages, placement := pid, g, ToSet(g.ids), p;
      completed, dispatched, skipped := {}, {}, {};
      failed, partial, funnelWaitStart := false, false, None;
    }

    ghost predicate Valid() {
      allStages == ToSet(dag.ids)
    }

    function View(): Run
      reads this
    {
      Run(dag, placement, completed, dispatched, skipped, failed, partial, funnelWaitStart)
    }

    // _find_ready_stages
    method FindReadyStages(cfg: Config, dead: set<NodeId>, now: real)
      returns (ready: seq<StageId>, result: Option<Policy>)
      modifies this
      ensures Scan(View(), ready, result) == ScanStages(cfg, dead, now, old(View()), dag.ids)
    {
      ready, result := [], None;
      var k := 0;
      while k < |dag.ids|
        invariant 0 <= k <= |dag.ids|
        invariant Scan(View(), ready, result) == ScanStages(cfg, dead, now, old(View()), dag.ids[..k])
      {
        assert dag.ids[..k+1][..k] == dag.ids[..k];
        var v := dag.ids[k];
        k := k + 1;
        if v in completed || v in dispatched || v in skipped {
          continue;
        }
        var preds := Preds(dag.edges, v);
        if AllIn(preds, completed) {
          ready := ready + [v];
          continue;
        }
        if |preds| <= 1 {
          continue;
        }
        var deadPreds := set p | p in preds && p !in completed && p in placement && placement[p] in dead;
        assert deadPreds == DeadPreds(View(), dead, v);
        if deadPreds == {} {
          continue;
        }
        if funnelWaitStart.None? {
          funnelWaitStart := Some(now);
        }
        var timeoutReached := now - funnelWaitStart.value >= cfg.timeout;
        var policy := ApplyFunnelPolicy(cfg.mode, ToSet(preds), completed * ToSet(preds), timeoutReached);
        result := Some(policy);
        if policy.action.GoOn? {
          skipped := skipped + deadPreds;
          partial := true;
          ready := ready + [v];
        }
      }
      TakeAll(dag.ids);
    }
  }

  class Broker {
    const cfg: Config
    var workers: map<NodeId, WorkerInfo>
    var active: map<PipelineId, PipelineState>
    ghost var issued: set<PipelineId>
    ghost var delivered: set<PipelineId>

    constructor (config: Config)
      ensures Valid() && cfg == config && View() == Initial()
    {
      cfg := config;
      workers, active, issued, delivered := map[], map[], {}, {};
    }

    ghost predicate Valid()
      reads this`active
    {
      forall pid :: pid in active ==> active[pid].pipelineId == pid && active[pid].Valid()
    }

    // The active pipelines as values.
    ghost function Runs(): map<PipelineId, Run>
      reads this`active, active.Values
    {
      map pid | pid in active :: active[pid].View()
    }

    ghost function View(): System
      reads this, active.Values
    {
      System(workers.Keys, Runs(), issued, delivered)
    }

    // Every failure and the delivery take the pipeline out of the table.
    method Retire(pid: PipelineId)
      requires Valid()
      modifies this`active
      ensures Valid() && active == old(active) - {pid}
      ensures View() == Drop(old(View()), pid)
    {
      active := active - {pid};
      assert Runs() == old(Runs()) - {pid};
    }

    // _dispatch_ready_stages: the stages returned are the sends it starts.
    method DispatchReadyStages(ps: PipelineState, now: real) returns (sends: seq<StageId>)
      requires Valid() && !ps.failed && ps.pipelineId in active && active[ps.pipelineId] == ps
      modifies this`active, ps
      ensures Valid() && ps.View() == DispatchReady(cfg, workers.Keys, now, old(ps.View()))
      ensures active == if ps.failed then old(active) - {ps.pipelineId} else old(active)
      ensures View() == Store(old(View()), ps.pipelineId, ps.View())
      ensures sends == ReadyToSend(cfg, workers.Keys, now, old(ps.View()))
    {
      hide ScanStages;
      var live := workers.Keys;
      var dead := ps.placement.Values - live;
      assert dead == DeadWorkers(ps.View(), workers.Keys);
      ScanSetting(cfg, dead, now, ps.View(), ps.dag.ids);
      var ready, result := ps.FindReadyStages(cfg, dead, now);
      if result.Some? && result.value.failed {
        ps.failed := true;
        RecordReplaced(cfg, old(View()), ps.pipelineId, ps.View(), ps.View(), now);
        assert Runs() == old(Runs())[ps.pipelineId := ps.View()];
        Retire(ps.pipelineId);
        return [];
      }
      ps.dispatched := ps.dispatched + ToSet(ready);
      assert Runs() == old(Runs())[ps.pipelineId := ps.View()];
      return ready;
    }

    // POST /publish
    method Publish(pid: PipelineId, dag: PipelineDAG, placement: Placement, now: real)
      returns (ps: Option<PipelineState>, sends: seq<StageId>)
      requires Valid() && pid !in active
      modifies this
      ensures Valid() && workers == old(workers)
      ensures View() == Apply(cfg, old(View()), Event.Publish(pid, dag.View(), placement, now))
      ensures ps.None? <==> old(workers) == map[]
      ensures sends ==
        if old(workers) == map[] then [] else ReadyToSend(cfg, old(workers).Keys, now, NewRun(dag.View(), placement))
    {
      if |workers.Keys| == 0 {
        return None, [];
      }
      hide DispatchReady, ReadyToSend, ScanStages, Conclude;
      var state := new PipelineState(pid, dag.View(), placement);
      ghost var sys, r := View(), state.View();
      Admit(state);
      assert View() == sys.(active := sys.active[pid := r], issued := sys.issued + {pid});
      sends := DispatchReadyStages(state, now);
      assert View() == Store(sys.(issued := sys.issued + {pid}), pid, state.View()) by {
        RecordReplaced(cfg, sys.(issued := sys.issued + {pid}), pid, r, state.View(), now);
      }
      return Some(state), sends;
    }

    method Admit(ps: PipelineState)
      requires Valid() && ps.Valid() && ps.pipelineId !in active
      modifies this`active, this`issued
      ensures Valid() && active == old(active)[ps.pipelineId := ps]
      ensures View() == old(View()).(
        active := old(Runs())[ps.pipelineId := ps.View()],
        issued := old(issued) + {ps.pipelineId})
    {
      active := active[ps.pipelineId := ps];
      issued := issued + {ps.pipelineId};
      assert Runs() == old(Runs())[ps.pipelineId := ps.View()];
    }

    // POST /result
    method HandleResult(pid: PipelineId, stage: StageId, success: bool, now: real)
      returns (status: Status, sends: seq<StageId>)
      requires Valid() && (pid in active ==> !active[pid].failed)
      modifies this, if pid in active then {active[pid]} else {}
      ensures Valid() && workers == old(workers)
      ensures View() == Apply(cfg, old(View()), StageResult(pid, stage, success, now))
      ensures status == ResultStatus(old(View()), pid, stage, success)
      ensures sends == ResultSends(cfg, old(View()), pid, stage, success, now)
    {
      hide DispatchReady, ReadyToSend, ScanStages, Conclude;
      if pid !in active {
        return UnknownPipeline, [];
      }
      ghost var sys := View();
      var ps := active[pid];
      if success {
        ps.completed := ps.completed + {stage};
      } else {
        ps.failed := true;
      }
      assert Runs() == sys.active[pid := ps.View()];
      RecordReplaced(cfg, sys, pid, ps.View(), ps.View(), now);
      status, sends := ConcludeResult(ps, now);
    }

    method ConcludeResult(ps: PipelineState, now: real) returns (status: Status, sends: seq<StageId>)
      requires Valid() && ps.pipelineId in active && active[ps.pipelineId] == ps
      modifies this, ps
      ensures Valid() && workers == old(workers)
      ensures View() == Conclude(cfg, old(View()), ps.pipelineId, old(ps.View()), now)
      ensures status == if old(ps.failed) then PipelineFailed
                        else if old(ps.completed) == ps.View().All() then PipelineComplete else StageRecorded
      ensures sends == if status.StageRecorded? then ReadyToSend(cfg, workers.Keys, now, old(ps.View())) else []
    {
      hide DispatchReady, ReadyToSend, ScanStages;
      if ps.failed {
        Retire(ps.pipelineId);
        return PipelineFailed, [];
      }
      if ps.completed == ps.allStages {
        Retire(ps.pipelineId);
        delivered := delivered + {ps.pipelineId};
        return PipelineComplete, [];
      }
      sends := DispatchReadyStages(ps, now);
      return StageRecorded, sends;
    }

    // The start of _dispatch_stage: a worker that left the registry fails the pipeline.
    method DispatchStage(ps: PipelineState, stage: StageId) returns (sent: bool)
      requires Valid() && stage in ps.placement && (ps.pipelineId in active ==> active[ps.pipelineId] == ps)
      modifies this`active, ps`failed
      ensures Valid() && workers == old(workers)
      ensures ps.pipelineId in old(active) ==> View() == Apply(cfg, old(View()), SendStarts(ps.pipelineId, stage))
      ensures sent <==> ps.placement[stage] in workers
    {
      if ps.placement[stage] !in workers {
        Retire(ps.pipelineId);
        ps.failed := true;
        return false;
      }
      return true;
    }

    // A send that raises, possibly long after the pipeline left the table.
    method SendFailed(ps: PipelineState)
      requires Valid() && (ps.pipelineId in active ==> active[ps.pipelineId] == ps)
      modifies this`active, ps`failed
      ensures Valid() && workers == old(workers) && ps.failed
      ensures View() == Apply(cfg, old(View()), SendFails(ps.pipelineId))
    {
      Retire(ps.pipelineId);
      ps.failed := true;
      assert Runs() == old(Runs()) - {ps.pipelineId};
    }

    // POST /register
    method RegisterWorker(node: NodeId, info: WorkerInfo)
      requires Valid()
      modifies this`workers
      ensures Valid() && active == old(active) && workers == old(workers)[node := info]
      ensures View() == Apply(cfg, old(View()), Register(node))
    {
      workers := workers[node := info];
    }

    // DELETE /register: unknown workers are an error.
    method DeregisterWorker(node: NodeId) returns (r: Result<(), NodeId>)
      requires Valid()
      modifies this`workers
      ensures Valid() && active == old(active)
      ensures r.Error? <==> node !in old(workers)
      ensures View() == Apply(cfg, old(View()), Deregister(node))
    {
      if node !in workers {
        assert workers.Keys - {node} == workers.Keys;
        return Error(node);
      }
      workers := workers - {node};
      return Ok(());
    }
  }
}
