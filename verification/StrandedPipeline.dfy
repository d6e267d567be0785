// A run in proceed mode that leaves a pipeline nobody can deliver any more.
module StrandedPipeline {
  import opened Wrappers
  import opened Sequences
  import opened Graphs
  import opened Topologies
  import opened Feasibility
  import opened Execution
  import opened ExecutionSafety
  import opened ExecutionProgress
  import opened Samples

  // ---------------------------------------------------------------- the pipeline and its workers

  const PROCEED := Config(Proceed, 30.0)

  // 1 -> 2 -> 4 and 3 -> 4
  function Fusion(): Graph {
    Graph([FIRST, SECOND, THIRD, FOURTH],
          map[FIRST := Plain(FIRST), SECOND := Plain(SECOND), THIRD := Plain(THIRD), FOURTH := Plain(FOURTH)],
          [Edge(FIRST, SECOND, 1.0), Edge(SECOND, FOURTH, 1.0), Edge(THIRD, FOURTH, 1.0)])
  }

  // Stage 2 is on the worker that will leave.
  function Placed(): Placement {
    map[FIRST := NODE_A, SECOND := NODE_B, THIRD := NODE_A, FOURTH := NODE_A]
  }

  lemma FusionPreds()
    ensures Preds(Fusion().edges, FIRST) == [] && Preds(Fusion().edges, SECOND) == [FIRST]
    ensures Preds(Fusion().edges, THIRD) == [] && Preds(Fusion().edges, FOURTH) == [SECOND, THIRD]
  {
    NamesDiffer();
    var e, f, h := Edge(FIRST, SECOND, 1.0), Edge(SECOND, FOURTH, 1.0), Edge(THIRD, FOURTH, 1.0);
    assert [e, f, h] == [] + [e] + [f] + [h];
    forall v ensures Preds([e, f, h], v) == Fed(e, v) + Fed(f, v) + Fed(h, v) {
      LastEdge([], e, v);
      LastEdge([] + [e], f, v);
      LastEdge([] + [e] + [f], h, v);
    }
  }

  function Fed(e: Edge, v: StageId): seq<StageId> {
    if e.target == v then [e.source] else []
  }

  lemma LastEdge(es: seq<Edge>, e: Edge, v: StageId)
    ensures Preds(es + [e], v) == Preds(es, v) + Fed(e, v)
  {
    assert (es + [e])[..|es|] == es;
  }

  lemma FusionOrder()
    ensures IsTopoOrder(Fusion(), Fusion().ids)
  {
    NamesDiffer();
    var ids := Fusion().ids;
    IndexOfDistinct(ids, 0);
    IndexOfDistinct(ids, 1);
    IndexOfDistinct(ids, 2);
    IndexOfDistinct(ids, 3);
    hide IndexOf;
    assert FIRST in ids && SECOND in ids && THIRD in ids && FOURTH in ids;
  }

  lemma FusionGraph()
    ensures WellFormed(Fusion()) && Acyclic(Fusion().edges)
  {
    NamesDiffer();
    FusionOrder();
    OrderedIsAcyclic(Fusion(), Fusion().ids);
    hide Acyclic, IsTopoOrder;
    assert Fusion().stages.Keys == {FIRST, SECOND, THIRD, FOURTH} == ToSet(Fusion().ids);
  }

  // ---------------------------------------------------------------- two dispatches

  lemma ScanOneMore(dead: set<NodeId>, now: real, r: Run, ids: seq<StageId>, v: StageId)
    ensures ScanStages(PROCEED, dead, now, r, ids + [v])
      == ScanStage(PROCEED, dead, now, ScanStages(PROCEED, dead, now, r, ids), v)
  {
    hide ScanStage;
    assert (ids + [v])[..|ids|] == ids;
  }

  lemma ScanFour(dead: set<NodeId>, now: real, r: Run)
    ensures ScanStages(PROCEED, dead, now, r, Fusion().ids)
      == ScanStage(PROCEED, dead, now, ScanStage(PROCEED, dead, now, ScanStage(PROCEED, dead, now,
           ScanStage(PROCEED, dead, now, Scan(r, [], None), FIRST), SECOND), THIRD), FOURTH)
  {
    assert ScanStages(PROCEED, dead, now, r, []) == Scan(r, [], None);
    hide ScanStage, ScanStages;
    ScanOneMore(dead, now, r, [], FIRST);
    ScanOneMore(dead, now, r, [FIRST], SECOND);
    ScanOneMore(dead, now, r, [FIRST, SECOND], THIRD);
    ScanOneMore(dead, now, r, [FIRST, SECOND, THIRD], FOURTH);
    assert [] + [FIRST] == [FIRST] && [FIRST] + [SECOND] == [FIRST, SECOND];
    assert [FIRST, SECOND] + [THIRD] == [FIRST, SECOND, THIRD] && [FIRST, SECOND, THIRD] + [FOURTH] == Fusion().ids;
  }

  function Published(): Run {
    NewRun(Fusion(), Placed())
  }

  // Stages 1 and 3 are sent when the pipeline is published.
  function Sent(): Run {
    Published().(dispatched := {FIRST, THIRD})
  }

  lemma FirstDispatch()
    ensures DispatchReady(PROCEED, {NODE_A, NODE_B}, 0.0, Published()) == Sent()
  {
    NamesDiffer();
    FusionPreds();
    ScanFour({}, 0.0, Published());
    hide Preds, ScanStages;
    assert Placed().Values - {NODE_A, NODE_B} == {};
    var sc := Scan(Published(), [], None);
    var a := ScanStage(PROCEED, {}, 0.0, sc, FIRST);
    assert a == Scan(Published(), [FIRST], None);
    var b := ScanStage(PROCEED, {}, 0.0, a, SECOND);
    assert b == a;
    var c := ScanStage(PROCEED, {}, 0.0, b, THIRD);
    assert c == Scan(Published(), [FIRST, THIRD], None);
    assert ScanStage(PROCEED, {}, 0.0, c, FOURTH) == c;
    assert ToSet([FIRST, THIRD]) == {FIRST, THIRD};
  }

  function Reporting(): Run {
    Sent().(completed := {THIRD})
  }

  // The fan-in goes on without stage 2, whose input stage 1 is still computing.
  lemma SecondDispatch()
    ensures var r := DispatchReady(PROCEED, {NODE_A}, 1.0, Reporting());
      !r.failed && SECOND in r.skipped && SECOND !in r.dispatched
  {
    NamesDiffer();
    FusionPreds();
    ScanFour({NODE_B}, 1.0, Reporting());
    OnlyLeaverDead();
    hide Preds, ScanStages, DeadWorkers;
    var sc := Scan(Reporting(), [], None);
    var a := ScanStage(PROCEED, {NODE_B}, 1.0, sc, FIRST);
    assert a == sc && FIRST in [FIRST];
    var b := ScanStage(PROCEED, {NODE_B}, 1.0, a, SECOND);
    assert b == a;
    var c := ScanStage(PROCEED, {NODE_B}, 1.0, b, THIRD);
    assert c == b;
    FusionConsulted(c);
  }

  lemma OnlyLeaverDead()
    ensures DeadWorkers(Reporting(), {NODE_A}) == {NODE_B}
  {
    NamesDiffer();
    var p := Placed();
    assert SECOND in p && p[SECOND] == NODE_B;
    assert forall n :: n in p.Values ==> n == NODE_A || n == NODE_B;
  }

  lemma FusionConsulted(sc: Scan)
    requires sc == Scan(Reporting(), [], None)
    ensures var after := ScanStage(PROCEED, {NODE_B}, 1.0, sc, FOURTH);
      && after.ready == [FOURTH] && after.run.skipped == {SECOND} && after.run.dispatched == {FIRST, THIRD}
      && !after.run.failed && after.result.Some? && !after.result.value.failed
  {
    NamesDiffer();
    FusionPreds();
    hide Preds;
    assert SECOND in [SECOND, THIRD];
    assert DeadPreds(sc.run, {NODE_B}, FOURTH) == {SECOND};
    assert SECOND in ToSet([SECOND, THIRD]);
  }

  // ---------------------------------------------------------------- the run

  function Joined(): System {
    Apply(PROCEED, Apply(PROCEED, Initial(), Register(NODE_A)), Register(NODE_B))
  }

  function Started(pid: PipelineId): System {
    Apply(PROCEED, Joined(), Publish(pid, Fusion(), Placed(), 0.0))
  }

  function Halved(pid: PipelineId): System {
    Apply(PROCEED, Started(pid), Deregister(NODE_B))
  }

  function Stranded(pid: PipelineId): System {
    Apply(PROCEED, Halved(pid), StageResult(pid, THIRD, true, 1.0))
  }

  lemma StartedFacts(pid: PipelineId)
    ensures Honest(Joined(), Publish(pid, Fusion(), Placed(), 0.0))
    ensures Started(pid).workers == {NODE_A, NODE_B} && pid in Started(pid).active && Started(pid).active[pid] == Sent()
  {
    FusionGraph();
    FirstDispatch();
    hide DispatchReady, Acyclic, WellFormed;
    assert Joined().workers == {NODE_A, NODE_B};
    assert forall s :: s in Fusion().ids ==> s in Placed();
  }

  lemma StrandedFacts(pid: PipelineId)
    ensures Honest(Halved(pid), StageResult(pid, THIRD, true, 1.0))
    ensures pid in Stranded(pid).active
    ensures var r := Stranded(pid).active[pid]; SECOND in r.skipped && SECOND !in r.dispatched
  {
    StartedFacts(pid);
    SecondDispatch();
    NamesDiffer();
    hide DispatchReady, Started;
    var sys := Halved(pid);
    assert sys.workers == {NODE_A} && sys.active[pid] == Sent();
    assert FIRST in Fusion().ids && FIRST in ToSet(Fusion().ids);
    assert Sent().completed + {THIRD} == {THIRD} != Reporting().All();
  }

  // Both workers are registered when the pipeline is published; one leaves before its stage
  // is sent, and the other input of the fan-in arrives.
  function Events(pid: PipelineId): seq<Event> {
    [Register(NODE_A), Register(NODE_B), Publish(pid, Fusion(), Placed(), 0.0), Deregister(NODE_B),
     StageResult(pid, THIRD, true, 1.0)]
  }

  lemma EventsApply(pid: PipelineId)
    ensures HonestRun(PROCEED, Initial(), Events(pid)) && ApplyAll(PROCEED, Initial(), Events(pid)) == Stranded(pid)
  {
    StartedFacts(pid);
    StrandedFacts(pid);
    var evs := Events(pid);
    hide Apply, ApplyAll, HonestRun, Fusion, Placed;
    Extended([], evs[0]);
    Extended(evs[..1], evs[1]);
    Extended(evs[..2], evs[2]);
    Extended(evs[..3], evs[3]);
    Extended(evs[..4], evs[4]);
    NoEvents();
    assert [] + [evs[0]] == evs[..1] && evs[..1] + [evs[1]] == evs[..2] && evs[..2] + [evs[2]] == evs[..3];
    assert evs[..3] + [evs[3]] == evs[..4] && evs[..4] + [evs[4]] == evs;
  }

  lemma NoEvents()
    ensures HonestRun(PROCEED, Initial(), []) && ApplyAll(PROCEED, Initial(), []) == Initial()
  {}

  lemma Extended(evs: seq<Event>, ev: Event)
    ensures HonestRun(PROCEED, Initial(), evs) && Honest(ApplyAll(PROCEED, Initial(), evs), ev) ==>
      HonestRun(PROCEED, Initial(), evs + [ev])
    ensures ApplyAll(PROCEED, Initial(), evs + [ev]) == Apply(PROCEED, ApplyAll(PROCEED, Initial(), evs), ev)
  {
    hide Apply, Honest;
    assert (evs + [ev])[..|evs|] == evs;
  }

  // Its fan-in runs with partial inputs, stage 2 is never sent, and no continuation
  // delivers the pipeline.
  lemma ProceedStrands(pid: PipelineId)
    ensures HonestRun(PROCEED, Initial(), Events(pid))
    ensures var sys := ApplyAll(PROCEED, Initial(), Events(pid)); pid in sys.active && !CanFinish(PROCEED, sys, pid)
  {
    EventsApply(pid);
    StrandedFacts(pid);
    hide Apply, ApplyAll, HonestRun, CanFinish, SystemInv, Stranded, Events;
    RunsKeep(PROCEED, Initial(), Events(pid));
    StrandedStays(pid);
  }

  lemma StrandedStays(pid: PipelineId)
    requires SystemInv(Stranded(pid)) && pid in Stranded(pid).active
    requires var r := Stranded(pid).active[pid]; SECOND in r.skipped && SECOND !in r.dispatched
    ensures !CanFinish(PROCEED, Stranded(pid), pid)
  {
    hide CanFinish, SystemInv, Stranded;
    FinishableExactly(PROCEED, Stranded(pid), pid);
  }
}
