// What a dispatch and each broker event do to the raw record: which stages are sent, which
// are given up, when the pipeline fails, and what stays as it was.
module ExecutionEffects {
  import opened Wrappers
  import opened Sequences
  import opened Graphs
  import opened Topologies
  import opened Feasibility
  import opened Execution
  import opened ExecutionSafety

  // ---------------------------------------------------------------- missing inputs

  // q is an input of v that has not completed and whose worker is not registered; it does
  // not matter whether q was sent.
  ghost predicate Missing(r: Run, workers: set<NodeId>, v: StageId, q: StageId) {
    HasEdge(r.g.edges, q, v) && q !in r.completed && q in r.placement && r.placement[q] !in workers
  }

  lemma MissingExactly(r: Run, workers: set<NodeId>, v: StageId, q: StageId)
    ensures q in DeadPreds(r, DeadWorkers(r, workers), v) <==> Missing(r, workers, v, q)
  {
    Adjacent(r.g.edges, q, v);
    if q in r.placement { assert r.placement[q] in r.placement.Values; }
  }

  // v is still to be sent, has several inputs, and misses one.
  ghost predicate Cut(r: Run, workers: set<NodeId>, v: StageId) {
    && v in r.g.ids && v !in r.completed && v !in r.dispatched && v !in r.skipped
    && |Preds(r.g.edges, v)| > 1 && exists q :: Missing(r, workers, v, q)
  }

  lemma CutExactly(r: Run, workers: set<NodeId>, v: StageId)
    ensures Cut(r, workers, v) <==> v in r.g.ids && Starved(r, DeadWorkers(r, workers), v)
  {
    var dead := DeadWorkers(r, workers);
    hide DeadPreds, DeadWorkers, Missing;
    if q :| Missing(r, workers, v, q) {
      MissingExactly(r, workers, v, q);
      MissingIsOpen(r, workers, v, q);
    }
    if q :| q in DeadPreds(r, dead, v) { MissingExactly(r, workers, v, q); }
  }

  lemma MissingIsOpen(r: Run, workers: set<NodeId>, v: StageId, q: StageId)
    requires Missing(r, workers, v, q)
    ensures !AllIn(Preds(r.g.edges, v), r.completed)
  {
    Adjacent(r.g.edges, q, v);
  }

  // Abort at once; wait until the timeout has passed since the first missing input was seen.
  predicate Overdue(cfg: Config, r: Run, now: real) {
    || cfg.mode == Abort
    || (cfg.mode == Wait && now >= (if r.waitStart.Some? then r.waitStart.value else now) + cfg.timeout)
  }

  // A dispatch fails the pipeline exactly when the policy is overdue and some fan-in that is
  // still to be sent misses an input; outside proceed mode the first such moment starts the wait.
  lemma FailsExactly(cfg: Config, workers: set<NodeId>, now: real, r: Run)
    requires !r.failed
    ensures DispatchReady(cfg, workers, now, r).failed <==> Overdue(cfg, r, now) && exists v :: Cut(r, workers, v)
    ensures cfg.mode != Proceed && (exists v :: Cut(r, workers, v)) ==>
      DispatchReady(cfg, workers, now, r).waitStart == if r.waitStart.None? then Some(now) else r.waitStart
    ensures cfg.mode != Proceed && !(exists v :: Cut(r, workers, v)) ==>
      DispatchReady(cfg, workers, now, r).waitStart == r.waitStart
  {
    var dead := DeadWorkers(r, workers);
    DispatchFailsExactly(cfg, workers, now, r);
    hide Starved, DeadWorkers, ScanStages, Cut;
    forall v ensures Cut(r, workers, v) <==> v in r.g.ids && Starved(r, dead, v) { CutExactly(r, workers, v); }
    if cfg.mode != Proceed { ScanJudges(cfg, dead, now, r, r.g.ids); }
  }

  // ---------------------------------------------------------------- what is sent outside proceed mode

  // v is still to be sent and has all its inputs.
  ghost predicate Due(r: Run, v: StageId) {
    && v in r.g.ids && v !in r.completed && v !in r.dispatched && v !in r.skipped
    && forall q :: HasEdge(r.g.edges, q, v) ==> q in r.completed
  }

  lemma AllInputs(r: Run, v: StageId)
    ensures AllIn(Preds(r.g.edges, v), r.completed) <==> forall q :: HasEdge(r.g.edges, q, v) ==> q in r.completed
  {
    forall q ensures q in Preds(r.g.edges, v) <==> HasEdge(r.g.edges, q, v) { Adjacent(r.g.edges, q, v); }
  }

  lemma {:induction false} ScanFindsDue(cfg: Config, dead: set<NodeId>, now: real, r: Run, ids: seq<StageId>)
    requires cfg.mode != Proceed && Distinct(ids)
    ensures var sc := ScanStages(cfg, dead, now, r, ids);
      && SameButFunnel(r, sc.run) && sc.run.skipped == r.skipped
      && forall v :: v in sc.ready <==> v in ids && Open(r, v) && AllIn(Preds(r.g.edges, v), r.completed)
  {
    if ids != [] {
      var n := |ids| - 1;
      ScanFindsDue(cfg, dead, now, r, ids[..n]);
      var sc := ScanStages(cfg, dead, now, r, ids[..n]);
      assert forall v :: v in ids <==> v in ids[..n] || v == ids[n];
      if DeadPreds(sc.run, dead, ids[n]) != {} {
        ConsultMeaning(cfg, now, sc, ids[n], DeadPreds(sc.run, dead, ids[n]));
      }
      hide Consult, DeadPreds;
    }
  }

  // In wait and abort mode a dispatch that does not fail sends exactly the stages that are
  // due, and gives nothing up.
  lemma SendsExactly(cfg: Config, workers: set<NodeId>, now: real, r: Run)
    requires cfg.mode != Proceed && Distinct(r.g.ids) && !r.failed && !DispatchReady(cfg, workers, now, r).failed
    ensures var after, sends := DispatchReady(cfg, workers, now, r), ReadyToSend(cfg, workers, now, r);
      && (forall v :: v in sends <==> Due(r, v))
      && (forall v :: v in after.dispatched <==> v in r.dispatched || Due(r, v))
      && after.skipped == r.skipped
  {
    var dead := DeadWorkers(r, workers);
    ScanFindsDue(cfg, dead, now, r, r.g.ids);
    hide ScanStages, DeadWorkers, Due;
    forall v ensures Due(r, v) <==> v in r.g.ids && Open(r, v) && AllIn(Preds(r.g.edges, v), r.completed) {
      AllInputs(r, v);
      DueOpen(r, v);
    }
  }

  lemma DueOpen(r: Run, v: StageId)
    ensures Due(r, v) <==> v in r.g.ids && Open(r, v) && forall q :: HasEdge(r.g.edges, q, v) ==> q in r.completed
  {}

  // ---------------------------------------------------------------- what is sent in proceed mode

  // v goes on: with all its inputs, or as a fan-in that misses one.
  ghost predicate GoesOn(r: Run, workers: set<NodeId>, v: StageId) {
    AllIn(Preds(r.g.edges, v), r.completed) || (|Preds(r.g.edges, v)| > 1 && exists q :: Missing(r, workers, v, q))
  }

  // One of the stages sends on without its input q.
  ghost predicate GivenUpBy(r: Run, workers: set<NodeId>, xs: seq<StageId>, q: StageId) {
    exists u :: u in xs && |Preds(r.g.edges, u)| > 1 && Missing(r, workers, u, q)
  }

  // Of the stages in graph order those are ready that are still to be sent, go on, and were
  // not given up by a ready stage before them; what the ready ones miss is given up.
  ghost predicate Proceeds(r: Run, workers: set<NodeId>, ids: seq<StageId>, ready: seq<StageId>,
                           skipped: set<StageId>) {
    && (forall v :: v in ready ==> v in ids)
    && (forall i :: 0 <= i < |ids| ==> ReadyAt(r, workers, ids, ready, i))
    && (forall q :: q in skipped <==> q in r.skipped || GivenUpBy(r, workers, ready, q))
  }

  ghost predicate ReadyAt(r: Run, workers: set<NodeId>, ids: seq<StageId>, ready: seq<StageId>, i: nat)
    requires i < |ids|
  {
    ids[i] in ready <==>
      && ids[i] !in r.completed && ids[i] !in r.dispatched && ids[i] !in r.skipped
      && GoesOn(r, workers, ids[i]) && !GivenUpEarlier(r, workers, ids, ready, i)
  }

  ghost predicate GivenUpEarlier(r: Run, workers: set<NodeId>, ids: seq<StageId>, ready: seq<StageId>, i: nat)
    requires i < |ids|
  {
    exists j :: 0 <= j < i && ids[j] in ready && |Preds(r.g.edges, ids[j])| > 1 && Missing(r, workers, ids[j], ids[i])
  }

  lemma EarlierKept(r: Run, workers: set<NodeId>, ids: seq<StageId>, v: StageId, ready: seq<StageId>,
                    grown: seq<StageId>, i: nat)
    requires i < |ids| && v !in ids && (grown == ready || grown == ready + [v])
    ensures ReadyAt(r, workers, ids + [v], grown, i) <==> ReadyAt(r, workers, ids, ready, i)
  {
    var all := ids + [v];
    hide GoesOn, Missing;
    forall j | 0 <= j <= i ensures all[j] == ids[j] && (all[j] in grown <==> ids[j] in ready) { assert ids[j] in ids; }
  }

  lemma EarlierGivesUp(r: Run, workers: set<NodeId>, ids: seq<StageId>, v: StageId, ready: seq<StageId>,
                       grown: seq<StageId>)
    requires v !in ids && (grown == ready || grown == ready + [v]) && forall u :: u in ready ==> u in ids
    ensures GivenUpEarlier(r, workers, ids + [v], grown, |ids|) <==> GivenUpBy(r, workers, ready, v)
  {
    var all := ids + [v];
    hide Missing;
    if GivenUpBy(r, workers, ready, v) {
      var u :| u in ready && |Preds(r.g.edges, u)| > 1 && Missing(r, workers, u, v);
      var j := IndexOf(ids, u);
      assert all[j] == u && u in grown;
    }
    forall j | 0 <= j < |ids| && all[j] in grown ensures all[j] in ready { assert ids[j] in ids; }
  }

  lemma OneMoreGivesUp(r: Run, workers: set<NodeId>, ready: seq<StageId>, v: StageId, q: StageId)
    ensures GivenUpBy(r, workers, ready + [v], q) <==>
      GivenUpBy(r, workers, ready, q) || (|Preds(r.g.edges, v)| > 1 && Missing(r, workers, v, q))
  {
    hide Missing;
    assert forall u :: u in ready + [v] <==> u in ready || u == v;
  }

  // One stage of the scan in proceed mode.
  lemma ProceedStep(cfg: Config, workers: set<NodeId>, now: real, r: Run, ids: seq<StageId>, sc: Scan, v: StageId)
    requires cfg.mode == Proceed && v !in ids && SameButFunnel(r, sc.run)
    requires Proceeds(r, workers, ids, sc.ready, sc.run.skipped)
    ensures var after := ScanStage(cfg, DeadWorkers(r, workers), now, sc, v);
      Proceeds(r, workers, ids + [v], after.ready, after.run.skipped)
  {
    var dead := DeadWorkers(r, workers);
    var after := ScanStage(cfg, dead, now, sc, v);
    StepCases(cfg, workers, now, r, sc, v);
    EarlierGivesUp(r, workers, ids, v, sc.ready, after.ready);
    hide ScanStage, DeadPreds, DeadWorkers, Missing, GoesOn, GivenUpEarlier;
    assert forall u :: u in after.ready ==> u in ids + [v];
    forall i | 0 <= i < |ids| + 1 ensures ReadyAt(r, workers, ids + [v], after.ready, i) {
      if i < |ids| {
        EarlierKept(r, workers, ids, v, sc.ready, after.ready, i);
      } else {
        NotYetReady(ids, sc.ready, v);
      }
    }
    hide ReadyAt;
    forall q ensures q in after.run.skipped <==> q in r.skipped || GivenUpBy(r, workers, after.ready, q) {
      OneMoreGivesUp(r, workers, sc.ready, v, q);
    }
  }

  lemma NotYetReady(ids: seq<StageId>, ready: seq<StageId>, v: StageId)
    requires v !in ids && forall u :: u in ready ==> u in ids
    ensures v !in ready && (ids + [v])[|ids|] == v && v in ready + [v]
  {}

  // What the scan does with one stage, on raw data.
  lemma StepCases(cfg: Config, workers: set<NodeId>, now: real, r: Run, sc: Scan, v: StageId)
    requires cfg.mode == Proceed && SameButFunnel(r, sc.run)
    ensures var after := ScanStage(cfg, DeadWorkers(r, workers), now, sc, v);
      if v !in r.completed && v !in r.dispatched && v !in sc.run.skipped && GoesOn(r, workers, v)
      then after.ready == sc.ready + [v] && (forall q :: q in after.run.skipped <==>
             q in sc.run.skipped || (|Preds(r.g.edges, v)| > 1 && Missing(r, workers, v, q)))
      else after.ready == sc.ready && after.run.skipped == sc.run.skipped
  {
    var dead := DeadWorkers(r, workers);
    assert DeadPreds(sc.run, dead, v) == DeadPreds(r, dead, v);
    hide DeadWorkers;
    forall q ensures q in DeadPreds(r, dead, v) <==> Missing(r, workers, v, q) { MissingExactly(r, workers, v, q); }
    forall q | Missing(r, workers, v, q) ensures !AllIn(Preds(r.g.edges, v), r.completed) {
      MissingIsOpen(r, workers, v, q);
    }
    hide Missing;
    if DeadPreds(r, dead, v) != {} {
      var q :| q in DeadPreds(r, dead, v);
      assert Missing(r, workers, v, q);
      ConsultMeaning(cfg, now, sc, v, DeadPreds(r, dead, v));
      hide Consult;
    }
  }

  lemma {:induction false} ScanProceeds(cfg: Config, workers: set<NodeId>, now: real, r: Run, ids: seq<StageId>)
    requires cfg.mode == Proceed && Distinct(ids)
    ensures var sc := ScanStages(cfg, DeadWorkers(r, workers), now, r, ids);
      Proceeds(r, workers, ids, sc.ready, sc.run.skipped)
  {
    var dead := DeadWorkers(r, workers);
    hide ScanStage, DeadWorkers, Missing, ReadyAt;
    if ids != [] {
      var n := |ids| - 1;
      ScanProceeds(cfg, workers, now, r, ids[..n]);
      ScanSetting(cfg, dead, now, r, ids[..n]);
      hide Proceeds;
      ProceedStep(cfg, workers, now, r, ids[..n], ScanStages(cfg, dead, now, r, ids[..n]), ids[n]);
      assert ids == ids[..n] + [ids[n]];
    }
  }

  // In proceed mode a dispatch never fails, and sends and gives up exactly these.
  lemma ProceedsExactly(cfg: Config, workers: set<NodeId>, now: real, r: Run)
    requires cfg.mode == Proceed && Distinct(r.g.ids) && !r.failed
    ensures var after, sends := DispatchReady(cfg, workers, now, r), ReadyToSend(cfg, workers, now, r);
      && !after.failed && Proceeds(r, workers, r.g.ids, sends, after.skipped)
      && forall v :: v in after.dispatched <==> v in r.dispatched || v in sends
  {
    var dead := DeadWorkers(r, workers);
    ProceedNeverFails(cfg, dead, now, r, r.g.ids);
    ScanProceeds(cfg, workers, now, r, r.g.ids);
    ScanSetting(cfg, dead, now, r, r.g.ids);
    hide ScanStages, DeadWorkers, Proceeds;
  }

  // v is a fan-in that misses an input.
  ghost predicate Partial(r: Run, workers: set<NodeId>, v: StageId) {
    |Preds(r.g.edges, v)| > 1 && exists q :: Missing(r, workers, v, q)
  }

  lemma PartialExactly(r: Run, workers: set<NodeId>, v: StageId)
    ensures Partial(r, workers, v) <==> |Preds(r.g.edges, v)| > 1 && DeadPreds(r, DeadWorkers(r, workers), v) != {}
    ensures Partial(r, workers, v) ==> !AllIn(Preds(r.g.edges, v), r.completed)
  {
    var dead := DeadWorkers(r, workers);
    hide DeadPreds, DeadWorkers, Missing;
    if q :| Missing(r, workers, v, q) {
      MissingExactly(r, workers, v, q);
      MissingIsOpen(r, workers, v, q);
    }
    if q :| q in DeadPreds(r, dead, v) { MissingExactly(r, workers, v, q); }
  }

  // One of the stages is such a fan-in.
  ghost predicate AnyPartial(r: Run, workers: set<NodeId>, xs: seq<StageId>) {
    exists v :: v in xs && Partial(r, workers, v)
  }

  // The flag and the start of the wait after a scan that found these stages ready.
  ghost predicate Flagged(cfg: Config, workers: set<NodeId>, now: real, r: Run, ready: seq<StageId>, after: Run) {
    && (after.partial <==> r.partial || (cfg.mode == Proceed && AnyPartial(r, workers, ready)))
    && (cfg.mode == Proceed ==>
          after.waitStart == if AnyPartial(r, workers, ready) && r.waitStart.None? then Some(now) else r.waitStart)
  }

  lemma FlagStep(cfg: Config, workers: set<NodeId>, now: real, r: Run, sc: Scan, v: StageId)
    requires SameButFunnel(r, sc.run) && Flagged(cfg, workers, now, r, sc.ready, sc.run)
    ensures var after := ScanStage(cfg, DeadWorkers(r, workers), now, sc, v);
      Flagged(cfg, workers, now, r, after.ready, after.run)
  {
    var dead := DeadWorkers(r, workers);
    assert DeadPreds(sc.run, dead, v) == DeadPreds(r, dead, v);
    PartialExactly(r, workers, v);
    hide DeadWorkers, Partial;
    assert AnyPartial(r, workers, sc.ready + [v]) <==> AnyPartial(r, workers, sc.ready) || Partial(r, workers, v) by {
      assert forall u :: u in sc.ready + [v] <==> u in sc.ready || u == v;
    }
    hide AnyPartial;
    if DeadPreds(r, dead, v) != {} { ConsultMeaning(cfg, now, sc, v, DeadPreds(r, dead, v)); }
    hide DeadPreds, ApplyFunnelPolicy;
  }

  lemma {:induction false} ScanFlags(cfg: Config, workers: set<NodeId>, now: real, r: Run, ids: seq<StageId>)
    ensures var sc := ScanStages(cfg, DeadWorkers(r, workers), now, r, ids);
      Flagged(cfg, workers, now, r, sc.ready, sc.run)
  {
    hide ScanStage, DeadWorkers, Partial;
    if ids != [] {
      var n := |ids| - 1;
      ScanFlags(cfg, workers, now, r, ids[..n]);
      ScanSetting(cfg, DeadWorkers(r, workers), now, r, ids[..n]);
      hide Flagged;
      FlagStep(cfg, workers, now, r, ScanStages(cfg, DeadWorkers(r, workers), now, r, ids[..n]), ids[n]);
    }
  }

  // The record is flagged as partial exactly when a fan-in is sent without an input; in
  // proceed mode the first such fan-in also notes the time.
  lemma FlagsExactly(cfg: Config, workers: set<NodeId>, now: real, r: Run)
    requires !r.failed && !DispatchReady(cfg, workers, now, r).failed
    ensures Flagged(cfg, workers, now, r, ReadyToSend(cfg, workers, now, r), DispatchReady(cfg, workers, now, r))
  {
    ScanFlags(cfg, workers, now, r, r.g.ids);
    ScanSetting(cfg, DeadWorkers(r, workers), now, r, r.g.ids);
    hide ScanStages, DeadWorkers, AnyPartial;
  }

  // Stages are sent in the order in which they were added to the graph.
  lemma {:induction false} SentInOrder(cfg: Config, dead: set<NodeId>, now: real, r: Run, ids: seq<StageId>,
                                       a: nat, b: nat)
    requires Distinct(ids) && a < b < |ScanStages(cfg, dead, now, r, ids).ready|
    ensures var ready := ScanStages(cfg, dead, now, r, ids).ready;
      ready[a] in ids && ready[b] in ids && IndexOf(ids, ready[a]) < IndexOf(ids, ready[b])
  {
    var n := |ids| - 1;
    var before := ScanStages(cfg, dead, now, r, ids[..n]).ready;
    ScanIsSound(cfg, dead, now, r, ids[..n]);
    hide ScanSound, IndexOf;
    assert forall v :: v in before ==> v in ids[..n] by { ReadyKnown(cfg, dead, now, r, ids[..n]); }
    var ready := ScanStages(cfg, dead, now, r, ids).ready;
    assert ready == before || ready == before + [ids[n]];
    PrefixIndex(ids, n, before[a]);
    if b < |before| {
      SentInOrder(cfg, dead, now, r, ids[..n], a, b);
      PrefixIndex(ids, n, before[b]);
    } else {
      IndexOfDistinct(ids, n);
    }
  }

  lemma ReadyKnown(cfg: Config, dead: set<NodeId>, now: real, r: Run, ids: seq<StageId>)
    requires Distinct(ids)
    ensures forall v :: v in ScanStages(cfg, dead, now, r, ids).ready ==> v in ids
  {
    ScanIsSound(cfg, dead, now, r, ids);
  }

  // ---------------------------------------------------------------- events

  // A send to a worker that left the registry takes its pipeline, and nothing else, out of
  // the table; any other send changes nothing.
  lemma SendStartsEffect(cfg: Config, sys: System, pid: PipelineId, stage: StageId)
    requires pid in sys.active && stage in sys.active[pid].placement
    ensures var after := Apply(cfg, sys, SendStarts(pid, stage));
      && (sys.active[pid].placement[stage] in sys.workers ==> after == sys)
      && (sys.active[pid].placement[stage] !in sys.workers ==>
            pid !in after.active && after.delivered == sys.delivered
            && forall q :: q in sys.active && q != pid ==> q in after.active && after.active[q] == sys.active[q])
  {}

  // A send that fails does so in any case.
  lemma SendFailsEffect(cfg: Config, sys: System, pid: PipelineId)
    ensures var after := Apply(cfg, sys, SendFails(pid));
      && pid !in after.active && after.delivered == sys.delivered && after.workers == sys.workers
      && forall q :: q in sys.active && q != pid ==> q in after.active && after.active[q] == sys.active[q]
  {}

  ghost predicate Concerns(ev: Event, pid: PipelineId) {
    match ev
    case Publish(q, _, _, _) => q == pid
    case StageResult(q, _, _, _) => q == pid
    case SendStarts(q, _) => q == pid
    case SendFails(q) => q == pid
    case Replaced(q, _, _) => q == pid
    case Register(_) => false
    case Deregister(_) => false
  }

  // Events of other pipelines and of the registry leave a pipeline as it was.
  lemma OthersUntouched(cfg: Config, sys: System, ev: Event, pid: PipelineId)
    requires !Concerns(ev, pid)
    ensures var after := Apply(cfg, sys, ev);
      && (pid in after.active <==> pid in sys.active) && (pid in sys.active ==> after.active[pid] == sys.active[pid])
      && (pid in after.delivered <==> pid in sys.delivered) && (pid in after.issued <==> pid in sys.issued)
  {
    hide DispatchReady;
  }

  // Only registering and deregistering change the registry, each by its one worker.
  lemma RegistryEffect(cfg: Config, sys: System, ev: Event, node: NodeId)
    ensures node in Apply(cfg, sys, ev).workers <==>
      ev == Register(node) || (node in sys.workers && ev != Deregister(node))
  {
    hide DispatchReady;
  }

  // A pipeline whose placed workers are all registered is admitted with its sources sent.
  lemma PublishEffect(cfg: Config, sys: System, pid: PipelineId, g: Graph, placement: Placement, now: real)
    requires WellFormed(g) && Acyclic(g.edges) && (forall s :: s in g.ids ==> s in placement)
    requires sys.workers != {} && placement.Values <= sys.workers
    ensures var after := Apply(cfg, sys, Publish(pid, g, placement, now));
      && pid in after.active && pid in after.issued
      && var r := after.active[pid];
         && r.g == g && r.placement == placement && r.completed == {} && r.skipped == {} && !r.failed
         && forall v :: v in r.dispatched <==> v in g.ids && forall q :: !HasEdge(g.edges, q, v)
  {
    var r := NewRun(g, placement);
    hide Acyclic;
    assert Bookkeeping(r);
    DispatchKeeps(cfg, sys.workers, now, r);
    SourcesSent(cfg, sys.workers, now, r);
    hide DispatchReady, WellFormed, Bookkeeping;
  }

  lemma SourcesSent(cfg: Config, workers: set<NodeId>, now: real, r: Run)
    requires Bookkeeping(r) && r.completed == {} && r.dispatched == {} && r.skipped == {}
    requires r.placement.Values <= workers
    ensures forall v :: v in DispatchReady(cfg, workers, now, r).dispatched <==>
      v in r.g.ids && forall q :: !HasEdge(r.g.edges, q, v)
  {
    var after := DispatchReady(cfg, workers, now, r);
    hide Acyclic, WellFormed;
    DispatchKeeps(cfg, workers, now, r);
    forall v ensures AllIn(Preds(r.g.edges, v), {}) <==> forall q :: !HasEdge(r.g.edges, q, v) {
      forall q ensures q in Preds(r.g.edges, v) <==> HasEdge(r.g.edges, q, v) { Adjacent(r.g.edges, q, v); }
    }
    hide DispatchReady, HasEdge;
    forall v | v in after.dispatched ensures AllIn(Preds(r.g.edges, v), {}) && v in r.g.ids {
      assert Supplied(after, v);
      assert v in r.All();
    }
  }

  // Any other one is dispatched from an empty record.
  lemma PublishRecord(cfg: Config, sys: System, pid: PipelineId, g: Graph, placement: Placement, now: real)
    requires sys.workers != {}
    ensures var after := Apply(cfg, sys, Publish(pid, g, placement, now));
            var last := DispatchReady(cfg, sys.workers, now, Run(g, placement, {}, {}, {}, false, false, None));
      && after.issued == sys.issued + {pid} && after.delivered == sys.delivered
      && (pid in after.active <==> !last.failed) && (pid in after.active ==> after.active[pid] == last)
  {
    hide DispatchReady;
  }

  // Without workers a pipeline is not admitted.
  lemma PublishRefused(cfg: Config, sys: System, pid: PipelineId, g: Graph, placement: Placement, now: real)
    requires sys.workers == {}
    ensures Apply(cfg, sys, Publish(pid, g, placement, now)) == sys
  {}

  // Re-placed stages get their new workers, the others keep theirs, and no progress is lost.
  lemma ReplacedEffect(cfg: Config, sys: System, pid: PipelineId, moved: Placement, now: real)
    requires SystemInv(sys) && pid in sys.active && pid in Apply(cfg, sys, Replaced(pid, moved, now)).active
    ensures var r, after := sys.active[pid], Apply(cfg, sys, Replaced(pid, moved, now)).active[pid];
      && after.g == r.g && after.completed == r.completed && r.dispatched <= after.dispatched
      && (forall s :: s in after.placement <==> s in r.placement || s in moved)
      && (forall s :: s in after.placement ==> after.placement[s] == if s in moved then moved[s] else r.placement[s])
  {
    hide *;
    ActiveInv(sys, pid);
    ReplacedRecord(cfg, sys, pid, moved, now);
    ReplacedKept(cfg, sys.workers, now, sys.active[pid], moved);
  }

  lemma ActiveInv(sys: System, pid: PipelineId)
    requires SystemInv(sys) && pid in sys.active
    ensures RunInv(sys.active[pid])
  {
    hide RunInv;
  }

  function Rerouted(r: Run, moved: Placement): Run {
    r.(placement := r.placement + moved)
  }

  lemma ReplacedRecord(cfg: Config, sys: System, pid: PipelineId, moved: Placement, now: real)
    requires pid in sys.active && pid in Apply(cfg, sys, Replaced(pid, moved, now)).active
    ensures Apply(cfg, sys, Replaced(pid, moved, now)).active[pid]
      == DispatchReady(cfg, sys.workers, now, Rerouted(sys.active[pid], moved))
    ensures !DispatchReady(cfg, sys.workers, now, Rerouted(sys.active[pid], moved)).failed
  {
    hide DispatchReady;
  }

  lemma ReplacedKept(cfg: Config, workers: set<NodeId>, now: real, r: Run, moved: Placement)
    requires RunInv(r) && !DispatchReady(cfg, workers, now, Rerouted(r, moved)).failed
    ensures var after := DispatchReady(cfg, workers, now, Rerouted(r, moved));
      && after.g == r.g && after.completed == r.completed && r.dispatched <= after.dispatched
      && (forall s :: s in after.placement <==> s in r.placement || s in moved)
      && (forall s :: s in after.placement ==> after.placement[s] == if s in moved then moved[s] else r.placement[s])
  {
    hide Acyclic, FrontierSent, SentSupplied;
    ReplacedBook(r, moved);
    DispatchKeeps(cfg, workers, now, Rerouted(r, moved));
    hide DispatchReady, Bookkeeping;
  }

  // stage is the last one that has not completed.
  ghost predicate Finishes(r: Run, stage: StageId) {
    forall s :: s in r.g.ids <==> s in r.completed || s == stage
  }

  lemma FinishesExactly(r: Run, stage: StageId)
    ensures r.completed + {stage} == r.All() <==> Finishes(r, stage)
  {
    if Finishes(r, stage) {
      assert r.completed + {stage} == r.All();
    } else {
      var s :| !(s in r.g.ids <==> s in r.completed || s == stage);
      assert s in r.completed + {stage} <==> s !in r.All();
    }
  }

  // A success that is not the last one is added to the record, and then the record is dispatched.
  lemma ResultRecord(cfg: Config, sys: System, pid: PipelineId, stage: StageId, now: real)
    requires SystemInv(sys) && pid in sys.active && !Finishes(sys.active[pid], stage)
    ensures var r, after := sys.active[pid].(completed := sys.active[pid].completed + {stage}),
                            Apply(cfg, sys, StageResult(pid, stage, true, now));
      && (pid in after.active <==> !DispatchReady(cfg, sys.workers, now, r).failed)
      && (pid in after.active ==> after.active[pid] == DispatchReady(cfg, sys.workers, now, r))
      && ResultSends(cfg, sys, pid, stage, true, now) == ReadyToSend(cfg, sys.workers, now, r)
  {
    assert RunInv(sys.active[pid]) && !sys.active[pid].failed;
    hide DispatchReady, RunInv, Finishes, ReadyToSend;
    FinishesExactly(sys.active[pid], stage);
  }

  // So in wait and abort mode a result fails the pipeline exactly when a fan-in is cut off
  // and the policy is overdue, and otherwise sends exactly what is now due.
  lemma ResultExactly(cfg: Config, sys: System, pid: PipelineId, stage: StageId, now: real)
    requires cfg.mode != Proceed && SystemInv(sys) && pid in sys.active && !Finishes(sys.active[pid], stage)
    ensures var r, after := sys.active[pid].(completed := sys.active[pid].completed + {stage}),
                            Apply(cfg, sys, StageResult(pid, stage, true, now));
      && (pid in after.active <==> !(Overdue(cfg, r, now) && exists v :: Cut(r, sys.workers, v)))
      && (forall v :: v in ResultSends(cfg, sys, pid, stage, true, now) <==> pid in after.active && Due(r, v))
      && (pid in after.active ==>
            && after.active[pid].completed == r.completed && after.active[pid].skipped == r.skipped
            && forall v :: v in after.active[pid].dispatched <==> v in r.dispatched || Due(r, v))
  {
    var r := sys.active[pid].(completed := sys.active[pid].completed + {stage});
    ResultRecord(cfg, sys, pid, stage, now);
    assert RunInv(sys.active[pid]) && !r.failed && Distinct(r.g.ids);
    FailsExactly(cfg, sys.workers, now, r);
    DispatchKeepsRecord(cfg, sys.workers, now, r);
    if !DispatchReady(cfg, sys.workers, now, r).failed { SendsExactly(cfg, sys.workers, now, r); }
    hide DispatchReady, Apply, ResultSends, RunInv, Cut, Due, Overdue;
  }

  lemma DispatchKeepsRecord(cfg: Config, workers: set<NodeId>, now: real, r: Run)
    ensures var after := DispatchReady(cfg, workers, now, r);
      after.g == r.g && after.placement == r.placement && after.completed == r.completed
    ensures DispatchReady(cfg, workers, now, r).failed ==> ReadyToSend(cfg, workers, now, r) == []
  {
    ScanSetting(cfg, DeadWorkers(r, workers), now, r, r.g.ids);
    hide ScanStages;
  }

  // The answer to a result tells what became of the pipeline: complete when this was the
  // last stage and it is now delivered, failed when the report was a failure and it is gone.
  lemma StatusTells(cfg: Config, sys: System, pid: PipelineId, stage: StageId, success: bool, now: real)
    requires SystemInv(sys)
    ensures var status, after := ResultStatus(sys, pid, stage, success),
                                 Apply(cfg, sys, StageResult(pid, stage, success, now));
      && (status == UnknownPipeline <==> pid !in sys.active)
      && (status == PipelineFailed <==> pid in sys.active && !success)
      && (status == PipelineComplete <==> pid in sys.active && success && Finishes(sys.active[pid], stage))
      && (status == UnknownPipeline ==> after == sys)
      && (status == PipelineFailed ==> pid !in after.active && after.delivered == sys.delivered)
      && (status == PipelineComplete ==> pid !in after.active && after.delivered == sys.delivered + {pid})
      && (status == StageRecorded ==> after.delivered == sys.delivered)
  {
    if pid in sys.active { assert RunInv(sys.active[pid]) && !sys.active[pid].failed; }
    hide DispatchReady, RunInv, Finishes;
    if pid in sys.active { FinishesExactly(sys.active[pid], stage); }
  }
}
