// When the market respects the declared domain of a stage: a condition on prices alone.
module MarketSovereignty {
  import opened Wrappers
  import opened Minima
  import opened Sequences
  import opened Graphs
  import opened Topologies
  import opened Feasibility
  import opened Market
  import opened Samples
  import Greedy

  // The same price table seen from the same domain.
  ghost predicate SamePrices(ex: Exchange, other: Exchange) {
    other.domains == ex.domains && other.prices == ex.prices && other.wan == ex.wan && other.local == ex.local
  }

  // p is what the market answers.
  ghost predicate Answers(ex: Exchange, budget: Option<real>, p: Placement) {
    && ValidProblem(ex.pr) && (forall s :: s in ex.pr.g.ids ==> s in ex.pr.g.stages)
    && Answer(budget, TradeAll(ex, ex.pr.g.ids)) == Some(p)
  }

  ghost predicate Declares(stage: Stage, stageType: string, domain: string) {
    stage.stageType == stageType && stage.domain == Some(domain)
  }

  // Stages of the type declaring the domain are placed within it.
  ghost predicate Respected(pr: Problem, p: Placement, stageType: string, domain: string) {
    forall s :: s in p && s in pr.g.stages && p[s] in NodeIds(pr.t) && Declares(pr.g.stages[s], stageType, domain) ==>
      SovereigntyHolds(pr.g.stages[s], GetNode(pr.t, p[s]))
  }

  // Every answer at these prices respects the declaration: whatever the pipeline, the
  // network, its loads, the rules, the pick of workers and the budget.
  ghost predicate AlwaysRespected(ex: Exchange, stageType: string, domain: string) {
    forall other, budget, p :: SamePrices(ex, other) && Answers(other, budget, p) ==>
      Respected(other.pr, p, stageType, domain)
  }

  // No remote price plus WAN undercuts the local price.
  ghost predicate NeverUndercut(ex: Exchange, stageType: string) {
    forall d :: d in ex.domains && d != ex.local ==>
      !ShouldTrade(PriceIn(ex, ex.local, stageType), PriceIn(ex, d, stageType), ex.wan)
  }

  lemma StaysLocal(ex: Exchange, stageType: string)
    ensures Choose(ex, stageType).domain == ex.local <==> NeverUndercut(ex, stageType)
  {
    var scores := RemoteScores(ex, stageType);
    ArgMinLeast(scores);
    var best := ArgMin(scores);
    if best.Some? {
      var d := ex.domains[best.value];
      assert scores[best.value] == RemoteScore(ex, stageType, d) && scores[best.value].Fin?;
      assert d in ex.domains;
    } else {
      forall d | d in ex.domains ensures RemoteScore(ex, stageType, d).Inf? {
        var i :| 0 <= i < |ex.domains| && ex.domains[i] == d;
        assert scores[i].Inf?;
      }
      forall d | d in ex.domains && d != ex.local
        ensures !ShouldTrade(PriceIn(ex, ex.local, stageType), PriceIn(ex, d, stageType), ex.wan)
      {
        assert RemoteScore(ex, stageType, d).Inf?;
      }
    }
  }

  lemma ChoiceByPrices(ex: Exchange, other: Exchange, stageType: string)
    requires SamePrices(ex, other)
    ensures Choose(other, stageType) == Choose(ex, stageType)
  {
    assert RemoteScores(ex, stageType) == RemoteScores(other, stageType);
  }

  // ---------------------------------------------------------------- chosen domain or local

  // s is on a worker of its chosen domain or of the local one.
  ghost predicate HomeOrChosen(ex: Exchange, p: Placement, s: StageId)
    requires s in p && s in ex.pr.g.stages
  {
    exists w :: w in ex.pr.t.nodes && w.nodeId == p[s] &&
      (w.domain == ex.local || w.domain == Choose(ex, ex.pr.g.stages[s].stageType).domain)
  }

  lemma TradedWithin(ex: Exchange, st: Account, stage: Stage) returns (w: Unit)
    requires Trade(ex, st, stage).Some?
    ensures Trade(ex, st, stage).value.p == st.p[stage.id := w.nodeId] && w in ex.pr.t.nodes
    ensures w.domain == ex.local || w.domain == Choose(ex, stage.stageType).domain
  {
    hide Choose, Pick;
    var c := Choose(ex, stage.stageType);
    PickMeaning(ex, c.domain, stage.demand, st.load);
    PickMeaning(ex, ex.local, stage.demand, st.load);
    var chosen := Pick(ex, c.domain, stage.demand, st.load);
    w := if chosen.Some? then chosen.value else Pick(ex, ex.local, stage.demand, st.load).value;
  }

  lemma {:induction false} RunWithin(ex: Exchange, ids: seq<StageId>)
    requires (forall s :: s in ids ==> s in ex.pr.g.stages && ex.pr.g.stages[s].id == s) && TradeAll(ex, ids).Some?
    ensures var p := TradeAll(ex, ids).value.p;
      forall s :: s in p ==> s in ex.pr.g.stages && HomeOrChosen(ex, p, s)
  {
    if ids != [] {
      hide Choose, Trade;
      var n := |ids| - 1;
      RunWithin(ex, ids[..n]);
      var st, stage := TradeAll(ex, ids[..n]).value, ex.pr.g.stages[ids[n]];
      var w := TradedWithin(ex, st, stage);
      var p := TradeAll(ex, ids).value.p;
      forall s | s in p ensures s in ex.pr.g.stages && HomeOrChosen(ex, p, s) {
        if s != stage.id { assert HomeOrChosen(ex, st.p, s); }
      }
    }
  }

  lemma LocalRespects(ex: Exchange, other: Exchange, budget: Option<real>, p: Placement, stageType: string)
    requires SamePrices(ex, other) && Answers(other, budget, p) && Choose(ex, stageType).domain == ex.local
    ensures Respected(other.pr, p, stageType, ex.local)
  {
    hide Choose, TradeAll;
    RunWithin(other, other.pr.g.ids);
    ChoiceByPrices(ex, other, stageType);
    var pr := other.pr;
    forall s | s in p && s in pr.g.stages && p[s] in NodeIds(pr.t) && pr.g.stages[s].stageType == stageType
      ensures DomainOf(pr, p[s]) == ex.local
    {
      assert HomeOrChosen(other, p, s);
      var w :| w in pr.t.nodes && w.nodeId == p[s] && w.domain == ex.local;
      Greedy.KnownNode(pr.t, w);
    }
  }

  // ---------------------------------------------------------------- one stage, one worker

  const STAGE: StageId := "s"
  const WORKER: NodeId := "w"

  // A stage of the type declaring the domain, and a single idle worker at home in host.
  function OneWorker(ex: Exchange, stageType: string, domain: string, host: string): Exchange {
    ex.(pr := Problem(Graph([STAGE], map[STAGE := Stage(STAGE, stageType, 0.0, None, Some(domain))], []),
                      Topology([Unit(WORKER, host, "flat", 1.0, 0.0, None)], map[]),
                      Governance({}, map[]), FREE_OF_CHARGE), loadAware := false)
  }

  lemma OneWorkerValid(ex: Exchange, stageType: string, domain: string, host: string)
    ensures var pr := OneWorker(ex, stageType, domain, host).pr;
      && ValidProblem(pr) && NodeIds(pr.t) == [WORKER] && GetNode(pr.t, WORKER) == pr.t.nodes[0]
  {
    var pr := OneWorker(ex, stageType, domain, host).pr;
    assert NodeIds(pr.t) == [WORKER];
    assert pr.g.stages.Keys == {STAGE} == ToSet(pr.g.ids);
  }

  lemma OnlyPick(ex: Exchange, stageType: string, domain: string, host: string, where: string)
    ensures var one := OneWorker(ex, stageType, domain, host);
      Pick(one, where, 0.0, map[]) == if where == host then Some(one.pr.t.nodes[0]) else None
  {
    var one := OneWorker(ex, stageType, domain, host);
    assert one.pr.t.nodes[..0] == [];
    assert Candidates(one.pr.t.nodes, where, 0.0, map[]) == if where == host then one.pr.t.nodes else [];
  }

  // The worker is used whenever it is in the chosen or in the local domain.
  lemma OneWorkerAnswers(ex: Exchange, stageType: string, domain: string, host: string)
    requires host == ex.local || host == Choose(ex, stageType).domain
    ensures Answers(OneWorker(ex, stageType, domain, host), None, map[STAGE := WORKER])
  {
    var one := OneWorker(ex, stageType, domain, host);
    OneWorkerValid(ex, stageType, domain, host);
    ChoiceByPrices(ex, one, stageType);
    OnlyPick(ex, stageType, domain, host, Choose(one, stageType).domain);
    OnlyPick(ex, stageType, domain, host, ex.local);
    hide Choose, Pick, ValidProblem;
    NoFallback(one, one.pr.g.stages[STAGE], map[]);
    assert [STAGE][..0] == [];
    assert TradeAll(one, [STAGE][..0]) == Some(Account(map[], map[], Fin(0.0)));
  }

  lemma OneWorkerRespects(ex: Exchange, stageType: string, domain: string, host: string)
    requires AlwaysRespected(ex, stageType, domain) && (host == ex.local || host == Choose(ex, stageType).domain)
    ensures host == domain
  {
    var one, p := OneWorker(ex, stageType, domain, host), map[STAGE := WORKER];
    OneWorkerValid(ex, stageType, domain, host);
    OneWorkerAnswers(ex, stageType, domain, host);
    hide Answers, Choose;
    assert SamePrices(ex, one);
    assert Respected(one.pr, p, stageType, domain);
    assert STAGE in p && STAGE in one.pr.g.stages;
  }

  // The market respects a declared domain in all its answers exactly when that domain is
  // the local one and no remote price plus WAN undercuts the local price.
  lemma SovereigntyExactly(ex: Exchange, stageType: string, domain: string)
    ensures AlwaysRespected(ex, stageType, domain) <==> domain == ex.local && NeverUndercut(ex, stageType)
  {
    StaysLocal(ex, stageType);
    hide Choose, NeverUndercut;
    if AlwaysRespected(ex, stageType, domain) {
      OneWorkerRespects(ex, stageType, domain, ex.local);
      OneWorkerRespects(ex, stageType, domain, Choose(ex, stageType).domain);
    }
    if domain == ex.local && NeverUndercut(ex, stageType) {
      forall other, budget, p | SamePrices(ex, other) && Answers(other, budget, p)
        ensures Respected(other.pr, p, stageType, domain)
      {
        LocalRespects(ex, other, budget, p, stageType);
      }
    }
  }
}
