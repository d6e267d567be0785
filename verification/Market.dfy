// Market placement: each stage goes to the cheapest domain, local unless a remote price
// plus the WAN cost is strictly lower, under a ledger of committed load and a budget.
module Market {
  import opened Wrappers
  import opened Minima
  import opened Sequences
  import opened Graphs
  import opened Topologies
  import opened Feasibility
  import opened PipelineDags
  import opened Clearing
  import Greedy

  // domains lists the keys of prices in the order the price table is iterated.
  datatype Exchange = Exchange(pr: Problem, domains: seq<string>, prices: DomainPrices, wan: real, local: string,
                               loadAware: bool)

  ghost predicate ListsPrices(ex: Exchange) {
    Distinct(ex.domains) && ToSet(ex.domains) == ex.prices.Keys
  }

  function PriceIn(ex: Exchange, domain: string, stageType: string): Ext {
    var p := PriceAt(ex.prices, domain, stageType);
    if p.Some? then Fin(p.value) else Inf
  }

  // should_trade_cross_domain
  predicate ShouldTrade(localPrice: Ext, remotePrice: Ext, wan: real) {
    Less(Plus(remotePrice, Fin(wan)), localPrice)
  }

  // ---------------------------------------------------------------- choosing a domain

  function RemoteScore(ex: Exchange, stageType: string, domain: string): Ext {
    if domain != ex.local && ShouldTrade(PriceIn(ex, ex.local, stageType), PriceIn(ex, domain, stageType), ex.wan)
    then PriceIn(ex, domain, stageType) else Inf
  }

  function RemoteScores(ex: Exchange, stageType: string): seq<Ext> {
    seq(|ex.domains|, i requires 0 <= i < |ex.domains| => RemoteScore(ex, stageType, ex.domains[i]))
  }

  datatype Choice = Choice(domain: string, cost: Ext)

  // The first domain with the smallest profitable remote price, else the local domain.
  function Choose(ex: Exchange, stageType: string): Choice {
    var best := ArgMin(RemoteScores(ex, stageType));
    if best.Some? then Choice(ex.domains[best.value], Plus(PriceIn(ex, ex.domains[best.value], stageType), Fin(ex.wan)))
    else Choice(ex.local, PriceIn(ex, ex.local, stageType))
  }

  method ChooseDomain(ex: Exchange, stageType: string) returns (c: Choice)
    ensures c == Choose(ex, stageType)
  {
    var localPrice := PriceIn(ex, ex.local, stageType);
    var best: Option<nat> := None;
    var bestPrice := Inf;
    ghost var scores := RemoteScores(ex, stageType);
    var i := 0;
    while i < |ex.domains|
      invariant 0 <= i <= |ex.domains|
      invariant best == ArgMin(scores[..i]) && bestPrice == Score(scores[..i], best)
      invariant best.Some? ==> scores[best.value] == PriceIn(ex, ex.domains[best.value], stageType)
    {
      ArgMinStep(scores, i);
      TakeStep(scores, i);
      var domain := ex.domains[i];
      if domain != ex.local {
        var remotePrice := PriceIn(ex, domain, stageType);
        if ShouldTrade(localPrice, remotePrice, ex.wan) {
          if Less(Plus(remotePrice, Fin(ex.wan)), Plus(bestPrice, Fin(ex.wan))) {
            best := Some(i);
            bestPrice := remotePrice;
          }
        }
      }
      i := i + 1;
    }
    TakeAll(scores);
    if best.Some? {
      return Choice(ex.domains[best.value], Plus(bestPrice, Fin(ex.wan)));
    }
    return Choice(ex.local, localPrice);
  }

  // The chosen price is the least of the local price and every remote price plus WAN, of
  // every domain with a price at all; ties stay local.
  lemma ChoiceIsCheapest(ex: Exchange, stageType: string)
    ensures var c := Choose(ex, stageType);
      && AtMost(c.cost, PriceIn(ex, ex.local, stageType))
      && (forall d :: d in ex.domains && d != ex.local ==> AtMost(c.cost, Plus(PriceIn(ex, d, stageType), Fin(ex.wan))))
      && (c.domain != ex.local ==> Less(c.cost, PriceIn(ex, ex.local, stageType)))
      && (c.domain != ex.local ==> c.cost == Plus(PriceIn(ex, c.domain, stageType), Fin(ex.wan)))
      && (c.domain == ex.local ==> c.cost == PriceIn(ex, ex.local, stageType))
    ensures ListsPrices(ex) ==>
      forall d :: d != ex.local ==> AtMost(Choose(ex, stageType).cost, Plus(PriceIn(ex, d, stageType), Fin(ex.wan)))
  {
    var scores := RemoteScores(ex, stageType);
    ArgMinLeast(scores);
    if ListsPrices(ex) {
      forall d | d !in ex.domains ensures PriceIn(ex, d, stageType).Inf? { assert d !in ToSet(ex.domains); }
    }
    forall d | d in ex.domains && d != ex.local
      ensures AtMost(Choose(ex, stageType).cost, Plus(PriceIn(ex, d, stageType), Fin(ex.wan)))
    {
      var i :| 0 <= i < |ex.domains| && ex.domains[i] == d;
      assert scores[i] == RemoteScore(ex, stageType, d);
      assert AtMost(Score(scores, ArgMin(scores)), scores[i]);
    }
  }

  // ---------------------------------------------------------------- picking a worker

  predicate Able(w: Unit, domain: string, demand: real, load: map<NodeId, real>) {
    w.domain == domain && w.Residual() - LoadEntry(load, w.nodeId) >= demand
  }

  function Candidates(nodes: seq<Unit>, domain: string, demand: real, load: map<NodeId, real>): seq<Unit> {
    if nodes == [] then []
    else
      Candidates(nodes[..|nodes|-1], domain, demand, load)
      + if Able(nodes[|nodes|-1], domain, demand, load) then [nodes[|nodes|-1]] else []
  }

  lemma {:induction false} CandidatesMeaning(nodes: seq<Unit>, domain: string, demand: real, load: map<NodeId, real>)
    ensures forall w :: w in Candidates(nodes, domain, demand, load) <==> w in nodes && Able(w, domain, demand, load)
  {
    if nodes != [] {
      var n := |nodes| - 1;
      CandidatesMeaning(nodes[..n], domain, demand, load);
      assert forall w :: w in nodes <==> w in nodes[..n] || w == nodes[n];
    }
  }

  function LoadScores(ws: seq<Unit>, load: map<NodeId, real>): seq<Ext> {
    seq(|ws|, i requires 0 <= i < |ws| => Fin(ws[i].load + LoadEntry(load, ws[i].nodeId)))
  }

  // The least loaded candidate when loadAware, otherwise the first.
  function Pick(ex: Exchange, domain: string, demand: real, load: map<NodeId, real>): Option<Unit> {
    var ws := Candidates(ex.pr.t.nodes, domain, demand, load);
    if ws == [] then None
    else if !ex.loadAware then Some(ws[0])
    else
      var best := ArgMin(LoadScores(ws, load));
      if best.Some? then Some(ws[best.value]) else None
  }

  lemma PickMeaning(ex: Exchange, domain: string, demand: real, load: map<NodeId, real>)
    ensures var r := Pick(ex, domain, demand, load);
      && (r.None? <==> forall w :: w in ex.pr.t.nodes ==> !Able(w, domain, demand, load))
      && (r.Some? ==> r.value in ex.pr.t.nodes && Able(r.value, domain, demand, load))
      && (r.Some? && ex.loadAware ==>
            forall w :: w in ex.pr.t.nodes && Able(w, domain, demand, load) ==>
              r.value.load + LoadEntry(load, r.value.nodeId) <= w.load + LoadEntry(load, w.nodeId))
  {
    var ws := Candidates(ex.pr.t.nodes, domain, demand, load);
    CandidatesMeaning(ex.pr.t.nodes, domain, demand, load);
    var scores := LoadScores(ws, load);
    ArgMinLeast(scores);
    if ws != [] {
      assert scores[0].Fin? && ws[0] in ws;
      forall w | w in ws && ex.loadAware
        ensures ws[ArgMin(scores).value].load + LoadEntry(load, ws[ArgMin(scores).value].nodeId)
          <= w.load + LoadEntry(load, w.nodeId)
      {
        var i :| 0 <= i < |ws| && ws[i] == w;
        assert AtMost(Score(scores, ArgMin(scores)), scores[i]);
      }
    }
  }

  // ---------------------------------------------------------------- the run

  datatype Account = Account(p: Placement, load: map<NodeId, real>, total: Ext)

  function Assigned(st: Account, stage: Stage, w: Unit, total: Ext): Account {
    Account(st.p[stage.id := w.nodeId], st.load[w.nodeId := LoadEntry(st.load, w.nodeId) + stage.demand], total)
  }

  function Minus(a: Ext, b: Ext): Ext
    requires b.Fin?
  {
    if a.Fin? then Fin(a.r - b.r) else Inf
  }

  // Only a remote choice, whose price is finite, can fall back to the local domain.
  lemma NoFallback(ex: Exchange, stage: Stage, load: map<NodeId, real>)
    ensures var c := Choose(ex, stage.stageType);
      Pick(ex, c.domain, stage.demand, load).None? && Pick(ex, ex.local, stage.demand, load).Some? ==> c.cost.Fin?
  {
    ChoiceIsCheapest(ex, stage.stageType);
  }

  // One stage: its chosen domain, else the local domain with the price swapped.
  function Trade(ex: Exchange, st: Account, stage: Stage): Option<Account> {
    var c := Choose(ex, stage.stageType);
    var w := Pick(ex, c.domain, stage.demand, st.load);
    var paid := Plus(st.total, c.cost);
    if w.Some? then Some(Assigned(st, stage, w.value, paid))
    else
      var v := Pick(ex, ex.local, stage.demand, st.load);
      NoFallback(ex, stage, st.load);
      if v.Some? then
        Some(Assigned(st, stage, v.value, Plus(Minus(paid, c.cost), PriceIn(ex, ex.local, stage.stageType))))
      else None
  }

  function TradeAll(ex: Exchange, ids: seq<StageId>): Option<Account>
    requires forall s :: s in ids ==> s in ex.pr.g.stages
  {
    if ids == [] then Some(Account(map[], map[], Fin(0.0)))
    else
      var st := TradeAll(ex, ids[..|ids|-1]);
      if st.None? then None else Trade(ex, st.value, ex.pr.g.stages[ids[|ids|-1]])
  }

  function Answer(budget: Option<real>, st: Option<Account>): Option<Placement> {
    if st.Some? && Affordable(budget, st.value.total) then Some(st.value.p) else None
  }

  method PickWorker(ex: Exchange, domain: string, demand: real, load: map<NodeId, real>) returns (r: Option<Unit>)
    ensures r == Pick(ex, domain, demand, load)
  {
    var nodes := ex.pr.t.nodes;
    var ws: seq<Unit> := [];
    var i := 0;
    while i < |nodes|
      invariant 0 <= i <= |nodes|
      invariant ws == Candidates(nodes[..i], domain, demand, load)
    {
      assert nodes[..i+1][..i] == nodes[..i];
      if nodes[i].domain == domain && nodes[i].Residual() - LoadEntry(load, nodes[i].nodeId) >= demand {
        ws := ws + [nodes[i]];
      }
      i := i + 1;
    }
    TakeAll(nodes);
    if |ws| == 0 {
      return None;
    }
    if !ex.loadAware {
      return Some(ws[0]);
    }
    r := LeastLoaded(ws, load);
  }

  // min(candidates, key=_effective_current_load)
  method LeastLoaded(ws: seq<Unit>, load: map<NodeId, real>) returns (r: Option<Unit>)
    ensures var best := ArgMin(LoadScores(ws, load)); r == if best.Some? then Some(ws[best.value]) else None
  {
    ghost var scores := LoadScores(ws, load);
    var best: Option<nat> := None;
    var i := 0;
    while i < |ws|
      invariant 0 <= i <= |ws|
      invariant best == ArgMin(scores[..i])
    {
      ArgMinStep(scores, i);
      if best.None?
        || ws[i].load + LoadEntry(load, ws[i].nodeId)
           < ws[best.value].load + LoadEntry(load, ws[best.value].nodeId)
      {
        best := Some(i);
      }
      i := i + 1;
    }
    TakeAll(scores);
    return if best.Some? then Some(ws[best.value]) else None;
  }

  // The body of the stage loop.
  method TradeStage(ex: Exchange, st: Account, stage: Stage) returns (after: Option<Account>)
    ensures after == Trade(ex, st, stage)
  {
    hide Choose, Pick;
    var localPrice := PriceIn(ex, ex.local, stage.stageType);
    var choice := ChooseDomain(ex, stage.stageType);
    var total := Plus(st.total, choice.cost);
    var w := PickWorker(ex, choice.domain, stage.demand, st.load);
    if w.None? {
      NoFallback(ex, stage, st.load);
      w := PickWorker(ex, ex.local, stage.demand, st.load);
      if w.None? {
        return None;
      }
      total := Plus(Minus(total, choice.cost), localPrice);
    }
    return Some(Account(st.p[stage.id := w.value.nodeId],
                        st.load[w.value.nodeId := LoadEntry(st.load, w.value.nodeId) + stage.demand], total));
  }

  // market_mode_placement
  method MarketPlacement(dag: PipelineDAG, ex: Exchange) returns (r: Option<Placement>)
    requires dag.Consistent() && ex.pr.g == dag.View()
    ensures forall s :: s in ex.pr.g.ids ==> s in ex.pr.g.stages
    ensures r == Answer(dag.valueBudget, TradeAll(ex, ex.pr.g.ids))
  {
    hide Trade;
    var ids := ex.pr.g.ids;
    forall s | s in ids ensures s in ex.pr.g.stages { assert s in ToSet(ids); }
    var st := Account(map[], map[], Fin(0.0));
    var k := 0;
    while k < |ids|
      invariant 0 <= k <= |ids|
      invariant TradeAll(ex, ids[..k]) == Some(st)
    {
      assert ids[..k+1][..k] == ids[..k];
      var after := TradeStage(ex, st, ex.pr.g.stages[ids[k]]);
      if after.None? {
        StuckForGood(ex, ids, k);
        return None;
      }
      st := after.value;
      k := k + 1;
    }
    TakeAll(ids);
    if !dag.AcceptsCost(st.total) {
      return None;
    }
    return Some(st.p);
  }

  lemma {:induction false} StuckForGood(ex: Exchange, ids: seq<StageId>, k: nat)
    requires forall s :: s in ids ==> s in ex.pr.g.stages
    requires k < |ids| && TradeAll(ex, ids[..k+1]).None?
    ensures TradeAll(ex, ids).None?
    decreases |ids|
  {
    TakeAll(ids);
    if k + 1 < |ids| {
      assert ids[..|ids|-1][..k+1] == ids[..k+1];
      StuckForGood(ex, ids[..|ids|-1], k);
    }
  }

  // ---------------------------------------------------------------- accounting

  function SumExt(xs: seq<StageId>, f: StageId -> Ext): Ext {
    if xs == [] then Fin(0.0) else Plus(SumExt(xs[..|xs|-1], f), f(xs[|xs|-1]))
  }

  lemma {:induction false} SumExtCong(xs: seq<StageId>, f: StageId -> Ext, g: StageId -> Ext)
    requires forall x :: x in xs ==> f(x) == g(x)
    ensures SumExt(xs, f) == SumExt(xs, g)
  {
    if xs != [] { SumExtCong(xs[..|xs|-1], f, g); }
  }

  lemma {:induction false} SumExtMonotone(xs: seq<StageId>, f: StageId -> Ext, g: StageId -> Ext)
    requires forall x :: x in xs ==> AtMost(f(x), g(x))
    ensures AtMost(SumExt(xs, f), SumExt(xs, g))
  {
    if xs != [] { SumExtMonotone(xs[..|xs|-1], f, g); }
  }

  // What a stage costs where p puts it: the local price, or the remote price plus WAN.
  function ChargeOf(ex: Exchange, p: Placement): StageId -> Ext {
    (s: StageId) =>
      if s in p && s in ex.pr.g.stages && p[s] in NodeIds(ex.pr.t) then
        var d := DomainOf(ex.pr, p[s]);
        if d == ex.local then PriceIn(ex, d, ex.pr.g.stages[s].stageType)
        else Plus(PriceIn(ex, d, ex.pr.g.stages[s].stageType), Fin(ex.wan))
      else Inf
  }

  function LocalPrices(ex: Exchange): StageId -> Ext {
    (s: StageId) => if s in ex.pr.g.stages then PriceIn(ex, ex.local, ex.pr.g.stages[s].stageType) else Inf
  }

  // The account agrees with the placement: charges, loads and residuals.
  ghost predicate Settled(ex: Exchange, ids: seq<StageId>, st: Account) {
    && Assigns(ex.pr, st.p) && st.p.Keys == ToSet(ids)
    && st.total == SumExt(ids, ChargeOf(ex, st.p))
    && (forall n :: LoadEntry(st.load, n) == NodeLoad(ex.pr, st.p, n))
    && (forall s :: s in st.p ==> StageSettled(ex, st.p, s))
  }

  ghost predicate StageSettled(ex: Exchange, p: Placement, s: StageId)
    requires Assigns(ex.pr, p) && s in p
  {
    && NodeLoad(ex.pr, p, p[s]) <= GetNode(ex.pr.t, p[s]).Residual()
    && AtMost(ChargeOf(ex, p)(s), LocalPrices(ex)(s))
  }

  // Adding a stage on an able worker, for its charge.
  ghost predicate FairStep(ex: Exchange, st: Account, stage: Stage, w: Unit, after: Account) {
    && w in ex.pr.t.nodes && Able(w, w.domain, stage.demand, st.load)
    && after.p == st.p[stage.id := w.nodeId]
    && after.load == st.load[w.nodeId := LoadEntry(st.load, w.nodeId) + stage.demand]
    && var charge := if w.domain == ex.local then PriceIn(ex, w.domain, stage.stageType)
                     else Plus(PriceIn(ex, w.domain, stage.stageType), Fin(ex.wan));
       after.total == Plus(st.total, charge) && AtMost(charge, PriceIn(ex, ex.local, stage.stageType))
  }

  lemma TradeIsFair(ex: Exchange, st: Account, stage: Stage) returns (w: Unit)
    requires Trade(ex, st, stage).Some?
    ensures FairStep(ex, st, stage, w, Trade(ex, st, stage).value)
  {
    hide Choose, Pick;
    var c := Choose(ex, stage.stageType);
    ChoiceIsCheapest(ex, stage.stageType);
    PickMeaning(ex, c.domain, stage.demand, st.load);
    PickMeaning(ex, ex.local, stage.demand, st.load);
    var chosen := Pick(ex, c.domain, stage.demand, st.load);
    w := if chosen.Some? then chosen.value else Pick(ex, ex.local, stage.demand, st.load).value;
  }

  lemma ChargeKept(ex: Exchange, st: Account, s: StageId, w: Unit, after: Account, u: StageId)
    requires s in ex.pr.g.stages && ex.pr.g.stages[s].id == s && u != s && FairStep(ex, st, ex.pr.g.stages[s], w, after)
    ensures ChargeOf(ex, st.p)(u) == ChargeOf(ex, after.p)(u)
  {}

  lemma ChargePaid(ex: Exchange, st: Account, s: StageId, w: Unit, after: Account)
    requires ValidProblem(ex.pr) && s in ex.pr.g.stages && FairStep(ex, st, ex.pr.g.stages[s], w, after)
    ensures after.total == Plus(st.total, ChargeOf(ex, after.p)(s))
  {
    Greedy.KnownNode(ex.pr.t, w);
  }

  // Earlier charges do not change when a stage is added.
  lemma FairTotal(ex: Exchange, ids: seq<StageId>, s: StageId, st: Account, w: Unit, after: Account)
    requires ValidProblem(ex.pr) && Settled(ex, ids, st) && s in ex.pr.g.stages && s !in ids
    requires FairStep(ex, st, ex.pr.g.stages[s], w, after)
    ensures after.total == SumExt(ids + [s], ChargeOf(ex, after.p))
  {
    hide NodeLoad, PriceIn, StageSettled, FairStep;
    assert s !in ToSet(ids);
    AppendSet(ids, s);
    forall u | u in ids ensures ChargeOf(ex, st.p)(u) == ChargeOf(ex, after.p)(u) {
      ChargeKept(ex, st, s, w, after, u);
    }
    SumExtCong(ids, ChargeOf(ex, st.p), ChargeOf(ex, after.p));
    ChargePaid(ex, st, s, w, after);
  }

  lemma FairLoads(ex: Exchange, st: Account, s: StageId, w: Unit, after: Account, n: NodeId)
    requires ValidProblem(ex.pr) && s in ex.pr.g.stages && s !in st.p && FairStep(ex, st, ex.pr.g.stages[s], w, after)
    requires forall m :: LoadEntry(st.load, m) == NodeLoad(ex.pr, st.p, m)
    ensures LoadEntry(after.load, n) == NodeLoad(ex.pr, after.p, n)
    ensures n != w.nodeId ==> NodeLoad(ex.pr, after.p, n) == NodeLoad(ex.pr, st.p, n)
    ensures NodeLoad(ex.pr, after.p, w.nodeId) <= w.Residual()
  {
    hide NodeLoad, PriceIn;
    Greedy.LoadExtends(ex.pr, st.p, s, w.nodeId, n);
    Greedy.LoadExtends(ex.pr, st.p, s, w.nodeId, w.nodeId);
    assert LoadEntry(st.load, n) == NodeLoad(ex.pr, st.p, n);
    assert LoadEntry(st.load, w.nodeId) == NodeLoad(ex.pr, st.p, w.nodeId);
  }

  lemma FairStage(ex: Exchange, st: Account, s: StageId, w: Unit, after: Account, u: StageId)
    requires ValidProblem(ex.pr) && s in ex.pr.g.stages && s !in st.p && FairStep(ex, st, ex.pr.g.stages[s], w, after)
    requires Assigns(ex.pr, st.p) && Assigns(ex.pr, after.p) && u in after.p
    requires (u in st.p ==> StageSettled(ex, st.p, u))
    requires forall m :: LoadEntry(st.load, m) == NodeLoad(ex.pr, st.p, m)
    ensures StageSettled(ex, after.p, u)
  {
    hide NodeLoad, PriceIn;
    Greedy.KnownNode(ex.pr.t, w);
    FairLoads(ex, st, s, w, after, after.p[u]);
  }

  lemma FairPlaces(ex: Exchange, ids: seq<StageId>, s: StageId, st: Account, w: Unit, after: Account)
    requires ValidProblem(ex.pr) && Assigns(ex.pr, st.p) && st.p.Keys == ToSet(ids) && s in ex.pr.g.stages && s !in ids
    requires FairStep(ex, st, ex.pr.g.stages[s], w, after)
    ensures Assigns(ex.pr, after.p) && after.p.Keys == ToSet(ids + [s]) && s !in st.p
  {
    Greedy.KnownNode(ex.pr.t, w);
    assert s !in ToSet(ids);
    AppendSet(ids, s);
  }

  lemma FairSettles(ex: Exchange, ids: seq<StageId>, s: StageId, st: Account, w: Unit, after: Account)
    requires ValidProblem(ex.pr) && Settled(ex, ids, st) && s in ex.pr.g.stages && s !in ids
    requires FairStep(ex, st, ex.pr.g.stages[s], w, after)
    ensures Settled(ex, ids + [s], after)
  {
    hide NodeLoad, PriceIn, StageSettled, FairStep, ChargeOf;
    FairPlaces(ex, ids, s, st, w, after);
    FairTotal(ex, ids, s, st, w, after);
    forall n ensures LoadEntry(after.load, n) == NodeLoad(ex.pr, after.p, n) { FairLoads(ex, st, s, w, after, n); }
    forall u | u in after.p ensures StageSettled(ex, after.p, u) { FairStage(ex, st, s, w, after, u); }
  }

  lemma {:induction false} RunSettles(ex: Exchange, ids: seq<StageId>)
    requires ValidProblem(ex.pr) && Distinct(ids) && (forall s :: s in ids ==> s in ex.pr.g.stages)
    requires TradeAll(ex, ids).Some?
    ensures Settled(ex, ids, TradeAll(ex, ids).value)
  {
    if ids == [] {
      forall n ensures NodeLoad(ex.pr, map[], n) == 0.0 { SumZero(ex.pr.g.ids, LoadOn(ex.pr, map[], n)); }
    } else {
      hide Settled, Trade, FairStep;
      var n := |ids| - 1;
      RunSettles(ex, ids[..n]);
      TakeStep(ids, n);
      assert ids[n] !in ids[..n];
      var st := TradeAll(ex, ids[..n]).value;
      var w := TradeIsFair(ex, st, ex.pr.g.stages[ids[n]]);
      FairSettles(ex, ids[..n], ids[n], st, w, TradeAll(ex, ids).value);
    }
  }

  // A returned placement hosts every stage within its worker's residual, and the total
  // tested against the budget is the sum of the charges of the final placement, local
  // fallbacks included, never more than the all-local price.
  lemma MarketAccounts(ex: Exchange, budget: Option<real>, p: Placement)
    requires ValidProblem(ex.pr) && (forall s :: s in ex.pr.g.ids ==> s in ex.pr.g.stages)
    requires Answer(budget, TradeAll(ex, ex.pr.g.ids)) == Some(p)
    ensures Total(ex.pr, p) && CapacityFeasible(ex.pr, p)
    ensures forall s :: s in p ==> NodeLoad(ex.pr, p, p[s]) <= GetNode(ex.pr.t, p[s]).Residual()
    ensures TradeAll(ex, ex.pr.g.ids).value.total == SumExt(ex.pr.g.ids, ChargeOf(ex, p))
    ensures Affordable(budget, SumExt(ex.pr.g.ids, ChargeOf(ex, p)))
    ensures AtMost(SumExt(ex.pr.g.ids, ChargeOf(ex, p)), SumExt(ex.pr.g.ids, LocalPrices(ex)))
  {
    hide NodeLoad, ChargeOf, LocalPrices;
    var ids := ex.pr.g.ids;
    RunSettles(ex, ids);
    assert forall s :: s in p ==> StageSettled(ex, p, s);
    forall s | s in ids ensures AtMost(ChargeOf(ex, p)(s), LocalPrices(ex)(s)) {
      assert s in ToSet(ids);
      assert StageSettled(ex, p, s);
    }
    SumExtMonotone(ids, ChargeOf(ex, p), LocalPrices(ex));
  }

  // When the all-local price fits the budget, only missing capacity can reject a pipeline.
  lemma NeverRejectedOnBudget(ex: Exchange, budget: Option<real>)
    requires ValidProblem(ex.pr) && (forall s :: s in ex.pr.g.ids ==> s in ex.pr.g.stages)
    requires Affordable(budget, SumExt(ex.pr.g.ids, LocalPrices(ex)))
    ensures Answer(budget, TradeAll(ex, ex.pr.g.ids)).None? <==> TradeAll(ex, ex.pr.g.ids).None?
  {
    hide ChargeOf, LocalPrices;
    if TradeAll(ex, ex.pr.g.ids).Some? {
      MarketAccounts(ex, None, TradeAll(ex, ex.pr.g.ids).value.p);
    }
  }

  // ---------------------------------------------------------------- what the market never reads

  // The same stages, up to their slice and domain, offered to the same workers.
  ghost predicate SameTrade(ex: Exchange, other: Exchange) {
    && ex.domains == other.domains && ex.prices == other.prices && ex.wan == other.wan
    && ex.local == other.local && ex.loadAware == other.loadAware
    && ex.pr.t.nodes == other.pr.t.nodes && ex.pr.g.stages.Keys == other.pr.g.stages.Keys
    && forall s :: s in ex.pr.g.stages ==> SameOffer(ex.pr.g.stages[s], other.pr.g.stages[s])
  }

  ghost predicate SameOffer(a: Stage, b: Stage) {
    a.id == b.id && a.stageType == b.stageType && a.demand == b.demand
  }

  lemma SameChoice(ex: Exchange, other: Exchange, stageType: string)
    requires SameTrade(ex, other)
    ensures Choose(ex, stageType) == Choose(other, stageType)
  {
    assert RemoteScores(ex, stageType) == RemoteScores(other, stageType);
  }

  lemma SameStep(ex: Exchange, other: Exchange, st: Account, a: Stage, b: Stage)
    requires SameTrade(ex, other) && SameOffer(a, b)
    ensures Trade(ex, st, a) == Trade(other, st, b)
  {
    hide Choose, Candidates, LoadScores;
    SameChoice(ex, other, a.stageType);
    assert forall domain, demand, load :: Pick(ex, domain, demand, load) == Pick(other, domain, demand, load);
    assert forall domain, stageType :: PriceIn(ex, domain, stageType) == PriceIn(other, domain, stageType);
  }

  // Governance, slices, declared domains, edges and latencies never change the outcome.
  lemma {:induction false} GovernanceUnread(ex: Exchange, other: Exchange, ids: seq<StageId>)
    requires SameTrade(ex, other) && forall s :: s in ids ==> s in ex.pr.g.stages
    ensures TradeAll(ex, ids) == TradeAll(other, ids)
  {
    if ids != [] {
      hide Trade;
      var n := |ids| - 1;
      GovernanceUnread(ex, other, ids[..n]);
      var a, b := ex.pr.g.stages[ids[n]], other.pr.g.stages[ids[n]];
      assert SameOffer(a, b);
      if TradeAll(ex, ids[..n]).Some? { SameStep(ex, other, TradeAll(ex, ids[..n]).value, a, b); }
    }
  }

  // p's pipeline with another declared domain for s.
  function Redeclared(ex: Exchange, s: StageId, domain: string): Exchange
    requires s in ex.pr.g.stages
  {
    ex.(pr := ex.pr.(g := ex.pr.g.(stages := ex.pr.g.stages[s := ex.pr.g.stages[s].(domain := Some(domain))])))
  }

  lemma RedeclaredSame(ex: Exchange, s: StageId, domain: string)
    requires s in ex.pr.g.stages
    ensures SameTrade(ex, Redeclared(ex, s, domain))
  {}

  // So sovereignty is not enforced: whatever the market answers, declaring any other
  // domain for a stage changes nothing, and the answer then violates sovereignty.
  lemma SovereigntyUnread(ex: Exchange, budget: Option<real>, p: Placement, s: StageId, domain: string)
    requires ValidProblem(ex.pr) && (forall v :: v in ex.pr.g.ids ==> v in ex.pr.g.stages)
    requires Answer(budget, TradeAll(ex, ex.pr.g.ids)) == Some(p) && s in ex.pr.g.stages
    ensures s in p && p[s] in NodeIds(ex.pr.t)
    ensures var other := Redeclared(ex, s, domain);
      && Answer(budget, TradeAll(other, other.pr.g.ids)) == Some(p)
      && (SovereigntyHolds(other.pr.g.stages[s], GetNode(other.pr.t, p[s])) <==> domain == DomainOf(ex.pr, p[s]))
  {
    hide ChargeOf, LocalPrices, TradeAll, CapacityFeasible, NodeLoad, ValidTopology, SameTrade, SumExt, Affordable;
    MarketAccounts(ex, budget, p);
    RedeclaredSame(ex, s, domain);
    GovernanceUnread(ex, Redeclared(ex, s, domain), ex.pr.g.ids);
  }
}
