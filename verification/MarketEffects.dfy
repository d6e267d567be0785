// What the market does on raw prices, budgets, capacities and loads.
module MarketEffects {
  import opened Wrappers
  import opened Minima
  import opened Sequences
  import opened Graphs
  import opened Topologies
  import opened Feasibility
  import opened Market

  // ---------------------------------------------------------------- prices and charges

  // The table has a price for the stage type in the domain.
  predicate Priced(ex: Exchange, domain: string, stageType: string) {
    domain in ex.prices && stageType in ex.prices[domain]
  }

  // What the domain asks for the type: its price, plus the WAN cost for a remote domain.
  function Asked(ex: Exchange, domain: string, stageType: string): real
    requires Priced(ex, domain, stageType)
  {
    ex.prices[domain][stageType] + if domain == ex.local then 0.0 else ex.wan
  }

  // Another remote domain with a price, listed before c.
  ghost predicate EarlierRemote(ex: Exchange, d: string, c: string, stageType: string) {
    && d != ex.local && d in ex.domains && c in ex.domains && IndexOf(ex.domains, d) < IndexOf(ex.domains, c)
    && Priced(ex, d, stageType)
  }

  // The chosen domain asks the least, an earlier one in the table asks more, and no remote
  // one is chosen that asks as much as the local one.
  lemma ChoosesExactly(ex: Exchange, stageType: string)
    requires ListsPrices(ex)
    ensures var c := Choose(ex, stageType);
      && (c.domain != ex.local ==> Priced(ex, c.domain, stageType) && c.domain in ex.domains)
      && (c.cost.Fin? <==> Priced(ex, c.domain, stageType))
      && (c.cost.Fin? ==> c.cost.r == Asked(ex, c.domain, stageType))
      && (forall d :: Priced(ex, d, stageType) ==> c.cost.Fin? && c.cost.r <= Asked(ex, d, stageType))
      && (c.domain != ex.local && Priced(ex, ex.local, stageType) ==> c.cost.r < Asked(ex, ex.local, stageType))
      && (c.domain != ex.local ==>
            forall d :: EarlierRemote(ex, d, c.domain, stageType) ==> c.cost.r < Asked(ex, d, stageType))
  {
    var c := Choose(ex, stageType);
    ChoiceIsCheapest(ex, stageType);
    forall d | Priced(ex, d, stageType) && d != ex.local ensures d in ex.domains { assert d in ex.prices.Keys; }
    if c.domain != ex.local {
      assert c.domain in ex.domains by { ChosenListed(ex, stageType); }
      forall d | EarlierRemote(ex, d, c.domain, stageType) ensures c.cost.r < Asked(ex, d, stageType)
      {
        EarlierAsksMore(ex, stageType, d);
      }
    }
    hide Choose, ListsPrices, IndexOf;
  }

  lemma ChosenListed(ex: Exchange, stageType: string)
    requires Choose(ex, stageType).domain != ex.local
    ensures Choose(ex, stageType).domain in ex.domains
  {}

  lemma EarlierAsksMore(ex: Exchange, stageType: string, d: string)
    requires ListsPrices(ex) && Choose(ex, stageType).domain != ex.local
    requires EarlierRemote(ex, d, Choose(ex, stageType).domain, stageType)
    ensures Choose(ex, stageType).cost.Fin? && Choose(ex, stageType).cost.r < Asked(ex, d, stageType)
  {
    var scores, j := RemoteScores(ex, stageType), IndexOf(ex.domains, d);
    var best := ArgMin(scores).value;
    ArgMinLeast(scores);
    IndexOfDistinct(ex.domains, best);
    assert scores[j] == RemoteScore(ex, stageType, d) && Less(scores[best], scores[j]);
    hide ArgMin;
    if scores[j].Inf? { ChoiceIsCheapest(ex, stageType); }
  }

  // ---------------------------------------------------------------- the budget

  // The stage's worker is in a domain with a price for it.
  ghost predicate Charged(ex: Exchange, p: Placement, s: StageId) {
    s in p && s in ex.pr.g.stages && p[s] in NodeIds(ex.pr.t)
    && Priced(ex, GetNode(ex.pr.t, p[s]).domain, ex.pr.g.stages[s].stageType)
  }

  ghost function Charges(ex: Exchange, p: Placement): StageId -> real {
    (s: StageId) => if Charged(ex, p, s) then Asked(ex, GetNode(ex.pr.t, p[s]).domain, ex.pr.g.stages[s].stageType)
                    else 0.0
  }

  lemma {:induction false} SumIsFinite(xs: seq<StageId>, f: StageId -> Ext, g: StageId -> real)
    requires forall x :: x in xs && f(x).Fin? ==> f(x).r == g(x)
    ensures SumExt(xs, f).Fin? <==> forall x :: x in xs ==> f(x).Fin?
    ensures SumExt(xs, f).Fin? ==> SumExt(xs, f).r == Sum(xs, g)
  {
    if xs != [] {
      var n := |xs| - 1;
      SumIsFinite(xs[..n], f, g);
      assert forall x :: x in xs <==> x in xs[..n] || x == xs[n];
    }
  }

  lemma ChargeIsAsked(ex: Exchange, p: Placement, s: StageId)
    ensures ChargeOf(ex, p)(s).Fin? <==> Charged(ex, p, s)
    ensures Charged(ex, p, s) ==> ChargeOf(ex, p)(s).r == Charges(ex, p)(s)
  {
    hide GetNode, NodeIds;
  }

  lemma ChargesAddUp(ex: Exchange, p: Placement, ids: seq<StageId>)
    ensures SumExt(ids, ChargeOf(ex, p)).Fin? <==> forall s :: s in ids ==> Charged(ex, p, s)
    ensures SumExt(ids, ChargeOf(ex, p)).Fin? ==> SumExt(ids, ChargeOf(ex, p)).r == Sum(ids, Charges(ex, p))
  {
    hide *;
    forall s
      ensures ChargeOf(ex, p)(s).Fin? <==> Charged(ex, p, s)
      ensures Charged(ex, p, s) ==> ChargeOf(ex, p)(s).r == Charges(ex, p)(s)
    {
      ChargeIsAsked(ex, p, s);
    }
    SumIsFinite(ids, ChargeOf(ex, p), Charges(ex, p));
  }

  // With a budget the market answers exactly when every stage finds a worker, every one of
  // them has a price, and the charges add up to at most the budget; without one exactly
  // when every stage finds a worker.
  lemma BudgetExactly(ex: Exchange, budget: Option<real>)
    requires ValidProblem(ex.pr) && forall s :: s in ex.pr.g.ids ==> s in ex.pr.g.stages
    ensures var ids := ex.pr.g.ids; var st, answer := TradeAll(ex, ids), Answer(budget, TradeAll(ex, ids));
      && (answer.Some? ==> st.Some? && answer.value == st.value.p)
      && (budget.None? ==> (answer.Some? <==> st.Some?))
      && (budget.Some? ==> (answer.Some? <==>
            && st.Some? && (forall s :: s in ids ==> Charged(ex, st.value.p, s))
            && Sum(ids, Charges(ex, st.value.p)) <= budget.value))
  {
    var ids := ex.pr.g.ids;
    var st := TradeAll(ex, ids);
    if st.Some? {
      MarketAccounts(ex, None, st.value.p);
      hide TradeAll, ChargeOf, Charged, Charges, LocalPrices, NodeLoad, GetNode, ValidProblem;
      ChargesAddUp(ex, st.value.p, ids);
    }
  }

  // ---------------------------------------------------------------- workers

  // The worker is in the domain and has room for the demand beside what is committed.
  predicate Roomy(w: Unit, domain: string, demand: real, committed: real) {
    w.domain == domain && w.load + committed + demand <= w.capacity
  }

  // The pick when the worker at position j is taken.
  ghost predicate Picks(ex: Exchange, domain: string, demand: real, load: map<NodeId, real>, j: nat) {
    var nodes := ex.pr.t.nodes;
    && j < |nodes| && Roomy(nodes[j], domain, demand, LoadEntry(load, nodes[j].nodeId))
    && forall i :: 0 <= i < |nodes| && Roomy(nodes[i], domain, demand, LoadEntry(load, nodes[i].nodeId)) ==>
         PickedBefore(ex, load, j, i)
  }

  // Load-aware the least loaded worker comes first and ties go to the earlier one, otherwise
  // the earlier one comes first.
  ghost predicate PickedBefore(ex: Exchange, load: map<NodeId, real>, j: nat, i: nat)
    requires i < |ex.pr.t.nodes| && j < |ex.pr.t.nodes|
  {
    var nodes := ex.pr.t.nodes;
    var a, b := nodes[j].load + LoadEntry(load, nodes[j].nodeId), nodes[i].load + LoadEntry(load, nodes[i].nodeId);
    if ex.loadAware then a < b || (a == b && j <= i) else j <= i
  }

  // The positions of the candidates, in order.
  function Positions(nodes: seq<Unit>, domain: string, demand: real, load: map<NodeId, real>): seq<nat> {
    if nodes == [] then []
    else
      var n := |nodes| - 1;
      Positions(nodes[..n], domain, demand, load) + if Able(nodes[n], domain, demand, load) then [n] else []
  }

  lemma {:induction false} PositionsRise(nodes: seq<Unit>, domain: string, demand: real, load: map<NodeId, real>)
    ensures Rising(Positions(nodes, domain, demand, load), |nodes|)
  {
    if nodes != [] {
      hide Able;
      var n := |nodes| - 1;
      var before := Positions(nodes[..n], domain, demand, load);
      PositionsRise(nodes[..n], domain, demand, load);
      RisingGrows(before, n);
      assert before + [] == before;
    }
  }

  // Increasing and below the bound.
  ghost predicate Rising(at: seq<nat>, bound: nat) {
    (forall a :: 0 <= a < |at| ==> at[a] < bound) && (forall a, b :: 0 <= a < b < |at| ==> at[a] < at[b])
  }

  lemma RisingGrows(at: seq<nat>, bound: nat)
    requires Rising(at, bound)
    ensures Rising(at, bound + 1) && Rising(at + [bound], bound + 1)
  {}

  lemma {:induction false} PositionsMatch(nodes: seq<Unit>, domain: string, demand: real, load: map<NodeId, real>)
    ensures var at, ws := Positions(nodes, domain, demand, load), Candidates(nodes, domain, demand, load);
      |at| == |ws| && forall a :: 0 <= a < |at| ==> at[a] < |nodes| && nodes[at[a]] == ws[a]
  {
    if nodes != [] {
      hide Able;
      PositionsMatch(nodes[..|nodes|-1], domain, demand, load);
    }
  }

  lemma {:induction false} PositionListed(nodes: seq<Unit>, domain: string, demand: real, load: map<NodeId, real>,
                                          i: nat)
    requires i < |nodes| && Able(nodes[i], domain, demand, load)
    ensures i in Positions(nodes, domain, demand, load)
  {
    var n := |nodes| - 1;
    hide Able;
    if i < n {
      assert nodes[..n][i] == nodes[i];
      PositionListed(nodes[..n], domain, demand, load, i);
    }
  }

  // A worker is picked exactly when some worker of the domain has room, and it is the first
  // or the least loaded of them.
  lemma PicksExactly(ex: Exchange, domain: string, demand: real, load: map<NodeId, real>)
    ensures var r, nodes := Pick(ex, domain, demand, load), ex.pr.t.nodes;
      && (r.None? <==> forall w :: w in nodes ==> !Roomy(w, domain, demand, LoadEntry(load, w.nodeId)))
      && (r.Some? ==> exists j: nat :: Picks(ex, domain, demand, load, j) && nodes[j] == r.value)
  {
    PickMeaning(ex, domain, demand, load);
    forall w ensures Able(w, domain, demand, load) <==> Roomy(w, domain, demand, LoadEntry(load, w.nodeId)) {}
    if Pick(ex, domain, demand, load).Some? { var j := PickedAt(ex, domain, demand, load); }
    hide Pick, Able, Roomy;
  }

  lemma PickedAt(ex: Exchange, domain: string, demand: real, load: map<NodeId, real>) returns (j: nat)
    requires Pick(ex, domain, demand, load).Some?
    ensures Picks(ex, domain, demand, load, j) && ex.pr.t.nodes[j] == Pick(ex, domain, demand, load).value
  {
    var nodes := ex.pr.t.nodes;
    var at, ws := Positions(nodes, domain, demand, load), Candidates(nodes, domain, demand, load);
    PositionsMatch(nodes, domain, demand, load);
    var a := if ex.loadAware then ArgMin(LoadScores(ws, load)).value else 0;
    j := at[a];
    PickMeaning(ex, domain, demand, load);
    assert ws[a] == Pick(ex, domain, demand, load).value;
    hide ArgMin, Positions, Candidates, Pick, LoadScores;
    forall i | 0 <= i < |nodes| && Roomy(nodes[i], domain, demand, LoadEntry(load, nodes[i].nodeId))
      ensures PickedBefore(ex, load, j, i)
    {
      BeforeOthers(ex, domain, demand, load, a, i);
    }
  }

  lemma BeforeOthers(ex: Exchange, domain: string, demand: real, load: map<NodeId, real>, a: nat, i: nat)
    requires i < |ex.pr.t.nodes| && Able(ex.pr.t.nodes[i], domain, demand, load)
    requires var ws := Candidates(ex.pr.t.nodes, domain, demand, load);
      a < |ws| && if ex.loadAware then ArgMin(LoadScores(ws, load)) == Some(a) else a == 0
    ensures var at := Positions(ex.pr.t.nodes, domain, demand, load);
      a < |at| && at[a] < |ex.pr.t.nodes| && PickedBefore(ex, load, at[a], i)
  {
    var nodes := ex.pr.t.nodes;
    var at, ws := Positions(nodes, domain, demand, load), Candidates(nodes, domain, demand, load);
    PositionsMatch(nodes, domain, demand, load);
    PositionsRise(nodes, domain, demand, load);
    PositionListed(nodes, domain, demand, load, i);
    hide Positions, Candidates, ArgMin, Able;
    var b :| 0 <= b < |at| && at[b] == i;
    if ex.loadAware {
      ArgMinLeast(LoadScores(ws, load));
      assert AtMost(LoadScores(ws, load)[a], LoadScores(ws, load)[b]);
    }
  }

  // ---------------------------------------------------------------- one stage

  // No worker of the domain has room for the demand beside what p puts there.
  ghost predicate Full(ex: Exchange, p: Placement, domain: string, demand: real) {
    forall w :: w in ex.pr.t.nodes ==> !Roomy(w, domain, demand, NodeLoad(ex.pr, p, w.nodeId))
  }

  lemma FullExactly(ex: Exchange, st: Account, domain: string, demand: real)
    requires forall n :: LoadEntry(st.load, n) == NodeLoad(ex.pr, st.p, n)
    ensures Pick(ex, domain, demand, st.load).None? <==> Full(ex, st.p, domain, demand)
  {
    PicksExactly(ex, domain, demand, st.load);
    hide Pick, NodeLoad, Roomy;
  }

  ghost predicate PlacedIn(ex: Exchange, p: Placement, stage: Stage, q: Placement, domain: string) {
    exists w :: w in ex.pr.t.nodes && w.domain == domain && q == p[stage.id := w.nodeId]
  }

  // A stage stops the run exactly when its chosen domain and the local one are full; it is
  // placed in the chosen domain unless that one is full.
  lemma TradesExactly(ex: Exchange, st: Account, stage: Stage)
    requires forall n :: LoadEntry(st.load, n) == NodeLoad(ex.pr, st.p, n)
    ensures var c, after := Choose(ex, stage.stageType), Trade(ex, st, stage);
      && (after.None? <==> Full(ex, st.p, c.domain, stage.demand) && Full(ex, st.p, ex.local, stage.demand))
      && (after.Some? ==> PlacedIn(ex, st.p, stage, after.value.p,
                                   if Full(ex, st.p, c.domain, stage.demand) then ex.local else c.domain))
  {
    hide Choose, Full, NodeLoad, Pick;
    var c := Choose(ex, stage.stageType);
    FullExactly(ex, st, c.domain, stage.demand);
    FullExactly(ex, st, ex.local, stage.demand);
    PickMeaning(ex, c.domain, stage.demand, st.load);
    PickMeaning(ex, ex.local, stage.demand, st.load);
  }

  // The k-th stage finds its chosen domain and the local one full.
  ghost predicate StopsAt(ex: Exchange, ids: seq<StageId>, k: nat)
    requires forall s :: s in ids ==> s in ex.pr.g.stages
  {
    && k < |ids| && TradeAll(ex, ids[..k]).Some?
    && var p, stage := TradeAll(ex, ids[..k]).value.p, ex.pr.g.stages[ids[k]];
       Full(ex, p, Choose(ex, stage.stageType).domain, stage.demand) && Full(ex, p, ex.local, stage.demand)
  }

  lemma LastStop(ex: Exchange, ids: seq<StageId>)
    requires ValidProblem(ex.pr) && Distinct(ids) && ids != [] && forall s :: s in ids ==> s in ex.pr.g.stages
    ensures TradeAll(ex, ids).None? <==> TradeAll(ex, ids[..|ids|-1]).None? || StopsAt(ex, ids, |ids| - 1)
  {
    var n := |ids| - 1;
    if TradeAll(ex, ids[..n]).Some? {
      RunSettles(ex, ids[..n]);
      var st := TradeAll(ex, ids[..n]).value;
      assert forall m :: LoadEntry(st.load, m) == NodeLoad(ex.pr, st.p, m);
      hide Trade, Choose, Full, ValidProblem, NodeLoad, Settled;
      TradesExactly(ex, st, ex.pr.g.stages[ids[n]]);
    }
  }

  // The run stops exactly at such a stage.
  lemma {:induction false} StopsExactly(ex: Exchange, ids: seq<StageId>)
    requires ValidProblem(ex.pr) && Distinct(ids) && forall s :: s in ids ==> s in ex.pr.g.stages
    ensures TradeAll(ex, ids).None? <==> exists k: nat :: StopsAt(ex, ids, k)
  {
    if ids != [] {
      var n := |ids| - 1;
      StopsExactly(ex, ids[..n]);
      LastStop(ex, ids);
      hide TradeAll, StopsAt, ValidProblem, Distinct;
      if TradeAll(ex, ids[..n]).None? {
        var k: nat :| StopsAt(ex, ids[..n], k);
        StopKept(ex, ids, k);
      } else if k: nat :| StopsAt(ex, ids, k) {
        StopKept(ex, ids, k);
      }
    }
  }

  // Stops of all but the last stage are stops.
  lemma StopKept(ex: Exchange, ids: seq<StageId>, k: nat)
    requires ids != [] && forall s :: s in ids ==> s in ex.pr.g.stages
    ensures StopsAt(ex, ids[..|ids|-1], k) ==> StopsAt(ex, ids, k)
    ensures StopsAt(ex, ids, k) ==> StopsAt(ex, ids[..|ids|-1], k) || k == |ids| - 1
  {
    hide TradeAll, Choose, Full;
    if k < |ids| - 1 { assert ids[..|ids|-1][..k] == ids[..k]; }
  }
}
