// Congestion bids: each worker offers every stage type at its price over its idle share.
module Congestion {
  import opened Wrappers
  import opened Sequences
  import opened OrderStatistics
  import opened Clearing

  datatype Bidder = Bidder(node: string, domain: string, capacity: real, load: real, bid: real)

  const MIN_CAPACITY: real := 0.000001

  const MAX_UTILIZATION: real := 0.99

  function Utilization(w: Bidder): real {
    Min(w.load / Max(w.capacity, MIN_CAPACITY), MAX_UTILIZATION)
  }

  function BidCost(w: Bidder, dynamic: bool): real {
    if dynamic then w.bid / (1.0 - Utilization(w)) else w.bid
  }

  function BidCosts(dynamic: bool): Bidder -> real {
    (w: Bidder) => BidCost(w, dynamic)
  }

  function BidFor(w: Bidder, dynamic: bool, stageType: string): WorkerBid {
    WorkerBid(w.node, w.domain, stageType, BidCost(w, dynamic))
  }

  function BidsOf(w: Bidder, dynamic: bool, types: seq<string>): seq<WorkerBid> {
    if types == [] then [] else BidsOf(w, dynamic, types[..|types|-1]) + [BidFor(w, dynamic, types[|types|-1])]
  }

  function AllBids(workers: seq<Bidder>, dynamic: bool, types: seq<string>): seq<WorkerBid> {
    if workers == [] then []
    else AllBids(workers[..|workers|-1], dynamic, types) + BidsOf(workers[|workers|-1], dynamic, types)
  }

  function OneOfEach(types: seq<string>): map<string, nat> {
    map t | t in types :: 1
  }

  // _compute_clearing_prices_from
  method DomainPricesFrom(workers: seq<Bidder>, types: seq<string>, dynamic: bool) returns (prices: DomainPrices)
    ensures forall d, t :: PriceAt(prices, d, t) == Cleared(AllBids(workers, dynamic, types), OneOfEach(types), d, t)
  {
    var bids: seq<WorkerBid> := [];
    var i := 0;
    while i < |workers|
      invariant 0 <= i <= |workers|
      invariant bids == AllBids(workers[..i], dynamic, types)
    {
      var w := workers[i];
      assert workers[..i+1][..i] == workers[..i];
      var cost := w.bid;
      if dynamic {
        var utilization := Min(w.load / Max(w.capacity, MIN_CAPACITY), MAX_UTILIZATION);
        cost := w.bid / (1.0 - utilization);
      }
      ghost var before := bids;
      var j := 0;
      while j < |types|
        invariant 0 <= j <= |types|
        invariant bids == before + BidsOf(w, dynamic, types[..j])
      {
        assert types[..j+1][..j] == types[..j];
        bids := bids + [WorkerBid(w.node, w.domain, types[j], cost)];
        j := j + 1;
      }
      TakeAll(types);
      i := i + 1;
    }
    TakeAll(workers);
    prices := ComputeClearingPrices(bids, OneOfEach(types));
  }

  // ---------------------------------------------------------------- the price of a domain

  function WorkersIn(workers: seq<Bidder>, domain: string): seq<Bidder> {
    if workers == [] then []
    else
      var w := workers[|workers|-1];
      WorkersIn(workers[..|workers|-1], domain) + if w.domain == domain then [w] else []
  }

  lemma {:induction false} GroupConcat(xs: seq<WorkerBid>, ys: seq<WorkerBid>, d: string, t: string)
    ensures GroupOf(xs + ys, d, t) == GroupOf(xs, d, t) + GroupOf(ys, d, t)
  {
    if ys == [] {
      assert xs + ys == xs;
    } else {
      var n := |ys| - 1;
      assert (xs + ys)[..|xs|+n] == xs + ys[..n];
      GroupConcat(xs, ys[..n], d, t);
    }
  }

  lemma {:induction false} OwnBids(w: Bidder, dynamic: bool, types: seq<string>, d: string, t: string)
    requires Distinct(types)
    ensures GroupOf(BidsOf(w, dynamic, types), d, t) ==
      if w.domain == d && t in types then [BidFor(w, dynamic, t)] else []
  {
    if types != [] {
      var n := |types| - 1;
      OwnBids(w, dynamic, types[..n], d, t);
      assert types[n] !in types[..n];
      ExtraBidGroups(BidsOf(w, dynamic, types[..n]), BidFor(w, dynamic, types[n]), d, t);
      assert t in types <==> t in types[..n] || t == types[n];
    }
  }

  function Offers(pool: seq<Bidder>, dynamic: bool, stageType: string): seq<WorkerBid> {
    if pool == [] then []
    else Offers(pool[..|pool|-1], dynamic, stageType) + [BidFor(pool[|pool|-1], dynamic, stageType)]
  }

  lemma {:induction false} OffersAt(pool: seq<Bidder>, dynamic: bool, t: string)
    ensures |Offers(pool, dynamic, t)| == |pool|
    ensures forall i :: 0 <= i < |pool| ==> Offers(pool, dynamic, t)[i] == BidFor(pool[i], dynamic, t)
  {
    if pool != [] { OffersAt(pool[..|pool|-1], dynamic, t); }
  }

  lemma OffersStep(workers: seq<Bidder>, dynamic: bool, d: string, t: string)
    requires workers != []
    ensures var w := workers[|workers|-1];
      Offers(WorkersIn(workers, d), dynamic, t)
      == Offers(WorkersIn(workers[..|workers|-1], d), dynamic, t)
        + if w.domain == d then [BidFor(w, dynamic, t)] else []
  {
    var pool, w := WorkersIn(workers[..|workers|-1], d), workers[|workers|-1];
    if w.domain == d {
      assert WorkersIn(workers, d) == pool + [w];
      assert (pool + [w])[..|pool|] == pool;
    } else {
      assert WorkersIn(workers, d) == pool;
    }
  }

  lemma BidsSplit(workers: seq<Bidder>, dynamic: bool, types: seq<string>)
    requires workers != []
    ensures AllBids(workers, dynamic, types)
      == AllBids(workers[..|workers|-1], dynamic, types) + BidsOf(workers[|workers|-1], dynamic, types)
  {}

  // The group of a stage type holds one bid for each worker of the domain, in order.
  lemma {:induction false} GroupOfDomain(workers: seq<Bidder>, dynamic: bool, types: seq<string>, d: string, t: string)
    requires Distinct(types) && t in types
    ensures GroupOf(AllBids(workers, dynamic, types), d, t) == Offers(WorkersIn(workers, d), dynamic, t)
  {
    if workers != [] {
      hide BidFor, GroupOf, BidsOf, Offers, WorkersIn, AllBids, Distinct;
      var n := |workers| - 1;
      GroupOfDomain(workers[..n], dynamic, types, d, t);
      BidsSplit(workers, dynamic, types);
      GroupConcat(AllBids(workers[..n], dynamic, types), BidsOf(workers[n], dynamic, types), d, t);
      OwnBids(workers[n], dynamic, types, d, t);
      OffersStep(workers, dynamic, d, t);
    }
  }

  // The price of a domain is the cheapest of its workers' bids.
  lemma PriceIsCheapest(workers: seq<Bidder>, dynamic: bool, types: seq<string>, d: string, t: string)
    requires Distinct(types) && t in types
    ensures Cleared(AllBids(workers, dynamic, types), OneOfEach(types), d, t)
      == if WorkersIn(workers, d) == [] then None else Some(Kth(WorkersIn(workers, d), BidCosts(dynamic), 1))
  {
    hide Kth, AllBids, GroupOf, WorkersIn;
    GroupOfDomain(workers, dynamic, types, d, t);
    var group, pool := GroupOf(AllBids(workers, dynamic, types), d, t), WorkersIn(workers, d);
    OffersAt(pool, dynamic, t);
    if pool != [] {
      KthDominates(pool, BidCosts(dynamic), group, CostOf(), 1);
      KthDominates(group, CostOf(), pool, BidCosts(dynamic), 1);
    }
  }

  lemma {:induction false} SomethingBelow<T>(xs: seq<T>, x: T, key: T -> real, p: real)
    requires x in xs && key(x) < p
    ensures CountBelow(xs, key, p) >= 1
  {
    var n := |xs| - 1;
    if xs[n] != x {
      assert x in xs[..n];
      SomethingBelow(xs[..n], x, key, p);
    }
  }

  lemma FirstIsLeast<T>(xs: seq<T>, x: T, key: T -> real)
    requires x in xs
    ensures Kth(xs, key, 1) <= key(x)
  {
    KthIsKth(xs, key, 1);
    if key(x) < Kth(xs, key, 1) { SomethingBelow(xs, x, key, Kth(xs, key, 1)); }
  }

  ghost predicate Sensible(w: Bidder) {
    w.load >= 0.0 && w.bid >= 0.0
  }

  lemma DivideMore(a: real, b: real, c: real)
    requires a >= 0.0 && 0.0 < b <= c
    ensures a / c <= a / b
  {
    var q, r := a / b, a / c;
    assert q * b == a && r * c == a;
    assert r * b <= r * c;
    assert (q - r) * b >= 0.0;
  }

  lemma DivideNumerator(a: real, b: real, c: real)
    requires a <= b && c > 0.0
    ensures a / c <= b / c
  {}

  lemma UtilizationRange(w: Bidder)
    requires Sensible(w)
    ensures 0.0 <= Utilization(w) <= MAX_UTILIZATION
  {
    DivideNumerator(0.0, w.load, Max(w.capacity, MIN_CAPACITY));
  }

  // Congestion multiplies a bid by between 1 and 100.
  lemma CostBetween(w: Bidder, dynamic: bool)
    requires Sensible(w)
    ensures w.bid <= BidCost(w, dynamic) <= 100.0 * w.bid
  {
    UtilizationRange(w);
    var idle := 1.0 - Utilization(w);
    DivideMore(w.bid, idle, 1.0);
    DivideMore(w.bid, 0.01, idle);
  }

  // The capacity a utilisation is measured against.
  function Measured(w: Bidder): real {
    if w.capacity < 0.000001 then 0.000001 else w.capacity
  }

  // On numbers: a static bid is the advertised one; a dynamic bid grows as the idle share
  // of the capacity shrinks, until 99 percent are used, and is a hundredfold from there on.
  lemma CostExactly(w: Bidder)
    ensures BidCost(w, false) == w.bid
    ensures w.load <= 0.99 * Measured(w) ==> BidCost(w, true) * (Measured(w) - w.load) == w.bid * Measured(w)
    ensures w.load >= 0.99 * Measured(w) ==> BidCost(w, true) == 100.0 * w.bid
  {
    var cap, share := Measured(w), w.load / Measured(w);
    ShareExactly(w.load, cap);
    hide Measured;
    assert Utilization(w) == Min(share, 0.99) by { MeasuredIsMax(w); }
    if w.load <= 0.99 * cap { Unscale(w.bid, share, cap, w.load); }
  }

  lemma MeasuredIsMax(w: Bidder)
    ensures Measured(w) == Max(w.capacity, MIN_CAPACITY) && Measured(w) > 0.0
  {}

  lemma ShareExactly(load: real, cap: real)
    requires cap > 0.0
    ensures load / cap * cap == load
    ensures load <= 0.99 * cap ==> load / cap <= 0.99
    ensures load >= 0.99 * cap ==> load / cap >= 0.99
  {
    var share := load / cap;
    assert share * cap == load;
    if share > 0.99 { assert (share - 0.99) * cap > 0.0; }
    if share < 0.99 { assert (0.99 - share) * cap > 0.0; }
  }

  lemma Unscale(bid: real, share: real, cap: real, load: real)
    requires share < 1.0 && share * cap == load
    ensures bid / (1.0 - share) * (cap - load) == bid * cap
  {
    var cost := bid / (1.0 - share);
    assert cost * (1.0 - share) == bid;
    assert (1.0 - share) * cap == cap - load;
    assert cost * ((1.0 - share) * cap) == (cost * (1.0 - share)) * cap;
  }

  // The price of a domain lies between its smallest bid and 100 times it.
  lemma PriceBetween(workers: seq<Bidder>, dynamic: bool, d: string)
    requires WorkersIn(workers, d) != [] && forall w :: w in WorkersIn(workers, d) ==> Sensible(w)
    ensures var pool := WorkersIn(workers, d); var least := Kth(pool, BidCosts(false), 1);
      least <= Kth(pool, BidCosts(dynamic), 1) <= 100.0 * least
  {
    hide Kth, WorkersIn, BidCost;
    var pool := WorkersIn(workers, d);
    var w := KthMember(pool, BidCosts(dynamic), 1);
    var v := KthMember(pool, BidCosts(false), 1);
    FirstIsLeast(pool, w, BidCosts(false));
    FirstIsLeast(pool, v, BidCosts(dynamic));
    CostBetween(w, dynamic);
    CostBetween(v, dynamic);
    PlainBid(w);
    PlainBid(v);
  }

  lemma PlainBid(w: Bidder)
    ensures BidCost(w, false) == w.bid
  {}

  // The same workers, each at least as loaded.
  ghost predicate Busier(ws: seq<Bidder>, busier: seq<Bidder>) {
    |ws| == |busier| && forall i :: 0 <= i < |ws| ==> BusierWorker(ws[i], busier[i])
  }

  ghost predicate BusierWorker(w: Bidder, busier: Bidder) {
    Sensible(w) && w.load <= busier.load && busier == w.(load := busier.load)
  }

  lemma CostRises(w: Bidder, busier: Bidder, dynamic: bool)
    requires BusierWorker(w, busier)
    ensures BidCost(w, dynamic) <= BidCost(busier, dynamic)
  {
    UtilizationRange(busier);
    DivideNumerator(w.load, busier.load, Max(w.capacity, MIN_CAPACITY));
    assert Utilization(w) <= Utilization(busier);
    if dynamic { DivideMore(w.bid, 1.0 - Utilization(busier), 1.0 - Utilization(w)); }
  }

  lemma {:induction false} PoolsAligned(ws: seq<Bidder>, busier: seq<Bidder>, d: string)
    requires Busier(ws, busier)
    ensures Busier(WorkersIn(ws, d), WorkersIn(busier, d))
  {
    if ws != [] {
      var n := |ws| - 1;
      PoolsAligned(ws[..n], busier[..n], d);
      assert BusierWorker(ws[n], busier[n]);
    }
  }

  // Load never lowers a domain's price.
  lemma PriceRisesWithLoad(ws: seq<Bidder>, busier: seq<Bidder>, dynamic: bool, d: string)
    requires Busier(ws, busier) && WorkersIn(ws, d) != []
    ensures WorkersIn(busier, d) != []
      && Kth(WorkersIn(ws, d), BidCosts(dynamic), 1) <= Kth(WorkersIn(busier, d), BidCosts(dynamic), 1)
  {
    hide Kth, WorkersIn;
    PoolsAligned(ws, busier, d);
    var a, b := WorkersIn(ws, d), WorkersIn(busier, d);
    forall i | 0 <= i < |a| ensures BidCosts(dynamic)(a[i]) <= BidCosts(dynamic)(b[i]) {
      CostRises(a[i], b[i], dynamic);
    }
    KthDominates(a, BidCosts(dynamic), b, BidCosts(dynamic), 1);
  }
}
