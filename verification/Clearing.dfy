// Marginal-cost clearing: posted prices per domain and stage type, and the congestion
// bids a broker derives from its workers' loads.
module Clearing {
  import opened Wrappers
  import opened Sequences
  import opened Sorting
  import opened OrderStatistics

  datatype WorkerBid = WorkerBid(worker: string, domain: string, stageType: string, cost: real)

  type DomainPrices = map<string, map<string, real>>

  function CostOf(): WorkerBid -> real {
    (b: WorkerBid) => b.cost
  }

  // The bids of one domain for one stage type, in submission order.
  function GroupOf(bids: seq<WorkerBid>, domain: string, stageType: string): seq<WorkerBid> {
    if bids == [] then []
    else
      var b := bids[|bids|-1];
      GroupOf(bids[..|bids|-1], domain, stageType) + if b.domain == domain && b.stageType == stageType then [b] else []
  }

  // A group holds each bid of its domain and type as often as it was made, and no other bid.
  lemma {:induction false} GroupExactly(bids: seq<WorkerBid>, domain: string, stageType: string, b: WorkerBid)
    ensures multiset(GroupOf(bids, domain, stageType))[b]
      == if b.domain == domain && b.stageType == stageType then multiset(bids)[b] else 0
  {
    if bids != [] {
      var n := |bids| - 1;
      GroupExactly(bids[..n], domain, stageType, b);
      assert bids == bids[..n] + [bids[n]];
    }
  }

  function Demanded(demand: map<string, nat>, stageType: string): nat {
    if stageType in demand then demand[stageType] else 0
  }

  function Least(a: nat, b: nat): nat {
    if a < b then a else b
  }

  // Cost of the marginal worker; zero without demand.
  function PriceOf(group: seq<WorkerBid>, demand: nat): real
    requires group != []
  {
    if demand == 0 then 0.0 else Kth(group, CostOf(), Least(demand, |group|))
  }

  function PriceAt(prices: DomainPrices, domain: string, stageType: string): Option<real> {
    if domain in prices && stageType in prices[domain] then Some(prices[domain][stageType]) else None
  }

  ghost function Cleared(bids: seq<WorkerBid>, demand: map<string, nat>, domain: string,
          stageType: string): Option<real>
  {
    var group := GroupOf(bids, domain, stageType);
    if group == [] then None else Some(PriceOf(group, Demanded(demand, stageType)))
  }

  // ---------------------------------------------------------------- compute_clearing_prices

  method GroupBids(bids: seq<WorkerBid>) returns (grouped: map<(string, string), seq<WorkerBid>>)
    ensures forall d, t :: (d, t) in grouped <==> GroupOf(bids, d, t) != []
    ensures forall d, t :: (d, t) in grouped ==> grouped[(d, t)] == GroupOf(bids, d, t)
  {
    grouped := map[];
    var k := 0;
    while k < |bids|
      invariant 0 <= k <= |bids|
      invariant forall d, t :: (d, t) in grouped <==> GroupOf(bids[..k], d, t) != []
      invariant forall d, t :: (d, t) in grouped ==> grouped[(d, t)] == GroupOf(bids[..k], d, t)
    {
      assert bids[..k+1][..k] == bids[..k];
      var key := (bids[k].domain, bids[k].stageType);
      grouped := grouped[key := (if key in grouped then grouped[key] else []) + [bids[k]]];
      k := k + 1;
    }
    TakeAll(bids);
  }

  method ComputeClearingPrices(bids: seq<WorkerBid>, demand: map<string, nat>) returns (prices: DomainPrices)
    ensures forall d, t :: PriceAt(prices, d, t) == Cleared(bids, demand, d, t)
    ensures forall d :: d in prices ==> prices[d] != map[]
  {
    if |bids| == 0 {
      return map[];
    }
    var grouped := GroupBids(bids);
    hide PriceOf, GroupOf;
    prices := map[];
    var todo := grouped.Keys;
    while todo != {}
      invariant todo <= grouped.Keys
      invariant forall d, t :: PriceAt(prices, d, t) == if (d, t) in todo then None else Cleared(bids, demand, d, t)
      invariant forall d :: d in prices ==> prices[d] != map[]
    {
      var key :| key in todo;
      var (d, t) := key;
      var price := MarginalPrice(grouped[(d, t)], Demanded(demand, t));
      PostedAt(prices, d, t, price);
      prices := Posted(prices, d, t, price);
      todo := todo - {key};
    }
  }

  method MarginalPrice(group: seq<WorkerBid>, demand: nat) returns (price: real)
    requires group != []
    ensures price == PriceOf(group, demand)
  {
    var sorted := SortBy(group, CostOf());
    SortKeeps(group, CostOf());
    if demand == 0 {
      return 0.0;
    }
    price := sorted[Least(demand, |sorted|) - 1].cost;
  }

  function Posted(prices: DomainPrices, d: string, t: string, price: real): DomainPrices {
    prices[d := (if d in prices then prices[d] else map[])[t := price]]
  }

  lemma PostedAt(prices: DomainPrices, d: string, t: string, price: real)
    ensures forall e, u ::
      PriceAt(Posted(prices, d, t, price), e, u) == if e == d && u == t then Some(price) else PriceAt(prices, e, u)
    ensures (forall e :: e in prices ==> prices[e] != map[]) ==>
      forall e :: e in Posted(prices, d, t, price) ==> Posted(prices, d, t, price)[e] != map[]
  {
    var after := Posted(prices, d, t, price);
    assert t in after[d];
  }

  // ---------------------------------------------------------------- what the price is

  // The k-th order statistic, k = min(demand, supply).
  lemma PriceIsOrderStatistic(group: seq<WorkerBid>, demand: nat, p: real)
    requires group != [] && demand > 0
    ensures p == PriceOf(group, demand) <==> IsKth(group, CostOf(), Least(demand, |group|), p)
  {
    KthUnique(group, CostOf(), Least(demand, |group|), p);
  }

  // On numbers: nothing without demand, the cost of the marginal worker while there are
  // enough of them, and of the dearest one when there are not.
  lemma PriceExactly(group: seq<WorkerBid>, demand: nat)
    requires group != []
    ensures demand == 0 ==> PriceOf(group, demand) == 0.0
    ensures 0 < demand <= |group| ==> IsKth(group, CostOf(), demand, PriceOf(group, demand))
    ensures demand >= |group| ==> forall b :: b in group ==> b.cost <= PriceOf(group, demand)
    ensures demand > 0 ==> exists b :: b in group && b.cost == PriceOf(group, demand)
  {
    if demand > 0 {
      var k := Least(demand, |group|);
      KthIsKth(group, CostOf(), k);
      var b := KthMember(group, CostOf(), k);
      if demand >= |group| {
        CountLength(group, CostOf(), PriceOf(group, demand));
        AllCounted(group, CostOf(), PriceOf(group, demand));
      }
    }
  }

  lemma {:induction false} AllCounted(group: seq<WorkerBid>, key: WorkerBid -> real, p: real)
    requires CountAtMost(group, key, p) == |group|
    ensures forall b :: b in group ==> key(b) <= p
  {
    if group != [] {
      CountLength(group[..|group|-1], key, p);
      AllCounted(group[..|group|-1], key, p);
      assert forall b :: b in group <==> b in group[..|group|-1] || b == group[|group|-1];
    }
  }

  // A stage type nobody demands clears at zero.
  lemma NobodyDemands(bids: seq<WorkerBid>, demand: map<string, nat>, d: string, t: string)
    requires t !in demand
    ensures Cleared(bids, demand, d, t) == if GroupOf(bids, d, t) == [] then None else Some(0.0)
  {}

  lemma {:induction false} GroupPermutation(xs: seq<WorkerBid>, ys: seq<WorkerBid>, d: string, t: string)
    requires multiset(xs) == multiset(ys)
    ensures multiset(GroupOf(xs, d, t)) == multiset(GroupOf(ys, d, t))
  {
    forall b ensures multiset(GroupOf(xs, d, t))[b] == multiset(GroupOf(ys, d, t))[b] {
      GroupCount(xs, d, t, b);
      GroupCount(ys, d, t, b);
    }
  }

  lemma TailCount(xs: seq<WorkerBid>, x: WorkerBid, b: WorkerBid)
    ensures multiset(xs + [x])[b] == multiset(xs)[b] + if x == b then 1 else 0
  {}

  lemma GroupStep(xs: seq<WorkerBid>, d: string, t: string)
    requires xs != []
    ensures var before, x := GroupOf(xs[..|xs|-1], d, t), xs[|xs|-1];
      GroupOf(xs, d, t) == if x.domain == d && x.stageType == t then before + [x] else before
  {
    var before := GroupOf(xs[..|xs|-1], d, t);
    assert before + [] == before;
  }

  lemma {:induction false} GroupCount(xs: seq<WorkerBid>, d: string, t: string, b: WorkerBid)
    ensures multiset(GroupOf(xs, d, t))[b] == if b.domain == d && b.stageType == t then multiset(xs)[b] else 0
  {
    if xs != [] {
      var n := |xs| - 1;
      var before, x := GroupOf(xs[..n], d, t), xs[n];
      hide GroupOf;
      GroupStep(xs, d, t);
      GroupCount(xs[..n], d, t, b);
      assert multiset(xs)[b] == multiset(xs[..n])[b] + if x == b then 1 else 0 by {
        assert xs == xs[..n] + [x];
        TailCount(xs[..n], x, b);
      }
      if x.domain == d && x.stageType == t { TailCount(before, x, b); }
    }
  }

  // Prices do not depend on the order of the bids.
  lemma BidOrderIrrelevant(xs: seq<WorkerBid>, ys: seq<WorkerBid>, demand: map<string, nat>, d: string, t: string)
    requires multiset(xs) == multiset(ys)
    ensures Cleared(xs, demand, d, t) == Cleared(ys, demand, d, t)
  {
    hide GroupOf, Kth;
    var gx, gy := GroupOf(xs, d, t), GroupOf(ys, d, t);
    GroupPermutation(xs, ys, d, t);
    assert |multiset(gx)| == |gx| && |multiset(gy)| == |gy|;
    if gx != [] && Demanded(demand, t) > 0 {
      KthPermutation(gx, gy, CostOf(), Least(Demanded(demand, t), |gx|));
    }
  }

  // More demand never lowers the price of non-negative bids.
  lemma PriceRisesWithDemand(group: seq<WorkerBid>, less: nat, more: nat)
    requires group != [] && less <= more && forall b :: b in group ==> b.cost >= 0.0
    ensures PriceOf(group, less) <= PriceOf(group, more)
  {
    if less > 0 {
      KthMonotone(group, CostOf(), Least(less, |group|), Least(more, |group|));
    } else if more > 0 {
      var b := KthMember(group, CostOf(), Least(more, |group|));
    }
  }

  lemma ExtraBidGroups(bids: seq<WorkerBid>, b: WorkerBid, d: string, t: string)
    ensures GroupOf(bids + [b], d, t) == GroupOf(bids, d, t) + if b.domain == d && b.stageType == t then [b] else []
  {
    assert (bids + [b])[..|bids|] == bids;
  }

  // A further bid never raises the price exactly when the demand is already covered.
  lemma ExtraBidNeverRaises(group: seq<WorkerBid>, demand: nat)
    requires group != []
    ensures (forall b :: PriceOf(group + [b], demand) <= PriceOf(group, demand)) <==> demand <= |group|
  {
    if demand <= |group| {
      forall b ensures PriceOf(group + [b], demand) <= PriceOf(group, demand) {
        if demand > 0 { KthExtra(group, b, CostOf(), demand); }
      }
    } else {
      var b := WorkerBid("", "", "", PriceOf(group, demand) + 1.0);
      DearestBid(group, b);
      assert PriceOf(group + [b], demand) > PriceOf(group, demand);
    }
  }

  // A bid above every other one is the price when all bids are needed.
  lemma DearestBid(group: seq<WorkerBid>, b: WorkerBid)
    requires group != [] && b.cost > Kth(group, CostOf(), |group|)
    ensures Kth(group + [b], CostOf(), |group| + 1) == b.cost
  {
    var p := Kth(group, CostOf(), |group|);
    KthIsKth(group, CostOf(), |group|);
    CountGap(group, CostOf(), p, b.cost);
    CountLength(group, CostOf(), b.cost);
    assert (group + [b])[..|group|] == group;
    KthUnique(group + [b], CostOf(), |group| + 1, b.cost);
  }
}
