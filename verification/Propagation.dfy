// Peer health, recovery probes and summary freshness of the federation propagator.
module Propagation {
  import opened Sequences

  type Url = string

  // ---------------------------------------------------------------- one peer

  // Consecutive failures, health flag, rounds skipped since unhealthy.
  datatype Health = Health(failures: nat, healthy: bool, skipped: nat)

  const FRESH := Health(0, true, 0)

  // Thresholds: failures that make a peer unhealthy, rounds between recovery probes.
  datatype Limits = Limits(maxFailures: nat, probeInterval: nat)

  // Whether the peer is in the round, and its record afterwards.
  function Selected(lim: Limits, h: Health): bool {
    h.healthy || h.skipped + 1 >= lim.probeInterval
  }

  function AfterSelect(lim: Limits, h: Health): Health {
    if h.healthy then h
    else h.(skipped := if h.skipped + 1 >= lim.probeInterval then 0 else h.skipped + 1)
  }

  function AfterFailure(lim: Limits, h: Health): Health {
    Health(h.failures + 1, h.healthy && h.failures + 1 < lim.maxFailures, h.skipped)
  }

  function AfterRound(lim: Limits, h: Health, ok: bool): Health {
    if !Selected(lim, h) then AfterSelect(lim, h)
    else if ok then FRESH
    else AfterFailure(lim, AfterSelect(lim, h))
  }

  // ---------------------------------------------------------------- the propagator

  datatype Summary = Summary(domain: string, timestamp: real, body: string)

  // An older summary is rejected unless one of the two carries no timestamp.
  predicate Stale(existing: Summary, incoming: Summary) {
    incoming.timestamp != 0.0 && existing.timestamp != 0.0 && incoming.timestamp < existing.timestamp
  }

  class SummaryPropagator {
    const peers: seq<Url>
    const limits: Limits
    var peerFailures: map<Url, nat>
    var peerHealthy: map<Url, bool>
    var peerSkipCounter: map<Url, nat>
    var peerSummaries: map<string, Summary>

    constructor (urls: seq<Url>, lim: Limits)
      ensures peers == urls && limits == lim
      ensures forall u :: HealthOf(u) == FRESH
      ensures peerSummaries == map[]
    {
      peers, limits := urls, lim;
      peerFailures, peerHealthy, peerSkipCounter, peerSummaries := map[], map[], map[], map[];
    }

    // A peer never heard of is healthy.
    function HealthOf(u: Url): Health
      reads this
    {
      Health(if u in peerFailures then peerFailures[u] else 0,
             if u in peerHealthy then peerHealthy[u] else true,
             if u in peerSkipCounter then peerSkipCounter[u] else 0)
    }

    // _select_eligible_peers: one pass over the peer list.
    method SelectEligiblePeers() returns (eligible: seq<Url>)
      requires Distinct(peers)
      modifies this`peerSkipCounter
      ensures forall u :: u in eligible <==> u in peers && Selected(limits, old(HealthOf(u)))
      ensures forall u :: HealthOf(u) == if u in peers then AfterSelect(limits, old(HealthOf(u))) else old(HealthOf(u))
      ensures Distinct(eligible)
    {
      eligible := [];
      var k := 0;
      while k < |peers|
        invariant 0 <= k <= |peers|
        invariant forall u :: u in eligible <==> u in peers[..k] && Selected(limits, old(HealthOf(u)))
        invariant forall u ::
          HealthOf(u) == if u in peers[..k] then AfterSelect(limits, old(HealthOf(u))) else old(HealthOf(u))
        invariant Distinct(eligible)
      {
        var u := peers[k];
        TakeStep(peers, k);
        assert u !in peers[..k];
        if HealthOf(u).healthy {
          eligible := eligible + [u];
        } else {
          var count := HealthOf(u).skipped + 1;
          if count >= limits.probeInterval {
            eligible := eligible + [u];
            peerSkipCounter := peerSkipCounter[u := 0];
          } else {
            peerSkipCounter := peerSkipCounter[u := count];
          }
        }
        k := k + 1;
      }
      TakeAll(peers);
    }

    // _record_peer_failure
    method RecordPeerFailure(u: Url)
      modifies this`peerFailures, this`peerHealthy
      ensures HealthOf(u) == AfterFailure(limits, old(HealthOf(u)))
      ensures forall v :: v != u ==> HealthOf(v) == old(HealthOf(v))
    {
      var count := HealthOf(u).failures + 1;
      peerFailures := peerFailures[u := count];
      if count >= limits.maxFailures {
        peerHealthy := peerHealthy[u := false];
      }
    }

    // The success branch of _send_to_peer
    method RecordPeerSuccess(u: Url)
      modifies this`peerFailures, this`peerHealthy, this`peerSkipCounter
      ensures HealthOf(u) == FRESH
      ensures forall v :: v != u ==> HealthOf(v) == old(HealthOf(v))
    {
      peerFailures := peerFailures - {u};
      peerSkipCounter := peerSkipCounter - {u};
      peerHealthy := peerHealthy[u := true];
    }

    // push_summary: a round of sends; ok says which peers would accept one.
    method PushSummary(ok: map<Url, bool>) returns (sent: seq<Url>)
      requires Distinct(peers) && forall u :: u in peers ==> u in ok
      modifies this`peerFailures, this`peerHealthy, this`peerSkipCounter
      ensures forall u :: u in sent <==> u in peers && Selected(limits, old(HealthOf(u)))
      ensures forall u :: u in peers ==> HealthOf(u) == AfterRound(limits, old(HealthOf(u)), ok[u])
      ensures forall u :: u !in peers ==> HealthOf(u) == old(HealthOf(u))
    {
      sent := SelectEligiblePeers();
      ghost var chosen: map<Url, Health> := map u | u in peers :: HealthOf(u);
      var k := 0;
      while k < |sent|
        invariant 0 <= k <= |sent|
        invariant forall u :: u in peers && u !in sent[..k] ==> HealthOf(u) == chosen[u]
        invariant forall u :: u in sent[..k] ==> HealthOf(u) == if ok[u] then FRESH else AfterFailure(limits, chosen[u])
        invariant forall u :: u !in peers ==> HealthOf(u) == old(HealthOf(u))
      {
        var u := sent[k];
        TakeStep(sent, k);
        assert u !in sent[..k];
        if ok[u] {
          RecordPeerSuccess(u);
        } else {
          RecordPeerFailure(u);
        }
        k := k + 1;
      }
      TakeAll(sent);
    }

    // receive_summary
    method ReceiveSummary(s: Summary)
      modifies this`peerSummaries
      ensures peerSummaries == Received(old(peerSummaries), s)
    {
      if s.domain in peerSummaries {
        if Stale(peerSummaries[s.domain], s) {
          return;
        }
      }
      peerSummaries := peerSummaries[s.domain := s];
    }
  }

  function Received(cache: map<string, Summary>, s: Summary): map<string, Summary> {
    if s.domain in cache && Stale(cache[s.domain], s) then cache else cache[s.domain := s]
  }

  // ---------------------------------------------------------------- a peer over many rounds

  // The record after the rounds whose sends would have the given outcomes.
  function After(lim: Limits, oks: seq<bool>): Health {
    if oks == [] then FRESH else AfterRound(lim, After(lim, oks[..|oks|-1]), oks[|oks|-1])
  }

  // Outcomes of the sends that took place, in order.
  function Outcomes(lim: Limits, oks: seq<bool>): seq<bool> {
    if oks == [] then []
    else
      var before := oks[..|oks|-1];
      Outcomes(lim, before) + if Selected(lim, After(lim, before)) then [oks[|oks|-1]] else []
  }

  // Number of failures since the last success.
  function Streak(outcomes: seq<bool>): nat {
    if outcomes == [] || outcomes[|outcomes|-1] then 0 else 1 + Streak(outcomes[..|outcomes|-1])
  }

  lemma StreakGrows(outcomes: seq<bool>, ok: bool)
    ensures Streak(outcomes + [ok]) == if ok then 0 else 1 + Streak(outcomes)
  {
    assert (outcomes + [ok])[..|outcomes|] == outcomes;
  }

  // The record agrees with a number of consecutive failures.
  ghost predicate Counts(lim: Limits, h: Health, streak: nat) {
    h.failures == streak && (h.healthy <==> streak < lim.maxFailures)
  }

  lemma RoundCounts(lim: Limits, h: Health, streak: nat, ok: bool)
    requires lim.maxFailures >= 1 && Counts(lim, h, streak)
    ensures Counts(lim, AfterRound(lim, h, ok), if !Selected(lim, h) then streak else if ok then 0 else 1 + streak)
  {}

  // A peer is unhealthy exactly when its last maxFailures sends, or more, all failed.
  lemma {:induction false} HealthIsStreak(lim: Limits, oks: seq<bool>)
    requires lim.maxFailures >= 1
    ensures var h := After(lim, oks);
      h.failures == Streak(Outcomes(lim, oks)) && (h.healthy <==> h.failures < lim.maxFailures)
  {
    if oks != [] {
      hide AfterRound, Selected, Streak;
      var before, ok := oks[..|oks|-1], oks[|oks|-1];
      HealthIsStreak(lim, before);
      RoundCounts(lim, After(lim, before), Streak(Outcomes(lim, before)), ok);
      StreakGrows(Outcomes(lim, before), ok);
      assert Outcomes(lim, before) + [] == Outcomes(lim, before);
    } else {
      assert Outcomes(lim, oks) == [];
    }
  }

  function Failing(rounds: nat): seq<bool> {
    seq(rounds, _ => false)
  }

  lemma DivStep(a: nat, p: nat)
    requires p >= 1
    ensures (a + 1) / p == a / p + (if a % p + 1 == p then 1 else 0)
    ensures (a + 1) % p == if a % p + 1 == p then 0 else a % p + 1
  {
    var q, r := a / p, a % p;
    assert a == q * p + r;
    if r + 1 == p {
      assert a + 1 == (q + 1) * p;
      DivUnique(a + 1, p, q + 1, 0);
    } else {
      DivUnique(a + 1, p, q, r + 1);
    }
  }

  lemma DivUnique(a: nat, p: nat, q: nat, r: nat)
    requires p >= 1 && a == q * p + r && r < p
    ensures a / p == q && a % p == r
  {
    var d := a / p - q;
    assert a == (a / p) * p + a % p;
    assert d * p == r - a % p;
    assert d >= 1 ==> d * p >= p;
    assert d <= -1 ==> d * p <= -1 * p;
  }

  // A peer that always fails gets exactly min(N, F) + max(0, N - F) / P sends in N rounds.
  lemma {:induction false} BoundedProbing(lim: Limits, rounds: nat)
    requires lim.maxFailures >= 1 && lim.probeInterval >= 1
    ensures var f, p := lim.maxFailures, lim.probeInterval;
      && |Outcomes(lim, Failing(rounds))| == (if rounds < f then rounds else f + (rounds - f) / p)
      && After(lim, Failing(rounds)).skipped == (if rounds < f then 0 else (rounds - f) % p)
      && After(lim, Failing(rounds)).failures == |Outcomes(lim, Failing(rounds))|
      && (After(lim, Failing(rounds)).healthy <==> rounds < f)
  {
    if rounds > 0 {
      var n := rounds - 1;
      assert Failing(rounds)[..n] == Failing(n);
      BoundedProbing(lim, n);
      if n >= lim.maxFailures {
        DivStep(n - lim.maxFailures, lim.probeInterval);
      } else if n + 1 == lim.maxFailures {
        DivUnique(0, lim.probeInterval, 0, 0);
      }
    }
  }

  // Along every run an unhealthy peer waits less than a probe interval.
  lemma {:induction false} SkipsBounded(lim: Limits, oks: seq<bool>)
    requires lim.probeInterval >= 1
    ensures After(lim, oks).skipped < lim.probeInterval
  {
    if oks != [] { SkipsBounded(lim, oks[..|oks|-1]); }
  }

  // A peer that is up again is healthy after exactly the rest of its probe interval.
  lemma {:induction false} Recovers(lim: Limits, oks: seq<bool>, rounds: nat)
    requires lim.probeInterval >= 1
    ensures After(lim, oks + seq(rounds, _ => true)).healthy <==>
      After(lim, oks).healthy || rounds >= lim.probeInterval - After(lim, oks).skipped
    ensures !After(lim, oks + seq(rounds, _ => true)).healthy ==>
      After(lim, oks + seq(rounds, _ => true)).skipped == After(lim, oks).skipped + rounds
    decreases rounds
  {
    SkipsBounded(lim, oks);
    if rounds == 0 {
      assert oks + seq(0, _ => true) == oks;
    } else {
      var n := rounds - 1;
      assert (oks + seq(rounds, _ => true))[..|oks| + n] == oks + seq(n, _ => true);
      Recovers(lim, oks, n);
    }
  }

  // ---------------------------------------------------------------- freshness

  // What the cache holds for one domain after its summaries arrived in this order.
  function Stored(xs: seq<Summary>): Summary
    requires xs != []
  {
    var n := |xs| - 1;
    if n > 0 && Stale(Stored(xs[..n]), xs[n]) then Stored(xs[..n]) else xs[n]
  }

  function ReceivedAll(cache: map<string, Summary>, xs: seq<Summary>): map<string, Summary> {
    if xs == [] then cache else Received(ReceivedAll(cache, xs[..|xs|-1]), xs[|xs|-1])
  }

  lemma {:induction false} CacheHoldsStored(xs: seq<Summary>, domain: string)
    requires xs != [] && forall x :: x in xs ==> x.domain == domain
    ensures Stored(xs).domain == domain && ReceivedAll(map[], xs) == map[domain := Stored(xs)]
  {
    var n := |xs| - 1;
    assert xs[n] in xs;
    if n > 0 { CacheHoldsStored(xs[..n], domain); } else { assert ReceivedAll(map[], xs[..0]) == map[]; }
  }

  // The arrivals of one domain, in order.
  function Of(xs: seq<Summary>, domain: string): seq<Summary> {
    if xs == [] then []
    else Of(xs[..|xs|-1], domain) + if xs[|xs|-1].domain == domain then [xs[|xs|-1]] else []
  }

  lemma OfStep(xs: seq<Summary>, domain: string)
    requires xs != []
    ensures var before, x := Of(xs[..|xs|-1], domain), xs[|xs|-1];
      Of(xs, domain) == if x.domain == domain then before + [x] else before
  {
    var before := Of(xs[..|xs|-1], domain);
    assert before + [] == before;
  }

  lemma {:induction false} OfMeaning(xs: seq<Summary>, domain: string)
    ensures Of(xs, domain) == [] <==> forall x :: x in xs ==> x.domain != domain
  {
    if xs != [] {
      OfMeaning(xs[..|xs|-1], domain);
      OfStep(xs, domain);
      SplitLast(xs);
      hide Of;
    }
  }

  // However the arrivals of different domains mix, the cache holds an entry for exactly the
  // domains that sent one, and it is what their own arrivals determine.
  lemma {:induction false} CacheExactly(xs: seq<Summary>, domain: string)
    ensures domain in ReceivedAll(map[], xs) <==> exists x :: x in xs && x.domain == domain
    ensures domain in ReceivedAll(map[], xs) ==>
      Of(xs, domain) != [] && ReceivedAll(map[], xs)[domain] == Stored(Of(xs, domain))
  {
    OfMeaning(xs, domain);
    hide Stale, Of, Stored;
    if xs != [] {
      var n := |xs| - 1;
      CacheExactly(xs[..n], domain);
      OfMeaning(xs[..n], domain);
      OfStep(xs, domain);
      SplitLast(xs);
      StoredStep(Of(xs[..n], domain), xs[n]);
    }
  }

  lemma StoredStep(xs: seq<Summary>, x: Summary)
    ensures Stored(xs + [x]) == if xs != [] && Stale(Stored(xs), x) then Stored(xs) else x
  {
    assert (xs + [x])[..|xs|] == xs;
  }

  // With timestamps everywhere the cache holds the latest arrival of the greatest timestamp.
  lemma {:induction false} FreshestKept(xs: seq<Summary>)
    requires xs != [] && forall i :: 0 <= i < |xs| ==> xs[i].timestamp != 0.0
    ensures exists i :: 0 <= i < |xs| && Stored(xs) == xs[i] && FreshestAt(xs, i)
  {
    var n := |xs| - 1;
    if n == 0 {
      assert FreshestAt(xs, 0);
    } else {
      FreshestKept(xs[..n]);
      var i :| 0 <= i < n && Stored(xs[..n]) == xs[..n][i] && FreshestAt(xs[..n], i);
      FreshestStep(xs, i);
    }
  }

  lemma FreshestStep(xs: seq<Summary>, i: nat)
    requires |xs| >= 2 && i < |xs| - 1 && FreshestAt(xs[..|xs|-1], i)
    ensures FreshestAt(xs, if xs[|xs|-1].timestamp < xs[i].timestamp then i else |xs| - 1)
  {
    var n := |xs| - 1;
    assert forall j :: 0 <= j < n ==> xs[..n][j] == xs[j];
  }

  ghost predicate FreshestAt(xs: seq<Summary>, i: nat) {
    && i < |xs|
    && (forall j :: 0 <= j < |xs| ==> xs[j].timestamp <= xs[i].timestamp)
    && (forall j :: i < j < |xs| ==> xs[j].timestamp < xs[i].timestamp)
  }

  // A summary without a timestamp forgets everything before it.
  lemma {:induction false} LegacyResets(xs: seq<Summary>, k: nat)
    requires k < |xs| && xs[k].timestamp == 0.0
    ensures Stored(xs) == if k + 1 == |xs| then xs[k] else Stored(xs[k+1..])
  {
    var n := |xs| - 1;
    if k < n {
      LegacyResets(xs[..n], k);
      assert xs[..n][k+1..] == xs[k+1..][..n-k-1];
    }
  }
}
