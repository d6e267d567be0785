// The sharded oracle: merging per-shard topologies and deciding over the union.
module Shards {
  import opened Wrappers
  import opened Sequences
  import opened Graphs
  import opened PipelineDags
  import opened Topologies
  import opened Feasibility
  import opened TreeOptimality
  import opened FindPlacement

  // ---------------------------------------------------------------- merging

  function AllNodes(topos: seq<Topology>): seq<Unit> {
    if topos == [] then [] else AllNodes(topos[..|topos|-1]) + topos[|topos|-1].nodes
  }

  // Later shards override earlier ones on a pair both name.
  function AllLatencies(topos: seq<Topology>): map<(NodeId, NodeId), real> {
    if topos == [] then map[] else AllLatencies(topos[..|topos|-1]) + topos[|topos|-1].latency
  }

  function Merged(topos: seq<Topology>, cross: map<(NodeId, NodeId), real>): Topology {
    Topology(AllNodes(topos), AllLatencies(topos) + cross)
  }

  // The nodes of the first shard come first, then those of the second, and so on.
  lemma {:induction false} NodesInOrder(xs: seq<Topology>, ys: seq<Topology>)
    ensures AllNodes(xs + ys) == AllNodes(xs) + AllNodes(ys)
    ensures forall t :: AllNodes([t]) == t.nodes
  {
    forall t ensures AllNodes([t]) == t.nodes { assert [t][..0] == []; }
    if ys == [] {
      assert xs + ys == xs;
    } else {
      var n := |ys| - 1;
      NodesInOrder(xs, ys[..n]);
      assert (xs + ys)[..|xs| + n] == xs + ys[..n];
    }
  }

  // The i-th shard is the last one whose table names the pair.
  ghost predicate LastNamed(topos: seq<Topology>, key: (NodeId, NodeId), i: nat) {
    && i < |topos| && key in topos[i].latency
    && forall j :: i < j < |topos| ==> key !in topos[j].latency
  }

  lemma {:induction false} LastShardCounts(topos: seq<Topology>, key: (NodeId, NodeId))
    ensures key in AllLatencies(topos) <==> exists i: nat :: LastNamed(topos, key, i)
    ensures forall i: nat :: LastNamed(topos, key, i) ==>
      key in AllLatencies(topos) && AllLatencies(topos)[key] == topos[i].latency[key]
  {
    if topos != [] {
      var n := |topos| - 1;
      LastShardCounts(topos[..n], key);
      if key in topos[n].latency {
        assert LastNamed(topos, key, n);
      } else {
        forall i: nat ensures LastNamed(topos, key, i) <==> LastNamed(topos[..n], key, i) {}
      }
    }
  }

  // A cross latency counts before every shard's, and a later shard's before an earlier one's.
  lemma TablesOverlaid(topos: seq<Topology>, cross: map<(NodeId, NodeId), real>, key: (NodeId, NodeId))
    ensures var merged := Merged(topos, cross).latency;
      && (key in merged <==> key in cross || exists i: nat :: LastNamed(topos, key, i))
      && (key in cross ==> merged[key] == cross[key])
      && (key !in cross ==> forall i: nat :: LastNamed(topos, key, i) ==> merged[key] == topos[i].latency[key])
  {
    LastShardCounts(topos, key);
    hide AllLatencies;
  }

  ghost predicate SeenIs(seen: set<NodeId>, nodes: seq<Unit>) {
    && Distinct(NodeIds(Topology(nodes, map[])))
    && seen == ToSet(NodeIds(Topology(nodes, map[])))
  }

  // merge_topologies fails exactly when two nodes share an id.
  method MergeTopologies(topos: seq<Topology>, cross: map<(NodeId, NodeId), real>) returns (r: Result<Topology, NodeId>)
    ensures r.Ok? <==> Distinct(NodeIds(Merged(topos, cross)))
    ensures r.Ok? ==> r.value == Merged(topos, cross)
  {
    var nodes: seq<Unit> := [];
    var seen: set<NodeId> := {};
    var latency: map<(NodeId, NodeId), real> := map[];
    var k := 0;
    assert NodeIds(Topology([], map[])) == [];
    while k < |topos|
      invariant 0 <= k <= |topos|
      invariant nodes == AllNodes(topos[..k]) && latency == AllLatencies(topos[..k])
      invariant SeenIs(seen, nodes)
    {
      assert topos[..k+1][..k] == topos[..k];
      ghost var before := nodes;
      var i := 0;
      while i < |topos[k].nodes|
        invariant 0 <= i <= |topos[k].nodes|
        invariant nodes == before + topos[k].nodes[..i]
        invariant SeenIs(seen, nodes)
      {
        var node := topos[k].nodes[i];
        IdsGrow(nodes, node);
        TakeStep(topos[k].nodes, i);
        if node.nodeId in seen {
          CollisionStays(topos, cross, k, i, nodes);
          return Error(node.nodeId);
        }
        seen := seen + {node.nodeId};
        nodes := nodes + [node];
        assert nodes == before + topos[k].nodes[..i+1];
        i := i + 1;
      }
      TakeAll(topos[k].nodes);
      latency := latency + topos[k].latency;
      k := k + 1;
    }
    TakeAll(topos);
    assert NodeIds(Topology(nodes, map[])) == NodeIds(Merged(topos, cross));
    return Ok(Topology(nodes, latency + cross));
  }

  lemma IdsGrow(nodes: seq<Unit>, node: Unit)
    ensures NodeIds(Topology(nodes + [node], map[])) == NodeIds(Topology(nodes, map[])) + [node.nodeId]
    ensures ToSet(NodeIds(Topology(nodes + [node], map[]))) == ToSet(NodeIds(Topology(nodes, map[]))) + {node.nodeId}
  {
    assert NodeIds(Topology(nodes + [node], map[])) == NodeIds(Topology(nodes, map[])) + [node.nodeId];
    AppendSet(NodeIds(Topology(nodes, map[])), node.nodeId);
  }

  lemma {:induction false} NodesGrow(topos: seq<Topology>, k: nat)
    requires k <= |topos|
    ensures AllNodes(topos[..k]) <= AllNodes(topos)
    decreases |topos|
  {
    if k < |topos| {
      var n := |topos| - 1;
      assert topos[..n][..k] == topos[..k];
      NodesGrow(topos[..n], k);
    } else {
      TakeAll(topos);
    }
  }

  // A collision met while merging is a collision in the merged list.
  lemma CollisionStays(topos: seq<Topology>, cross: map<(NodeId, NodeId), real>, k: nat, i: nat, nodes: seq<Unit>)
    requires k < |topos| && i < |topos[k].nodes| && nodes == AllNodes(topos[..k]) + topos[k].nodes[..i]
    requires topos[k].nodes[i].nodeId in ToSet(NodeIds(Topology(nodes, map[])))
    ensures !Distinct(NodeIds(Merged(topos, cross)))
  {
    var ids, all := NodeIds(Topology(nodes, map[])), AllNodes(topos);
    var j := IndexOf(ids, topos[k].nodes[i].nodeId);
    assert topos[..k+1][..k] == topos[..k];
    NodesGrow(topos, k + 1);
    assert all[|nodes|] == topos[k].nodes[i] by {
      assert AllNodes(topos[..k+1])[|nodes|] == topos[k].nodes[i];
    }
    assert all[j] == nodes[j] by {
      assert AllNodes(topos[..k+1])[j] == nodes[j];
    }
    assert NodeIds(Merged(topos, cross))[j] == NodeIds(Merged(topos, cross))[|nodes|];
  }

  // ---------------------------------------------------------------- one shard inside the union

  // t is seen unchanged inside m: same units, same latencies.
  ghost predicate Embeds(t: Topology, m: Topology) {
    && Distinct(NodeIds(t)) && Distinct(NodeIds(m))
    && (forall n :: n in t.nodes ==> n in m.nodes)
    && (forall a, b :: a in NodeIds(t) && b in NodeIds(t) ==> PairKept(t, m, a, b))
  }

  ghost predicate PairKept(t: Topology, m: Topology, a: NodeId, b: NodeId) {
    ((a, b) in t.latency <==> (a, b) in m.latency) && ((a, b) in t.latency ==> m.latency[(a, b)] == t.latency[(a, b)])
  }

  // A latency table that names no pair of nodes of t.
  ghost predicate Silent(t: Topology, latency: map<(NodeId, NodeId), real>) {
    forall a, b :: a in NodeIds(t) && b in NodeIds(t) ==> (a, b) !in latency
  }

  lemma {:induction false} FirstKept(topos: seq<Topology>, a: NodeId, b: NodeId)
    requires |topos| >= 1 && a in NodeIds(topos[0]) && b in NodeIds(topos[0])
    requires forall i :: 1 <= i < |topos| ==> Silent(topos[0], topos[i].latency)
    ensures (a, b) in AllLatencies(topos) <==> (a, b) in topos[0].latency
    ensures (a, b) in topos[0].latency ==> AllLatencies(topos)[(a, b)] == topos[0].latency[(a, b)]
  {
    var n := |topos| - 1;
    if n == 0 {
      assert AllLatencies(topos[..0]) == map[];
    } else {
      FirstKept(topos[..n], a, b);
      assert Silent(topos[0], topos[n].latency);
    }
  }

  lemma FirstEmbeds(topos: seq<Topology>, cross: map<(NodeId, NodeId), real>)
    requires |topos| >= 1 && Distinct(NodeIds(topos[0])) && Distinct(NodeIds(Merged(topos, cross)))
    requires forall i :: 1 <= i < |topos| ==> Silent(topos[0], topos[i].latency)
    requires Silent(topos[0], cross)
    ensures Embeds(topos[0], Merged(topos, cross))
  {
    var m := Merged(topos, cross);
    NodesGrow(topos, 1);
    assert AllNodes(topos[..1]) == topos[0].nodes by { assert topos[..1][..0] == []; }
    forall a, b | a in NodeIds(topos[0]) && b in NodeIds(topos[0]) ensures PairKept(topos[0], m, a, b) {
      FirstKept(topos, a, b);
      assert (a, b) !in cross;
    }
  }

  lemma NodeKept(t: Topology, m: Topology, a: NodeId)
    requires Embeds(t, m) && a in NodeIds(t)
    ensures a in NodeIds(m) && GetNode(m, a) == GetNode(t, a)
  {
    var n := GetNode(t, a);
    var i :| 0 <= i < |m.nodes| && m.nodes[i] == n;
    GetNodeAt(m, i);
  }

  lemma LatencyKept(t: Topology, m: Topology, a: NodeId, b: NodeId)
    requires Embeds(t, m) && a in NodeIds(t) && b in NodeIds(t) && HasLatency(t, a, b)
    ensures HasLatency(m, a, b) && Latency(m, a, b) == Latency(t, a, b)
  {
    assert PairKept(t, m, a, b) && PairKept(t, m, b, a);
  }

  // ---------------------------------------------------------------- merging never hurts

  // The same pipeline, rules and weights over the merged topology.
  function Widened(pr: Problem, m: Topology): Problem {
    pr.(t := m)
  }

  // A placement inside the shard is as feasible and as costly in the union.
  lemma SameInUnion(pr: Problem, m: Topology, p: Placement)
    requires ValidProblem(pr) && ValidTopology(m) && Embeds(pr.t, m) && TreeFeasible(pr, p)
    ensures TreeFeasible(Widened(pr, m), p)
    ensures Cost(Widened(pr, m), p) == Cost(pr, p)
  {
    SameFeasible(pr, m, p);
    SameCost(pr, m, p);
  }

  lemma SameFeasible(pr: Problem, m: Topology, p: Placement)
    requires ValidProblem(pr) && ValidTopology(m) && Embeds(pr.t, m) && TreeFeasible(pr, p)
    ensures TreeFeasible(Widened(pr, m), p)
  {
    var wide := Widened(pr, m);
    TotalKept(pr, m, p);
    hide FitsAlone, Embeds, EdgeAllowed, ValidTopology, Total, GetNode;
    forall s | s in p ensures FitsAlone(StageOf(wide, s), GetNode(m, p[s]), wide.gov) {
      NodeKept(pr.t, m, p[s]);
    }
    forall e | e in pr.g.edges ensures EdgeAllowed(wide, p, e) {
      EdgeKept(pr, m, p, e);
    }
  }

  lemma TotalKept(pr: Problem, m: Topology, p: Placement)
    requires Embeds(pr.t, m) && Total(pr, p)
    ensures Total(Widened(pr, m), p)
  {
    hide Embeds;
    forall s | s in p ensures p[s] in NodeIds(m) { NodeKept(pr.t, m, p[s]); }
  }

  lemma EdgeKept(pr: Problem, m: Topology, p: Placement, e: Edge)
    requires ValidProblem(pr) && ValidTopology(m) && Embeds(pr.t, m)
    requires Assigns(pr, p) && Assigns(Widened(pr, m), p) && EdgeAllowed(pr, p, e)
    ensures EdgeAllowed(Widened(pr, m), p, e)
  {
    hide Embeds;
    NodeKept(pr.t, m, p[e.source]);
    NodeKept(pr.t, m, p[e.target]);
    LatencyKept(pr.t, m, p[e.source], p[e.target]);
  }

  lemma SameCost(pr: Problem, m: Topology, p: Placement)
    requires ValidProblem(pr) && ValidTopology(m) && Embeds(pr.t, m) && Total(pr, p)
    ensures Cost(Widened(pr, m), p) == Cost(pr, p)
  {
    var wide := Widened(pr, m);
    hide Embeds, Weighted;
    forall e | e in pr.g.edges
      ensures LatencyOf(wide, p)(e) == LatencyOf(pr, p)(e)
      ensures CrossOf(wide, p)(e) == CrossOf(pr, p)(e)
    {
      EndsPlaced(pr, p, e);
      LatencyKept(pr.t, m, p[e.source], p[e.target]);
      NodeKept(pr.t, m, p[e.source]);
      NodeKept(pr.t, m, p[e.target]);
    }
    forall s | s in pr.g.ids ensures RatioOf(wide, p)(s) == RatioOf(pr, p)(s) {
      assert s in ToSet(pr.g.ids);
      NodeKept(pr.t, m, p[s]);
    }
    SumCong(pr.g.edges, LatencyOf(wide, p), LatencyOf(pr, p));
    SumCong(pr.g.edges, CrossOf(wide, p), CrossOf(pr, p));
    SumCong(pr.g.ids, RatioOf(wide, p), RatioOf(pr, p));
  }

  // The optimum over the union is at most the optimum over the coordinator's shard,
  // and exists whenever that one does.
  lemma MergingNeverHurts(pr: Problem, m: Topology, p: Placement, q: Placement)
    requires ValidProblem(pr) && ValidTopology(m) && Embeds(pr.t, m) && Optimal(pr, p)
    ensures exists r :: TreeFeasible(Widened(pr, m), r)
    ensures Optimal(Widened(pr, m), q) ==> Cost(Widened(pr, m), q) <= Cost(pr, p)
  {
    hide Cost, TreeFeasible, Embeds;
    SameInUnion(pr, m, p);
  }

  // ---------------------------------------------------------------- the coordinator's cross latencies

  // WAN_max between every pair of nodes in different domains.
  const WAN_MAX: real := 50.0

  // (coordinator node, peer node), then each pair of peer nodes, in different domains.
  ghost predicate CrossPair(nodes: seq<Unit>, peers: seq<Unit>, a: Unit, b: Unit) {
    && a.domain != b.domain
    && ((a in nodes && b in peers) || exists i, j :: 0 <= i < j < |peers| && peers[i] == a && peers[j] == b)
  }

  ghost predicate CrossKey(nodes: seq<Unit>, peers: seq<Unit>, key: (NodeId, NodeId)) {
    exists a, b :: CrossPair(nodes, peers, a, b) && key == (a.nodeId, b.nodeId)
  }

  function PairsFrom(a: Unit, bs: seq<Unit>): map<(NodeId, NodeId), real> {
    if bs == [] then map[]
    else
      var b := bs[|bs|-1];
      var rest := PairsFrom(a, bs[..|bs|-1]);
      if a.domain != b.domain then rest[(a.nodeId, b.nodeId) := WAN_MAX] else rest
  }

  lemma {:induction false} PairsFromMeaning(a: Unit, bs: seq<Unit>)
    ensures forall key :: key in PairsFrom(a, bs) <==>
      exists b :: b in bs && a.domain != b.domain && key == (a.nodeId, b.nodeId)
    ensures forall key :: key in PairsFrom(a, bs) ==> PairsFrom(a, bs)[key] == WAN_MAX
  {
    if bs != [] {
      var n := |bs| - 1;
      PairsFromMeaning(a, bs[..n]);
      assert forall b :: b in bs <==> b in bs[..n] || b == bs[n];
    }
  }

  // One row of the double loop.
  method CrossRow(a: Unit, bs: seq<Unit>, start: map<(NodeId, NodeId), real>)
    returns (cross: map<(NodeId, NodeId), real>)
    ensures cross == start + PairsFrom(a, bs)
  {
    cross := start;
    var j := 0;
    while j < |bs|
      invariant 0 <= j <= |bs|
      invariant cross == start + PairsFrom(a, bs[..j])
    {
      assert bs[..j+1][..j] == bs[..j];
      if a.domain != bs[j].domain {
        cross := cross[(a.nodeId, bs[j].nodeId) := WAN_MAX];
      }
      j := j + 1;
    }
    TakeAll(bs);
  }

  // _cross_latencies: names exactly the cross-domain pairs that involve a peer node.
  method CrossLatencies(nodes: seq<Unit>, peers: seq<Unit>) returns (cross: map<(NodeId, NodeId), real>)
    ensures forall key :: key in cross <==> CrossKey(nodes, peers, key)
    ensures forall key :: key in cross ==> cross[key] == 50.0
  {
    cross := map[];
    var i := 0;
    while i < |nodes|
      invariant 0 <= i <= |nodes|
      invariant forall key :: key in cross <==>
        exists a, b :: a in nodes[..i] && b in peers && a.domain != b.domain && key == (a.nodeId, b.nodeId)
      invariant forall key :: key in cross ==> cross[key] == WAN_MAX
    {
      PairsFromMeaning(nodes[i], peers);
      TakeStep(nodes, i);
      cross := CrossRow(nodes[i], peers, cross);
      i := i + 1;
    }
    TakeAll(nodes);
    ghost var between := cross;
    var k := 0;
    while k < |peers|
      invariant 0 <= k <= |peers|
      invariant forall key :: key in cross <==> key in between || PeerKey(peers, k, key)
      invariant forall key :: key in cross ==> cross[key] == WAN_MAX
    {
      PairsFromMeaning(peers[k], peers[k+1..]);
      PeerKeyStep(peers, k);
      cross := CrossRow(peers[k], peers[k+1..], cross);
      k := k + 1;
    }
    forall key ensures key in cross <==> CrossKey(nodes, peers, key) {
      CrossKeySplits(nodes, peers, key);
    }
  }

  // Pairs of peer nodes whose first node is among the first k.
  ghost predicate PeerKey(peers: seq<Unit>, k: nat, key: (NodeId, NodeId)) {
    exists i, j ::
      0 <= i < k && i < j < |peers| && peers[i].domain != peers[j].domain && key == (peers[i].nodeId, peers[j].nodeId)
  }

  lemma PeerKeyStep(peers: seq<Unit>, k: nat)
    requires k < |peers|
    ensures forall key :: PeerKey(peers, k + 1, key) <==>
      PeerKey(peers, k, key)
      || exists b :: b in peers[k+1..] && peers[k].domain != b.domain && key == (peers[k].nodeId, b.nodeId)
  {
    forall key ensures PeerKey(peers, k + 1, key) <==>
      PeerKey(peers, k, key)
      || exists b :: b in peers[k+1..] && peers[k].domain != b.domain && key == (peers[k].nodeId, b.nodeId)
    {
      if PeerKey(peers, k + 1, key) && !PeerKey(peers, k, key) {
        var i, j :|
          0 <= i < k + 1 && i < j < |peers| && peers[i].domain != peers[j].domain
          && key == (peers[i].nodeId, peers[j].nodeId);
        assert i == k && peers[k+1..][j-k-1] == peers[j];
      }
      if exists b :: b in peers[k+1..] && peers[k].domain != b.domain && key == (peers[k].nodeId, b.nodeId) {
        var b :| b in peers[k+1..] && peers[k].domain != b.domain && key == (peers[k].nodeId, b.nodeId);
        var j :| 0 <= j < |peers[k+1..]| && peers[k+1..][j] == b;
        assert peers[k+1+j] == b;
      }
    }
  }

  lemma CrossKeySplits(nodes: seq<Unit>, peers: seq<Unit>, key: (NodeId, NodeId))
    ensures CrossKey(nodes, peers, key) <==>
      (exists a, b :: a in nodes && b in peers && a.domain != b.domain && key == (a.nodeId, b.nodeId))
      || PeerKey(peers, |peers|, key)
  {
    if CrossKey(nodes, peers, key) {
      var a, b :| CrossPair(nodes, peers, a, b) && key == (a.nodeId, b.nodeId);
      if !(a in nodes && b in peers) {
        var i, j :| 0 <= i < j < |peers| && peers[i] == a && peers[j] == b;
        assert PeerKey(peers, |peers|, key);
      }
    }
    if exists a, b :: a in nodes && b in peers && a.domain != b.domain && key == (a.nodeId, b.nodeId) {
      var a, b :| a in nodes && b in peers && a.domain != b.domain && key == (a.nodeId, b.nodeId);
      assert CrossPair(nodes, peers, a, b);
    }
    if PeerKey(peers, |peers|, key) {
      var i, j :|
        0 <= i < |peers| && i < j < |peers| && peers[i].domain != peers[j].domain
        && key == (peers[i].nodeId, peers[j].nodeId);
      assert CrossPair(nodes, peers, peers[i], peers[j]);
    }
  }

  // Cross latencies never name two of the coordinator's own nodes.
  lemma CrossIsSilent(t: Topology, peers: seq<Unit>, cross: map<(NodeId, NodeId), real>)
    requires forall key :: key in cross ==> CrossKey(t.nodes, peers, key)
    requires forall b :: b in peers ==> b.nodeId !in NodeIds(t)
    ensures Silent(t, cross)
  {
    forall x, y | y in NodeIds(t) ensures !CrossKey(t.nodes, peers, (x, y)) {}
  }

  // ---------------------------------------------------------------- coverage of the merged table

  // A shard's own table covers its nodes and names no others.
  ghost predicate OwnTable(t: Topology) {
    ValidTopology(t) && forall a, b :: (a, b) in t.latency ==> a in NodeIds(t) && b in NodeIds(t)
  }

  ghost predicate OneDomain(t: Topology) {
    forall x, y :: x in t.nodes && y in t.nodes ==> x.domain == y.domain
  }

  ghost predicate Covers(t: Topology) {
    forall a, b {:trigger HasLatency(t, a, b)} :: a in NodeIds(t) && b in NodeIds(t) ==> HasLatency(t, a, b)
  }

  ghost predicate Apart(topos: seq<Topology>, i: nat, j: nat)
    requires i < |topos| && j < |topos|
  {
    forall x, y :: x in topos[i].nodes && y in topos[j].nodes ==> x.domain != y.domain
  }

  // Nodes of different shards lie in different domains.
  ghost predicate DomainsSeparate(topos: seq<Topology>) {
    forall i, j :: 0 <= i < j < |topos| ==> Apart(topos, i, j)
  }

  // What the coordinator merges: own tables, distinct ids, computed cross latencies.
  ghost predicate Federation(topos: seq<Topology>, cross: map<(NodeId, NodeId), real>) {
    && |topos| >= 1
    && (forall i :: 0 <= i < |topos| ==> OwnTable(topos[i]))
    && Distinct(NodeIds(Merged(topos, cross)))
    && (forall key :: key in cross <==> CrossKey(topos[0].nodes, AllNodes(topos[1..]), key))
    && (forall key :: key in cross ==> cross[key] == WAN_MAX)
  }

  lemma {:induction false} NodeOrigin(topos: seq<Topology>, n: Unit)
    ensures n in AllNodes(topos) <==> exists i :: 0 <= i < |topos| && n in topos[i].nodes
  {
    if topos != [] {
      var m := |topos| - 1;
      NodeOrigin(topos[..m], n);
      if n in AllNodes(topos[..m]) {
        var i :| 0 <= i < m && n in topos[..m][i].nodes;
        assert n in topos[i].nodes;
      } else if exists i :: 0 <= i < |topos| && n in topos[i].nodes {
        var i :| 0 <= i < |topos| && n in topos[i].nodes;
        assert i < m ==> topos[..m][i] == topos[i];
      }
    }
  }

  ghost predicate StoredBy(topos: seq<Topology>, i: nat, key: (NodeId, NodeId)) {
    && i < |topos| && key in topos[i].latency
    && key in AllLatencies(topos) && AllLatencies(topos)[key] == topos[i].latency[key]
  }

  lemma {:induction false} TableOrigin(topos: seq<Topology>, key: (NodeId, NodeId))
    ensures key in AllLatencies(topos) <==> exists i :: 0 <= i < |topos| && key in topos[i].latency
    ensures key in AllLatencies(topos) ==> exists i: nat :: StoredBy(topos, i, key)
  {
    if topos != [] {
      var m := |topos| - 1;
      TableOrigin(topos[..m], key);
      if key in topos[m].latency {
        assert StoredBy(topos, m, key);
      } else if key in AllLatencies(topos[..m]) {
        var i: nat :| StoredBy(topos[..m], i, key);
        assert StoredBy(topos, i, key);
      }
    }
  }

  lemma SameUnit(m: Topology, x: Unit, y: Unit)
    requires Distinct(NodeIds(m)) && x in m.nodes && y in m.nodes && x.nodeId == y.nodeId
    ensures x == y
  {
    var i :| 0 <= i < |m.nodes| && m.nodes[i] == x;
    var j :| 0 <= j < |m.nodes| && m.nodes[j] == y;
    assert NodeIds(m)[i] == NodeIds(m)[j];
  }

  lemma {:induction false} DisjointShards(topos: seq<Topology>, i: nat, j: nat, x: Unit, y: Unit)
    requires Distinct(NodeIds(Topology(AllNodes(topos), map[])))
    requires i < j < |topos| && x in topos[i].nodes && y in topos[j].nodes
    ensures x.nodeId != y.nodeId
    decreases |topos|
  {
    var n := |topos| - 1;
    var front := NodeIds(Topology(AllNodes(topos[..n]), map[]));
    assert NodeIds(Topology(AllNodes(topos), map[])) == front + NodeIds(topos[n]);
    DistinctParts(front, NodeIds(topos[n]));
    if j < n {
      DisjointShards(topos[..n], i, j, x, y);
    } else {
      assert topos[..n][i] == topos[i];
      NodeOrigin(topos[..n], x);
      IdListed(AllNodes(topos[..n]), x);
      IdListed(topos[n].nodes, y);
      assert NodeIds(Topology(topos[n].nodes, map[])) == NodeIds(topos[n]);
    }
  }

  lemma IdListed(nodes: seq<Unit>, x: Unit)
    requires x in nodes
    ensures x.nodeId in NodeIds(Topology(nodes, map[]))
  {
    var i :| 0 <= i < |nodes| && nodes[i] == x;
    assert NodeIds(Topology(nodes, map[]))[i] == x.nodeId;
  }

  // A unit and its shard.
  lemma Located(topos: seq<Topology>, cross: map<(NodeId, NodeId), real>, a: NodeId) returns (x: Unit, i: nat)
    requires a in NodeIds(Merged(topos, cross))
    ensures x.nodeId == a && x in AllNodes(topos) && i < |topos| && x in topos[i].nodes
  {
    x := GetNode(Merged(topos, cross), a);
    NodeOrigin(topos, x);
    i :| 0 <= i < |topos| && x in topos[i].nodes;
  }

  lemma PeerOf(topos: seq<Topology>, j: nat, y: Unit)
    requires 1 <= j < |topos| && y in topos[j].nodes
    ensures y in AllNodes(topos[1..])
  {
    assert topos[1..][j-1] == topos[j];
    NodeOrigin(topos[1..], y);
  }

  // Two units in different domains, one of them a peer's, are in the cross table in one order.
  lemma CrossNamed(nodes: seq<Unit>, peers: seq<Unit>, x: Unit, y: Unit)
    requires x.domain != y.domain && (x in nodes || x in peers) && y in peers
    ensures CrossKey(nodes, peers, (x.nodeId, y.nodeId)) || CrossKey(nodes, peers, (y.nodeId, x.nodeId))
  {
    if x in nodes {
      assert CrossPair(nodes, peers, x, y);
    } else {
      var i :| 0 <= i < |peers| && peers[i] == x;
      var j :| 0 <= j < |peers| && peers[j] == y;
      if i < j { assert CrossPair(nodes, peers, x, y); } else { assert CrossPair(nodes, peers, y, x); }
    }
  }

  lemma ApartCovered(topos: seq<Topology>, cross: map<(NodeId, NodeId), real>, x: Unit, i: nat, y: Unit, j: nat)
    requires Federation(topos, cross) && DomainsSeparate(topos)
    requires i < j < |topos| && x in topos[i].nodes && y in topos[j].nodes
    ensures HasLatency(Merged(topos, cross), x.nodeId, y.nodeId) && HasLatency(Merged(topos, cross), y.nodeId, x.nodeId)
  {
    assert Apart(topos, i, j);
    PeerOf(topos, j, y);
    if i >= 1 { PeerOf(topos, i, x); }
    CrossNamed(topos[0].nodes, AllNodes(topos[1..]), x, y);
  }

  lemma OwnCovered(topos: seq<Topology>, cross: map<(NodeId, NodeId), real>, x: Unit, y: Unit, i: nat)
    requires Federation(topos, cross) && i < |topos| && x in topos[i].nodes && y in topos[i].nodes
    ensures HasLatency(Merged(topos, cross), x.nodeId, y.nodeId)
  {
    IdListed(topos[i].nodes, x);
    IdListed(topos[i].nodes, y);
    assert NodeIds(Topology(topos[i].nodes, map[])) == NodeIds(topos[i]);
    assert OwnTable(topos[i]) && HasLatency(topos[i], x.nodeId, y.nodeId);
    TableOrigin(topos, (x.nodeId, y.nodeId));
    TableOrigin(topos, (y.nodeId, x.nodeId));
  }

  lemma SeparateCovers(topos: seq<Topology>, cross: map<(NodeId, NodeId), real>)
    requires Federation(topos, cross) && DomainsSeparate(topos)
    ensures Covers(Merged(topos, cross))
  {
    hide Federation, DomainsSeparate, Merged;
    forall a, b | a in NodeIds(Merged(topos, cross)) && b in NodeIds(Merged(topos, cross))
      ensures HasLatency(Merged(topos, cross), a, b)
    {
      var x, i := Located(topos, cross, a);
      var y, j := Located(topos, cross, b);
      if i == j {
        OwnCovered(topos, cross, x, y, i);
      } else if i < j {
        ApartCovered(topos, cross, x, i, y, j);
      } else {
        ApartCovered(topos, cross, y, j, x, i);
      }
    }
  }

  // A key of the cross table joins two units in different domains.
  lemma CrossDomains(topos: seq<Topology>, cross: map<(NodeId, NodeId), real>, x: Unit, y: Unit)
    requires Federation(topos, cross) && x in AllNodes(topos) && y in AllNodes(topos)
    requires (x.nodeId, y.nodeId) in cross
    ensures x.domain != y.domain
  {
    var m, peers := Merged(topos, cross), AllNodes(topos[1..]);
    assert CrossKey(topos[0].nodes, peers, (x.nodeId, y.nodeId));
    var a, b :| CrossPair(topos[0].nodes, peers, a, b) && (x.nodeId, y.nodeId) == (a.nodeId, b.nodeId);
    FromAll(topos, a);
    FromAll(topos, b);
    SameUnit(m, a, x);
    SameUnit(m, b, y);
  }

  lemma FromAll(topos: seq<Topology>, a: Unit)
    requires |topos| >= 1 && (a in topos[0].nodes || a in AllNodes(topos[1..]))
    ensures a in AllNodes(topos)
  {
    NodeOrigin(topos, a);
    NodeOrigin(topos[1..], a);
    if a in AllNodes(topos[1..]) {
      var i :| 0 <= i < |topos[1..]| && a in topos[1..][i].nodes;
      assert a in topos[i + 1].nodes;
    }
  }

  // A key of a shard's table joins two units of that shard.
  lemma OwnNames(topos: seq<Topology>, cross: map<(NodeId, NodeId), real>, k: nat, x: Unit, y: Unit)
    requires Federation(topos, cross) && x in AllNodes(topos) && y in AllNodes(topos)
    requires k < |topos| && (x.nodeId, y.nodeId) in topos[k].latency
    ensures x in topos[k].nodes && y in topos[k].nodes
  {
    var m := Merged(topos, cross);
    assert OwnTable(topos[k]);
    var a, b := GetNode(topos[k], x.nodeId), GetNode(topos[k], y.nodeId);
    NodeOrigin(topos, a);
    NodeOrigin(topos, b);
    SameUnit(m, a, x);
    SameUnit(m, b, y);
  }

  lemma SameDomainUncovered(topos: seq<Topology>, cross: map<(NodeId, NodeId), real>, i: nat, j: nat, x: Unit, y: Unit)
    requires Federation(topos, cross) && i < j < |topos|
    requires x in topos[i].nodes && y in topos[j].nodes && x.domain == y.domain
    ensures !HasLatency(Merged(topos, cross), x.nodeId, y.nodeId)
  {
    NodeOrigin(topos, x);
    NodeOrigin(topos, y);
    OnlyShard(topos, cross, i, j, x, y);
    if (x.nodeId, y.nodeId) in cross { CrossDomains(topos, cross, x, y); }
    if (y.nodeId, x.nodeId) in cross { CrossDomains(topos, cross, y, x); }
    TableOrigin(topos, (x.nodeId, y.nodeId));
    TableOrigin(topos, (y.nodeId, x.nodeId));
    if k :| 0 <= k < |topos| && (x.nodeId, y.nodeId) in topos[k].latency { OwnNames(topos, cross, k, x, y); }
    if k :| 0 <= k < |topos| && (y.nodeId, x.nodeId) in topos[k].latency { OwnNames(topos, cross, k, y, x); }
  }

  lemma OnlyShard(topos: seq<Topology>, cross: map<(NodeId, NodeId), real>, i: nat, j: nat, x: Unit, y: Unit)
    requires Federation(topos, cross) && i < j < |topos| && x in topos[i].nodes && y in topos[j].nodes
    ensures x.nodeId != y.nodeId
    ensures forall k :: 0 <= k < |topos| ==> !(x in topos[k].nodes && y in topos[k].nodes)
  {
    assert NodeIds(Topology(AllNodes(topos), map[])) == NodeIds(Merged(topos, cross));
    DisjointShards(topos, i, j, x, y);
    forall k | 0 <= k < |topos| ensures !(x in topos[k].nodes && y in topos[k].nodes) {
      if x in topos[k].nodes && y in topos[k].nodes {
        if k < j { DisjointShards(topos, k, j, y, y); } else { DisjointShards(topos, i, k, x, x); }
      }
    }
  }

  // The merged table has full pairwise coverage exactly when nodes of different shards
  // lie in different domains.
  lemma CoverageExact(topos: seq<Topology>, cross: map<(NodeId, NodeId), real>)
    requires Federation(topos, cross)
    ensures Covers(Merged(topos, cross)) <==> DomainsSeparate(topos)
  {
    hide Federation, HasLatency;
    if DomainsSeparate(topos) {
      SeparateCovers(topos, cross);
    } else {
      var i, j :| 0 <= i < j < |topos| && !Apart(topos, i, j);
      var x, y :| x in topos[i].nodes && y in topos[j].nodes && x.domain == y.domain;
      SameDomainUncovered(topos, cross, i, j, x, y);
      NodeOrigin(topos, x);
      NodeOrigin(topos, y);
      IdListed(AllNodes(topos), x);
      IdListed(AllNodes(topos), y);
      assert NodeIds(Topology(AllNodes(topos), map[])) == NodeIds(Merged(topos, cross));
    }
  }

  lemma KeyUnits(topos: seq<Topology>, cross: map<(NodeId, NodeId), real>, a: NodeId, b: NodeId)
    returns (x: Unit, y: Unit)
    requires Federation(topos, cross) && (a, b) in Merged(topos, cross).latency
    ensures x in AllNodes(topos) && y in AllNodes(topos) && x.nodeId == a && y.nodeId == b
  {
    if (a, b) in cross {
      assert CrossKey(topos[0].nodes, AllNodes(topos[1..]), (a, b));
      x, y :| CrossPair(topos[0].nodes, AllNodes(topos[1..]), x, y) && (a, b) == (x.nodeId, y.nodeId);
      FromAll(topos, x);
      FromAll(topos, y);
    } else {
      TableOrigin(topos, (a, b));
      var k: nat :| StoredBy(topos, k, (a, b));
      assert OwnTable(topos[k]);
      x, y := GetNode(topos[k], a), GetNode(topos[k], b);
      NodeOrigin(topos, x);
      NodeOrigin(topos, y);
    }
  }

  // Within one-domain shards a pair is either in the cross table or in a shard's own.
  lemma OneSource(topos: seq<Topology>, cross: map<(NodeId, NodeId), real>, x: Unit, y: Unit)
    requires Federation(topos, cross) && x in AllNodes(topos) && y in AllNodes(topos)
    requires forall i :: 0 <= i < |topos| ==> OneDomain(topos[i])
    requires (y.nodeId, x.nodeId) in AllLatencies(topos)
    ensures (x.nodeId, y.nodeId) !in cross
  {
    if (x.nodeId, y.nodeId) in cross {
      CrossDomains(topos, cross, x, y);
      TableOrigin(topos, (y.nodeId, x.nodeId));
      var k: nat :| StoredBy(topos, k, (y.nodeId, x.nodeId));
      OwnNames(topos, cross, k, y, x);
    }
  }

  lemma SameShard(topos: seq<Topology>, cross: map<(NodeId, NodeId), real>, i: nat, j: nat, x: Unit)
    requires Federation(topos, cross) && i < |topos| && j < |topos| && x in topos[i].nodes && x in topos[j].nodes
    ensures i == j
  {
    assert NodeIds(Topology(AllNodes(topos), map[])) == NodeIds(Merged(topos, cross));
    if i < j { DisjointShards(topos, i, j, x, x); }
    if j < i { DisjointShards(topos, j, i, x, x); }
  }

  lemma SymmetricAt(topos: seq<Topology>, cross: map<(NodeId, NodeId), real>, a: NodeId, b: NodeId)
    requires Federation(topos, cross) && forall i :: 0 <= i < |topos| ==> OneDomain(topos[i])
    requires (a, b) in Merged(topos, cross).latency && (b, a) in Merged(topos, cross).latency
    ensures Merged(topos, cross).latency[(a, b)] == Merged(topos, cross).latency[(b, a)]
  {
    var x, y := KeyUnits(topos, cross, a, b);
    if (a, b) in AllLatencies(topos) { OneSource(topos, cross, y, x); }
    if (b, a) in AllLatencies(topos) { OneSource(topos, cross, x, y); }
    if (a, b) !in cross && (b, a) !in cross {
      TableOrigin(topos, (a, b));
      TableOrigin(topos, (b, a));
      var i: nat :| StoredBy(topos, i, (a, b));
      var j: nat :| StoredBy(topos, j, (b, a));
      OwnNames(topos, cross, i, x, y);
      OwnNames(topos, cross, j, y, x);
      SameShard(topos, cross, i, j, x);
      assert OwnTable(topos[i]);
    }
  }

  // With one domain a shard, different for each, the union is again a valid topology.
  lemma MergedValid(topos: seq<Topology>, cross: map<(NodeId, NodeId), real>)
    requires Federation(topos, cross) && DomainsSeparate(topos)
    requires forall i :: 0 <= i < |topos| ==> OneDomain(topos[i])
    ensures ValidTopology(Merged(topos, cross))
  {
    var m := Merged(topos, cross);
    CoverageExact(topos, cross);
    forall a, b | (a, b) in m.latency && (b, a) in m.latency ensures m.latency[(a, b)] == m.latency[(b, a)] {
      SymmetricAt(topos, cross, a, b);
    }
  }

  // ---------------------------------------------------------------- deciding over the union

  datatype GlobalError = Collision(node: NodeId) | NoPlacement

  function Reported(r: Result<Placement, ()>): Result<Placement, GlobalError> {
    if r.Ok? then Ok(r.value) else Error(NoPlacement)
  }

  // decide_globally: merge, then place over the merged workers.
  method DecideGlobally(dag: PipelineDAG, local: Topology, peers: seq<Topology>, cross: map<(NodeId, NodeId), real>,
                        gov: Governance, w: Weights)
    returns (r: Result<Placement, GlobalError>)
    requires dag.Valid()
    requires var m := Merged([local] + peers, cross); Distinct(NodeIds(m)) ==> ValidTopology(m)
    ensures r.Error? && r.error.Collision? <==> !Distinct(NodeIds(Merged([local] + peers, cross)))
    ensures Distinct(NodeIds(Merged([local] + peers, cross))) ==>
      exists answer ::
        r == Reported(answer) && Answers(Problem(dag.View(), Merged([local] + peers, cross), gov, w), answer)
  {
    hide Answers;
    var merged := MergeTopologies([local] + peers, cross);
    if merged.Error? {
      return Error(Collision(merged.error));
    }
    var answer := Find(dag, merged.value, gov, w);
    return Reported(answer);
  }

  lemma ShardEmbeds(topos: seq<Topology>, cross: map<(NodeId, NodeId), real>)
    requires Federation(topos, cross)
    ensures Embeds(topos[0], Merged(topos, cross))
  {
    var t := topos[0];
    assert NodeIds(Topology(AllNodes(topos), map[])) == NodeIds(Merged(topos, cross));
    forall i | 1 <= i < |topos| ensures Silent(t, topos[i].latency) {
      forall a, b | a in NodeIds(t) && (a, b) in topos[i].latency ensures false {
        assert OwnTable(topos[i]);
        DisjointShards(topos, 0, i, GetNode(t, a), GetNode(topos[i], a));
      }
    }
    var peers := AllNodes(topos[1..]);
    forall b | b in peers ensures b.nodeId !in NodeIds(t) {
      NodeOrigin(topos[1..], b);
      var i :| 0 <= i < |topos[1..]| && b in topos[1..][i].nodes;
      if b.nodeId in NodeIds(t) { DisjointShards(topos, 0, i + 1, GetNode(t, b.nodeId), b); }
    }
    CrossIsSilent(t, peers, cross);
    FirstEmbeds(topos, cross);
  }

  ghost predicate SpreadWithin(pr: Problem, order: seq<StageId>, optimum: Placement, p: Placement, bound: real)
    requires ValidProblem(pr)
  {
    SpreadOptimum(pr, order, optimum, p) && Cost(pr, optimum) <= bound
  }

  // On an in-tree the global decision exists whenever the coordinator's own shard can
  // place the pipeline, and the optimum it redistributes costs no more than the shard's.
  lemma GlobalNeverWorse(pr: Problem, topos: seq<Topology>, cross: map<(NodeId, NodeId), real>, p: Placement,
                         r: Result<Placement, ()>)
    requires Federation(topos, cross) && DomainsSeparate(topos)
    requires forall i :: 0 <= i < |topos| ==> OneDomain(topos[i])
    requires pr.t == topos[0] && ValidProblem(pr) && InTree(pr.g) && Optimal(pr, p)
    requires ValidTopology(Merged(topos, cross)) && Answers(Widened(pr, Merged(topos, cross)), r)
    ensures r.Ok?
    ensures exists order, q :: SpreadWithin(Widened(pr, Merged(topos, cross)), order, q, r.value, Cost(pr, p))
  {
    hide Federation, DomainsSeparate, TreeFeasible, Cost, Merged, Embeds, ValidTopology, InTree;
    var m := Merged(topos, cross);
    ShardEmbeds(topos, cross);
    SameInUnion(pr, m, p);
    var order, q :| SpreadOptimum(Widened(pr, m), order, q, r.value);
    MergingNeverHurts(pr, m, p, q);
    assert SpreadWithin(Widened(pr, m), order, q, r.value, Cost(pr, p));
  }
}
