// Shard snapshots on the wire: encoding a topology as lists of records and back.
module Snapshots {
  import opened Wrappers
  import opened Sequences
  import opened Topologies

  // current_load and compute_times may be missing; the latency matrix is a list of records.
  datatype NodeRecord = NodeRecord(
    nodeId: NodeId,
    domain: string,
    slice: string,
    capacity: real,
    load: Option<real>,
    computeTimes: Option<map<string, real>>)

  datatype LatencyRecord = LatencyRecord(a: NodeId, b: NodeId, ms: real)

  datatype UrlRecord = UrlRecord(nodeId: NodeId, url: string)

  // Missing sections decode as empty ones.
  datatype Snapshot = Snapshot(
    nodes: Option<seq<NodeRecord>>,
    latency: Option<seq<LatencyRecord>>,
    urls: Option<seq<UrlRecord>>)

  function OrEmpty<T>(xs: Option<seq<T>>): seq<T> {
    if xs.Some? then xs.value else []
  }

  function EncodeNode(n: Unit): NodeRecord {
    NodeRecord(n.nodeId, n.domain, n.slice, n.capacity, Some(n.load), n.computeTimes)
  }

  function DecodeNode(r: NodeRecord): Unit {
    Unit(r.nodeId, r.domain, r.slice, r.capacity, if r.load.Some? then r.load.value else 0.0, r.computeTimes)
  }

  function EncodeNodes(ns: seq<Unit>): seq<NodeRecord> {
    seq(|ns|, i requires 0 <= i < |ns| => EncodeNode(ns[i]))
  }

  function DecodeNodes(rs: seq<NodeRecord>): seq<Unit> {
    seq(|rs|, i requires 0 <= i < |rs| => DecodeNode(rs[i]))
  }

  // A dict comprehension over records: a later record overrides an earlier one.
  function DecodeLatency(rs: seq<LatencyRecord>): map<(NodeId, NodeId), real> {
    if rs == [] then map[]
    else
      var r := rs[|rs|-1];
      DecodeLatency(rs[..|rs|-1])[(r.a, r.b) := r.ms]
  }

  function DecodeUrls(rs: seq<UrlRecord>): map<NodeId, string> {
    if rs == [] then map[]
    else
      var r := rs[|rs|-1];
      DecodeUrls(rs[..|rs|-1])[r.nodeId := r.url]
  }

  // One record for each entry of the table, in any order.
  ghost predicate ListsLatency(rs: seq<LatencyRecord>, m: map<(NodeId, NodeId), real>) {
    DistinctKeys(rs) && ToSet(rs) == LatencySet(m)
  }

  function LatencySet(m: map<(NodeId, NodeId), real>): set<LatencyRecord> {
    set key | key in m :: LatencyRecord(key.0, key.1, m[key])
  }

  ghost predicate ListsUrls(rs: seq<UrlRecord>, m: map<NodeId, string>) {
    DistinctNames(rs) && ToSet(rs) == UrlSet(m)
  }

  function UrlSet(m: map<NodeId, string>): set<UrlRecord> {
    set n | n in m :: UrlRecord(n, m[n])
  }

  ghost predicate DistinctKeys(rs: seq<LatencyRecord>) {
    forall i, j :: 0 <= i < j < |rs| ==> (rs[i].a, rs[i].b) != (rs[j].a, rs[j].b)
  }

  ghost predicate DistinctNames(rs: seq<UrlRecord>) {
    forall i, j :: 0 <= i < j < |rs| ==> rs[i].nodeId != rs[j].nodeId
  }

  // topology_to_snapshot; the records follow the iteration order of the dictionaries,
  // which nothing below depends on.
  method TopologyToSnapshot(t: Topology, urls: Option<map<NodeId, string>>) returns (snap: Snapshot)
    ensures snap.nodes.Some? && snap.latency.Some? && snap.urls.Some?
    ensures snap.nodes.value == EncodeNodes(t.nodes)
    ensures ListsLatency(snap.latency.value, t.latency) && |snap.latency.value| == |t.latency|
    ensures ListsUrls(snap.urls.value, if urls.Some? then urls.value else map[])
    ensures SnapshotToTopology(snap) == t && SnapshotToUrls(snap) == if urls.Some? then urls.value else map[]
  {
    hide ListsLatency, ListsUrls, SnapshotToTopology, SnapshotToUrls;
    var routes := if urls.Some? then urls.value else map[];
    var latencies := LatencyRecords(t.latency);
    var entries := UrlRecords(routes);
    snap := Snapshot(Some(EncodeNodes(t.nodes)), Some(latencies), Some(entries));
    RoundTrip(t, routes, snap);
  }

  method LatencyRecords(m: map<(NodeId, NodeId), real>) returns (rs: seq<LatencyRecord>)
    ensures ListsLatency(rs, m) && |rs| == |m|
  {
    rs := [];
    var todo := m.Keys;
    while todo != {}
      invariant todo <= m.Keys && |rs| + |todo| == |m.Keys|
      invariant ListsLatency(rs, m - todo)
    {
      var key :| key in todo;
      LatencyListed(rs, m, todo, key);
      rs := rs + [LatencyRecord(key.0, key.1, m[key])];
      todo := todo - {key};
    }
    assert m - {} == m;
  }

  lemma LatencyListed(rs: seq<LatencyRecord>, m: map<(NodeId, NodeId), real>, todo: set<(NodeId, NodeId)>,
                      key: (NodeId, NodeId))
    requires ListsLatency(rs, m - todo) && key in todo && todo <= m.Keys
    ensures ListsLatency(rs + [LatencyRecord(key.0, key.1, m[key])], m - (todo - {key}))
  {
    LatencySetGrows(m - todo, key, m[key]);
    hide LatencySet;
    assert m - (todo - {key}) == (m - todo)[key := m[key]];
    AppendSet(rs, LatencyRecord(key.0, key.1, m[key]));
    forall i | 0 <= i < |rs| ensures (rs[i].a, rs[i].b) != key { assert rs[i] in ToSet(rs); }
  }

  lemma LatencySetGrows(m: map<(NodeId, NodeId), real>, key: (NodeId, NodeId), ms: real)
    requires key !in m
    ensures LatencySet(m[key := ms]) == LatencySet(m) + {LatencyRecord(key.0, key.1, ms)}
    ensures forall r :: r in LatencySet(m) ==> (r.a, r.b) != key
  {
    var after := m[key := ms];
    forall k | k in m ensures LatencyRecord(k.0, k.1, m[k]) in LatencySet(after) { assert after[k] == m[k]; }
    assert LatencyRecord(key.0, key.1, after[key]) in LatencySet(after);
  }

  method UrlRecords(m: map<NodeId, string>) returns (rs: seq<UrlRecord>)
    ensures ListsUrls(rs, m)
  {
    rs := [];
    var todo := m.Keys;
    while todo != {}
      invariant todo <= m.Keys && ListsUrls(rs, m - todo)
    {
      var n :| n in todo;
      UrlListed(rs, m, todo, n);
      rs := rs + [UrlRecord(n, m[n])];
      todo := todo - {n};
    }
    assert m - {} == m;
  }

  lemma UrlListed(rs: seq<UrlRecord>, m: map<NodeId, string>, todo: set<NodeId>, n: NodeId)
    requires ListsUrls(rs, m - todo) && n in todo && todo <= m.Keys
    ensures ListsUrls(rs + [UrlRecord(n, m[n])], m - (todo - {n}))
  {
    UrlSetGrows(m - todo, n, m[n]);
    hide UrlSet;
    assert m - (todo - {n}) == (m - todo)[n := m[n]];
    AppendSet(rs, UrlRecord(n, m[n]));
    forall i | 0 <= i < |rs| ensures rs[i].nodeId != n { assert rs[i] in ToSet(rs); }
  }

  lemma UrlSetGrows(m: map<NodeId, string>, n: NodeId, url: string)
    requires n !in m
    ensures UrlSet(m[n := url]) == UrlSet(m) + {UrlRecord(n, url)}
    ensures forall r :: r in UrlSet(m) ==> r.nodeId != n
  {
    var after := m[n := url];
    forall k | k in m ensures UrlRecord(k, m[k]) in UrlSet(after) { assert after[k] == m[k]; }
    assert UrlRecord(n, after[n]) in UrlSet(after);
  }

  // snapshot_to_topology
  function SnapshotToTopology(snap: Snapshot): Topology {
    Topology(DecodeNodes(OrEmpty(snap.nodes)), DecodeLatency(OrEmpty(snap.latency)))
  }

  // snapshot_to_worker_urls
  function SnapshotToUrls(snap: Snapshot): map<NodeId, string> {
    DecodeUrls(OrEmpty(snap.urls))
  }

  // Records of distinct pairs decode to exactly what they say.
  lemma {:induction false} DecodeMeaning(rs: seq<LatencyRecord>)
    requires DistinctKeys(rs)
    ensures forall a, b :: (a, b) in DecodeLatency(rs) <==> exists i :: 0 <= i < |rs| && rs[i].a == a && rs[i].b == b
    ensures forall i :: 0 <= i < |rs| ==>
      (rs[i].a, rs[i].b) in DecodeLatency(rs) && DecodeLatency(rs)[(rs[i].a, rs[i].b)] == rs[i].ms
  {
    if rs != [] {
      var n := |rs| - 1;
      DecodeMeaning(rs[..n]);
      assert forall i :: 0 <= i < n ==> rs[..n][i] == rs[i];
    }
  }

  lemma {:induction false} UrlMeaning(rs: seq<UrlRecord>)
    requires DistinctNames(rs)
    ensures forall n :: n in DecodeUrls(rs) <==> exists i :: 0 <= i < |rs| && rs[i].nodeId == n
    ensures forall i :: 0 <= i < |rs| ==> rs[i].nodeId in DecodeUrls(rs) && DecodeUrls(rs)[rs[i].nodeId] == rs[i].url
  {
    if rs != [] {
      var n := |rs| - 1;
      UrlMeaning(rs[..n]);
      assert forall i :: 0 <= i < n ==> rs[..n][i] == rs[i];
    }
  }

  // A record names the node's fields; a node without a load is idle, and missing sections are
  // empty ones.
  lemma MissingFields(r: NodeRecord, snap: Snapshot)
    ensures DecodeNode(r).nodeId == r.nodeId && DecodeNode(r).domain == r.domain && DecodeNode(r).slice == r.slice
    ensures DecodeNode(r).capacity == r.capacity && DecodeNode(r).computeTimes == r.computeTimes
    ensures r.load.Some? ==> DecodeNode(r).load == r.load.value
    ensures r.load.None? ==> DecodeNode(r).load == 0.0
    ensures snap.nodes.None? ==> SnapshotToTopology(snap).nodes == []
    ensures snap.latency.None? ==> SnapshotToTopology(snap).latency == map[]
    ensures snap.urls.None? ==> SnapshotToUrls(snap) == map[]
  {}

  // Of several records of one pair the last one counts.
  lemma {:induction false} LastRecordCounts(rs: seq<LatencyRecord>, i: nat)
    requires i < |rs| && forall j :: i < j < |rs| ==> (rs[j].a, rs[j].b) != (rs[i].a, rs[i].b)
    ensures var key := (rs[i].a, rs[i].b); key in DecodeLatency(rs) && DecodeLatency(rs)[key] == rs[i].ms
  {
    var n := |rs| - 1;
    if i < n {
      assert forall j :: 0 <= j < n ==> rs[..n][j] == rs[j];
      LastRecordCounts(rs[..n], i);
    }
  }

  lemma {:induction false} LastRouteCounts(rs: seq<UrlRecord>, i: nat)
    requires i < |rs| && forall j :: i < j < |rs| ==> rs[j].nodeId != rs[i].nodeId
    ensures rs[i].nodeId in DecodeUrls(rs) && DecodeUrls(rs)[rs[i].nodeId] == rs[i].url
  {
    var n := |rs| - 1;
    if i < n {
      assert forall j :: 0 <= j < n ==> rs[..n][j] == rs[j];
      LastRouteCounts(rs[..n], i);
    }
  }

  lemma LatencyDecodes(rs: seq<LatencyRecord>, m: map<(NodeId, NodeId), real>)
    requires ListsLatency(rs, m)
    ensures DecodeLatency(rs) == m
  {
    DecodeMeaning(rs);
    hide DecodeLatency, DistinctKeys;
    var k := DecodeLatency(rs);
    forall key | key in m ensures key in k && k[key] == m[key] {
      assert LatencyRecord(key.0, key.1, m[key]) in ToSet(rs);
      var i :| 0 <= i < |rs| && rs[i] == LatencyRecord(key.0, key.1, m[key]);
    }
    forall key | key in k ensures key in m {
      var (a, b) := key;
      var i :| 0 <= i < |rs| && rs[i].a == a && rs[i].b == b;
      assert rs[i] in ToSet(rs);
    }
    assert k == m;
  }

  lemma UrlsDecode(rs: seq<UrlRecord>, m: map<NodeId, string>)
    requires ListsUrls(rs, m)
    ensures DecodeUrls(rs) == m
  {
    UrlMeaning(rs);
    hide DecodeUrls, DistinctNames;
    var k := DecodeUrls(rs);
    forall n | n in m ensures n in k && k[n] == m[n] {
      assert UrlRecord(n, m[n]) in ToSet(rs);
      var i :| 0 <= i < |rs| && rs[i] == UrlRecord(n, m[n]);
    }
    forall n | n in k ensures n in m {
      var i :| 0 <= i < |rs| && rs[i].nodeId == n;
      assert rs[i] in ToSet(rs);
    }
    assert k == m;
  }

  // Whatever order the records come in, decoding gives the topology back: nodes in order,
  // loads, and every latency; and the routes.
  lemma RoundTrip(t: Topology, urls: map<NodeId, string>, snap: Snapshot)
    requires snap.nodes == Some(EncodeNodes(t.nodes))
    requires snap.latency.Some? && ListsLatency(snap.latency.value, t.latency)
    requires snap.urls.Some? && ListsUrls(snap.urls.value, urls)
    ensures SnapshotToTopology(snap) == t && SnapshotToUrls(snap) == urls
  {
    assert DecodeNodes(EncodeNodes(t.nodes)) == t.nodes;
    LatencyDecodes(snap.latency.value, t.latency);
    UrlsDecode(snap.urls.value, urls);
  }

  lemma RecordsKept(rs: seq<LatencyRecord>, qs: seq<LatencyRecord>, key: (NodeId, NodeId))
    requires DistinctKeys(rs) && DistinctKeys(qs) && ToSet(rs) <= ToSet(qs) && key in DecodeLatency(rs)
    ensures key in DecodeLatency(qs) && DecodeLatency(qs)[key] == DecodeLatency(rs)[key]
  {
    DecodeMeaning(rs);
    DecodeMeaning(qs);
    hide DecodeLatency;
    var (a, b) := key;
    var i :| 0 <= i < |rs| && rs[i].a == a && rs[i].b == b;
    assert rs[i] in ToSet(rs);
    assert rs[i] in ToSet(qs);
    var j :| 0 <= j < |qs| && qs[j] == rs[i];
  }

  // Two senders' orders of the same records decode alike.
  lemma OrderIrrelevant(rs: seq<LatencyRecord>, qs: seq<LatencyRecord>)
    requires DistinctKeys(rs) && DistinctKeys(qs) && ToSet(rs) == ToSet(qs)
    ensures DecodeLatency(rs) == DecodeLatency(qs)
  {
    hide DecodeLatency, DistinctKeys, ToSet;
    var m, k := DecodeLatency(rs), DecodeLatency(qs);
    forall key | key in m ensures key in k && k[key] == m[key] { RecordsKept(rs, qs, key); }
    forall key | key in k ensures key in m { RecordsKept(qs, rs, key); }
    assert m == k;
  }
}
