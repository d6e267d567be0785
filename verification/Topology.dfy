// Execution units, pairwise latencies and governance rules.
module Topologies {
  import opened Wrappers
  import opened Sequences
  import opened Graphs

  type NodeId = string

  // computeTimes holds the milliseconds a stage type takes here, where they are known.
  datatype Unit = Unit(
    nodeId: NodeId,
    domain: string,
    slice: string,
    capacity: real,
    load: real,
    computeTimes: Option<map<string, real>>)
  {
    function Residual(): real {
      capacity - load
    }
  }

  datatype Topology = Topology(nodes: seq<Unit>, latency: map<(NodeId, NodeId), real>)

  datatype Governance = Governance(localTypes: set<string>, trust: map<(string, string), real>)

  // Slack of every bound check in the source: 1e-9.
  const TOLERANCE: real := 0.000000001

  // Smallest capacity a load ratio divides by: 1e-12.
  const MIN_CAPACITY: real := 0.000000000001

  function NodeIds(t: Topology): seq<NodeId> {
    seq(|t.nodes|, i requires 0 <= i < |t.nodes| => t.nodes[i].nodeId)
  }

  // Both orders of a pair are looked up; same-node communication is free.
  predicate HasLatency(t: Topology, a: NodeId, b: NodeId) {
    a == b || (a, b) in t.latency || (b, a) in t.latency
  }

  // What the source asks of a topology: ids are unique, the matrix covers every
  // pair of nodes and is symmetric wherever it stores both orders.
  ghost predicate ValidTopology(t: Topology) {
    && Distinct(NodeIds(t))
    && (forall a, b {:trigger HasLatency(t, a, b)} :: a in NodeIds(t) && b in NodeIds(t) ==> HasLatency(t, a, b))
    && (forall a, b :: (a, b) in t.latency && (b, a) in t.latency ==> t.latency[(a, b)] == t.latency[(b, a)])
  }

  function GetNode(t: Topology, id: NodeId): (n: Unit)
    requires id in NodeIds(t)
    ensures n in t.nodes && n.nodeId == id
  {
    t.nodes[IndexOf(NodeIds(t), id)]
  }

  lemma GetNodeAt(t: Topology, i: nat)
    requires Distinct(NodeIds(t)) && i < |t.nodes|
    ensures t.nodes[i].nodeId in NodeIds(t)
    ensures IndexOf(NodeIds(t), t.nodes[i].nodeId) == i
    ensures GetNode(t, t.nodes[i].nodeId) == t.nodes[i]
  {
    assert NodeIds(t)[i] == t.nodes[i].nodeId;
    IndexOfDistinct(NodeIds(t), i);
  }

  function Latency(t: Topology, a: NodeId, b: NodeId): real
    requires HasLatency(t, a, b)
  {
    if a == b then 0.0
    else if (a, b) in t.latency then t.latency[(a, b)]
    else t.latency[(b, a)]
  }

  lemma LatencySymmetric(t: Topology, a: NodeId, b: NodeId)
    requires ValidTopology(t) && HasLatency(t, a, b)
    ensures Latency(t, a, b) == Latency(t, b, a)
  {}

  function Trust(gov: Governance, a: string, b: string): real {
    if a == b then 1.0
    else if (a, b) in gov.trust then gov.trust[(a, b)]
    else if (b, a) in gov.trust then gov.trust[(b, a)]
    else 0.0
  }

  // A flat worker accepts any slice requirement.
  predicate SliceMatches(workerSlice: string, required: Option<string>) {
    required.None? || workerSlice == "flat" || workerSlice == required.value
  }

  // Sovereignty: the declared domain, if any, is the unit's domain.
  predicate SovereigntyHolds(stage: Stage, node: Unit) {
    stage.domain.None? || node.domain == stage.domain.value
  }

  // _is_node_feasible_simple: capacity, slice, sovereignty, local stage type.
  predicate FitsAlone(stage: Stage, node: Unit, gov: Governance) {
    if stage.demand > node.Residual() + TOLERANCE then false
    else if !SliceMatches(node.slice, stage.slice) then false
    else if stage.domain.Some? && node.domain != stage.domain.value then false
    else if stage.stageType in gov.localTypes && stage.domain.Some? && node.domain != stage.domain.value then false
    else true
  }

  // rho_v / C_node
  function LoadRatio(stage: Stage, node: Unit): real {
    stage.demand / Max(node.capacity, MIN_CAPACITY)
  }
}
