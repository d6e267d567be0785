// The pass after the trace-back: siblings that feed the same stage from the same
// node are spread over other nodes that have room.
module Redistribution {
  import opened Wrappers
  import opened Minima
  import opened Sequences
  import opened Sorting
  import opened Graphs
  import opened Topologies
  import opened Feasibility

  // A placement, the load committed per node, and a record of the stages moved.
  datatype Ledger = Ledger(p: Placement, load: map<NodeId, real>, moved: seq<StageId>)

  // ---------------------------------------------------------------- one move

  // Committed load of a node that could take the stage instead of nid; infinite otherwise.
  function AltScore(pr: Problem, stage: Stage, nid: NodeId, load: map<NodeId, real>, node: Unit): Ext {
    if node.nodeId != nid && FitsAlone(stage, node, pr.gov)
       && node.Residual() - LoadEntry(load, node.nodeId) >= stage.demand - TOLERANCE
    then Fin(LoadEntry(load, node.nodeId))
    else Inf
  }

  function AltScores(pr: Problem, stage: Stage, nid: NodeId, load: map<NodeId, real>): seq<Ext> {
    seq(|pr.t.nodes|, i requires 0 <= i < |pr.t.nodes| => AltScore(pr, stage, nid, load, pr.t.nodes[i]))
  }

  // The least-loaded alternative, the first one on ties.
  function BestAlternative(pr: Problem, stage: Stage, nid: NodeId, load: map<NodeId, real>): Option<nat> {
    ArgMin(AltScores(pr, stage, nid, load))
  }

  function Shift(st: Ledger, c: StageId, alt: NodeId, demand: real): Ledger
    requires c in st.p
  {
    var lowered := st.load[st.p[c] := LoadEntry(st.load, st.p[c]) - demand];
    Ledger(st.p[c := alt], lowered[alt := LoadEntry(lowered, alt) + demand], st.moved + [c])
  }

  function MoveOne(pr: Problem, st: Ledger, c: StageId): Ledger {
    if c !in st.p || c !in pr.g.stages then st
    else
      var stage := pr.g.stages[c];
      var best := BestAlternative(pr, stage, st.p[c], st.load);
      if best.None? then st else Shift(st, c, pr.t.nodes[best.value].nodeId, stage.demand)
  }

  function MoveAll(pr: Problem, st: Ledger, cs: seq<StageId>): Ledger {
    if cs == [] then st else MoveOne(pr, MoveAll(pr, st, cs[..|cs|-1]), cs[|cs|-1])
  }

  // ---------------------------------------------------------------- which stages

  // Predecessors placed on node n, in order.
  function Colocated(preds: seq<StageId>, p: Placement, n: NodeId): seq<StageId> {
    if preds == [] then []
    else
      var c := preds[|preds|-1];
      Colocated(preds[..|preds|-1], p, n) + if c in p && p[c] == n then [c] else []
  }

  // Nodes hosting predecessors, in order of first appearance.
  function HostNodes(preds: seq<StageId>, p: Placement): seq<NodeId> {
    if preds == [] then []
    else
      var c := preds[|preds|-1];
      var before := HostNodes(preds[..|preds|-1], p);
      if c in p && p[c] !in before then before + [p[c]] else before
  }

  function NegatedDemand(pr: Problem): StageId -> real {
    (c: StageId) => if c in pr.g.stages then -pr.g.stages[c].demand else 0.0
  }

  // The siblings on n except the heaviest one, heaviest first.
  function Movable(pr: Problem, preds: seq<StageId>, p: Placement, n: NodeId): seq<StageId> {
    var group := SortBy(Colocated(preds, p, n), NegatedDemand(pr));
    if |group| <= 1 then [] else group[1..]
  }

  // The siblings of the given host nodes, group after group.
  function MovableOf(pr: Problem, preds: seq<StageId>, p: Placement, hosts: seq<NodeId>): seq<StageId> {
    if hosts == [] then []
    else MovableOf(pr, preds, p, hosts[..|hosts|-1]) + Movable(pr, preds, p, hosts[|hosts|-1])
  }

  // The stages one fan-in stage offers for moving, decided before any of them moves.
  function Plan(pr: Problem, p: Placement, v: StageId): seq<StageId> {
    var preds := Preds(pr.g.edges, v);
    if |preds| < 2 then [] else MovableOf(pr, preds, p, HostNodes(preds, p))
  }

  function Spread(pr: Problem, st: Ledger, order: seq<StageId>): Ledger {
    if order == [] then st
    else
      var before := Spread(pr, st, order[..|order|-1]);
      MoveAll(pr, before, Plan(pr, before.p, order[|order|-1]))
  }

  // ---------------------------------------------------------------- the pass itself

  method FindAlternative(pr: Problem, stage: Stage, nid: NodeId, load: map<NodeId, real>) returns (best: Option<nat>)
    ensures best == BestAlternative(pr, stage, nid, load)
  {
    best := None;
    var bestLoad: Ext := Inf;
    ghost var scores := AltScores(pr, stage, nid, load);
    var i := 0;
    while i < |pr.t.nodes|
      invariant 0 <= i <= |pr.t.nodes|
      invariant best == ArgMin(scores[..i]) && bestLoad == Score(scores[..i], best)
    {
      ArgMinStep(scores, i);
      var node := pr.t.nodes[i];
      i := i + 1;
      if node.nodeId == nid {
        continue;
      }
      if !FitsAlone(stage, node, pr.gov) {
        continue;
      }
      var current := LoadEntry(load, node.nodeId);
      var residual := node.capacity - node.load - current;
      if residual < stage.demand - TOLERANCE {
        continue;
      }
      if Less(Fin(current), bestLoad) {
        bestLoad, best := Fin(current), Some(i - 1);
      }
    }
    TakeAll(scores);
  }

  method MoveSiblings(pr: Problem, start: Ledger, siblings: seq<StageId>) returns (st: Ledger)
    requires forall c :: c in siblings ==> c in start.p && c in pr.g.stages
    ensures st == MoveAll(pr, start, siblings)
    ensures st.p.Keys == start.p.Keys
  {
    st := start;
    var i := 0;
    while i < |siblings|
      invariant 0 <= i <= |siblings|
      invariant st == MoveAll(pr, start, siblings[..i])
      invariant st.p.Keys == start.p.Keys
    {
      var c := siblings[i];
      assert c in siblings;
      assert siblings[..i+1][..i] == siblings[..i];
      var stage := pr.g.stages[c];
      var best := FindAlternative(pr, stage, st.p[c], st.load);
      if best.Some? {
        st := Shift(st, c, pr.t.nodes[best.value].nodeId, stage.demand);
      }
      i := i + 1;
    }
    TakeAll(siblings);
  }

  function GroupAt(groups: map<NodeId, seq<StageId>>, n: NodeId): seq<StageId> {
    if n in groups then groups[n] else []
  }

  ghost predicate GroupsOf(cs: seq<StageId>, p: Placement, hosts: seq<NodeId>, groups: map<NodeId, seq<StageId>>) {
    && hosts == HostNodes(cs, p)
    && groups.Keys == ToSet(hosts)
    && forall n :: GroupAt(groups, n) == Colocated(cs, p, n)
  }

  lemma GroupStep(cs: seq<StageId>, p: Placement, hosts: seq<NodeId>, groups: map<NodeId, seq<StageId>>, c: StageId)
    requires GroupsOf(cs, p, hosts, groups) && c in p
    ensures GroupsOf(cs + [c], p, if p[c] in groups then hosts else hosts + [p[c]],
                     groups[p[c] := GroupAt(groups, p[c]) + [c]])
  {
    hide HostNodes, Colocated;
    AppendSet(hosts, p[c]);
    assert p[c] in hosts <==> p[c] in groups;
    HostsStep(cs, p, c);
    forall n ensures GroupAt(groups[p[c] := GroupAt(groups, p[c]) + [c]], n) == Colocated(cs + [c], p, n) {
      ColocatedStep(cs, p, groups, c, n);
    }
  }

  lemma HostsStep(cs: seq<StageId>, p: Placement, c: StageId)
    requires c in p
    ensures HostNodes(cs + [c], p) == if p[c] in HostNodes(cs, p) then HostNodes(cs, p) else HostNodes(cs, p) + [p[c]]
  {
    AppendSet(cs, c);
  }

  lemma ColocatedStep(cs: seq<StageId>, p: Placement, groups: map<NodeId, seq<StageId>>, c: StageId, n: NodeId)
    requires c in p && GroupAt(groups, n) == Colocated(cs, p, n) && GroupAt(groups, p[c]) == Colocated(cs, p, p[c])
    ensures GroupAt(groups[p[c] := GroupAt(groups, p[c]) + [c]], n) == Colocated(cs + [c], p, n)
  {
    AppendSet(cs, c);
    if n != p[c] { assert Colocated(cs + [c], p, n) == Colocated(cs, p, n); }
  }

  // Groups the predecessors by the node they are on.
  method GroupByNode(preds: seq<StageId>, p: Placement) returns (hosts: seq<NodeId>, groups: map<NodeId, seq<StageId>>)
    requires forall c :: c in preds ==> c in p
    ensures GroupsOf(preds, p, hosts, groups)
  {
    hosts, groups := [], map[];
    var i := 0;
    while i < |preds|
      invariant 0 <= i <= |preds|
      invariant GroupsOf(preds[..i], p, hosts, groups)
    {
      hide GroupsOf;
      var c := preds[i];
      assert c in preds;
      GroupStep(preds[..i], p, hosts, groups, c);
      TakeStep(preds, i);
      if p[c] !in groups {
        hosts := hosts + [p[c]];
      }
      groups := groups[p[c] := GroupAt(groups, p[c]) + [c]];
      i := i + 1;
    }
    TakeAll(preds);
  }

  method SpreadFanIn(pr: Problem, start: Ledger, v: StageId) returns (st: Ledger)
    requires WellFormed(pr.g) && forall s :: s in pr.g.stages ==> s in start.p
    ensures st == MoveAll(pr, start, Plan(pr, start.p, v))
    ensures st.p.Keys == start.p.Keys
  {
    st := start;
    var preds := Preds(pr.g.edges, v);
    if |preds| < 2 {
      return;
    }
    forall c | c in preds ensures c in pr.g.stages { PredIsStage(pr.g, c, v); }
    var hosts, groups := GroupByNode(preds, start.p);
    var i := 0;
    while i < |hosts|
      invariant 0 <= i <= |hosts|
      invariant st == MoveAll(pr, start, MovableOf(pr, preds, start.p, hosts[..i]))
      invariant st.p.Keys == start.p.Keys
    {
      hide MoveAll, SortBy, Colocated, HostNodes, WellFormed;
      var n := hosts[i];
      assert n in ToSet(hosts);
      var group := SortBy(groups[n], NegatedDemand(pr));
      assert GroupAt(groups, n) == Colocated(preds, start.p, n);
      var next := if |group| <= 1 then [] else group[1..];
      MovableKnown(pr, preds, start.p, n);
      MovableStep(pr, start, preds, hosts, i);
      st := MoveSiblings(pr, st, next);
      i := i + 1;
    }
    TakeAll(hosts);
  }

  lemma MovableStep(pr: Problem, start: Ledger, preds: seq<StageId>, hosts: seq<NodeId>, i: nat)
    requires i < |hosts|
    ensures MoveAll(pr, start, MovableOf(pr, preds, start.p, hosts[..i+1]))
      == MoveAll(
           pr, MoveAll(pr, start, MovableOf(pr, preds, start.p, hosts[..i])), Movable(pr, preds, start.p, hosts[i]))
  {
    assert hosts[..i+1][..i] == hosts[..i];
    MoveAllConcat(pr, start, MovableOf(pr, preds, start.p, hosts[..i]), Movable(pr, preds, start.p, hosts[i]));
  }

  lemma {:induction false} MoveAllConcat(pr: Problem, st: Ledger, xs: seq<StageId>, ys: seq<StageId>)
    ensures MoveAll(pr, st, xs + ys) == MoveAll(pr, MoveAll(pr, st, xs), ys)
  {
    if ys == [] {
      assert xs + ys == xs;
    } else {
      var n := |ys| - 1;
      MoveAllConcat(pr, st, xs, ys[..n]);
      assert (xs + ys)[..|xs + ys| - 1] == xs + ys[..n];
    }
  }

  lemma {:induction false} ColocatedIn(preds: seq<StageId>, p: Placement, n: NodeId)
    ensures forall c :: c in Colocated(preds, p, n) <==> c in preds && c in p && p[c] == n
    ensures Distinct(preds) ==> Distinct(Colocated(preds, p, n))
  {
    if preds != [] {
      var i := |preds| - 1;
      ColocatedIn(preds[..i], p, n);
      assert forall c :: c in preds <==> c in preds[..i] || c == preds[i];
    }
  }

  lemma MovableKnown(pr: Problem, preds: seq<StageId>, p: Placement, n: NodeId)
    ensures forall c :: c in Movable(pr, preds, p, n) ==>
      c in preds && c in p && p[c] == n
    ensures Distinct(preds) ==> Distinct(Movable(pr, preds, p, n))
  {
    var group := Colocated(preds, p, n);
    ColocatedIn(preds, p, n);
    SortKeeps(group, NegatedDemand(pr));
    SameElements(SortBy(group, NegatedDemand(pr)), group);
    if Distinct(preds) { SortDistinct(group, NegatedDemand(pr)); }
  }

  // The whole pass: the ledger is filled from the placement, then every fan-in is spread.
  method Redistribute(pr: Problem, order: seq<StageId>, p: Placement) returns (st: Ledger)
    requires ValidProblem(pr) && Total(pr, p)
    ensures st == Spread(pr, Ledger(p, LoadsOf(pr, p), []), order)
    ensures st.p.Keys == p.Keys
  {
    var load := CommittedLoad(pr, p);
    st := Ledger(p, load, []);
    var i := 0;
    while i < |order|
      invariant 0 <= i <= |order|
      invariant st == Spread(pr, Ledger(p, load, []), order[..i])
      invariant st.p.Keys == p.Keys
    {
      assert order[..i+1][..i] == order[..i];
      st := SpreadFanIn(pr, st, order[i]);
      i := i + 1;
    }
    TakeAll(order);
  }

  // committed_load of a placement: an entry for every node in use.
  ghost function LoadsOf(pr: Problem, p: Placement): map<NodeId, real> {
    map n | n in p.Values :: NodeLoad(pr, p, n)
  }

  method CommittedLoad(pr: Problem, p: Placement) returns (load: map<NodeId, real>)
    requires ValidProblem(pr) && Total(pr, p)
    ensures load == LoadsOf(pr, p)
  {
    load := NodeLoads(pr, p);
    forall n | n in load ensures load[n] == NodeLoad(pr, p, n) {
      assert LoadEntry(load, n) == NodeLoad(pr, p, n);
    }
  }

  // ---------------------------------------------------------------- what the pass keeps

  ghost predicate LedgerExact(pr: Problem, st: Ledger) {
    Total(pr, st.p) && forall n :: LoadEntry(st.load, n) == NodeLoad(pr, st.p, n)
  }

  ghost predicate StagesFit(pr: Problem, p: Placement)
    requires Total(pr, p)
  {
    forall s :: s in p ==> FitsAlone(StageOf(pr, s), GetNode(pr.t, p[s]), pr.gov)
  }

  // A capacity violation in the checker's sense.
  ghost predicate Overloaded(pr: Problem, p: Placement, n: NodeId)
    requires n in NodeIds(pr.t)
  {
    n in p.Values && NodeLoad(pr, p, n) > GetNode(pr.t, n).Residual() + TOLERANCE
  }

  // A node overloaded by q was overloaded by p, and by no less.
  ghost predicate NoNewOverload(pr: Problem, p: Placement, q: Placement) {
    forall n :: n in NodeIds(pr.t) && Overloaded(pr, q, n) ==>
      Overloaded(pr, p, n) && NodeLoad(pr, q, n) <= NodeLoad(pr, p, n)
  }

  // Only the stages in the record have moved, each of them off its node.
  ghost predicate MovedOnly(p: Placement, st: Ledger) {
    && p.Keys == st.p.Keys
    && (forall s :: s in st.moved ==> s in p && st.p[s] != p[s])
    && (forall s :: s in p && s !in st.moved ==> st.p[s] == p[s])
  }

  ghost predicate Kept(pr: Problem, p: Placement, st: Ledger) {
    && ValidProblem(pr) && Total(pr, p)
    && LedgerExact(pr, st) && Distinct(st.moved) && MovedOnly(p, st)
    && (StagesFit(pr, p) ==> StagesFit(pr, st.p))
    && NoNewOverload(pr, p, st.p)
  }

  lemma {:induction false} SumMoved(pr: Problem, xs: seq<StageId>, p: Placement, c: StageId, alt: NodeId, n: NodeId)
    requires Distinct(xs) && c in p && c in pr.g.stages
    ensures Sum(xs, LoadOn(pr, p[c := alt], n)) == Sum(xs, LoadOn(pr, p, n))
      + (if c in xs && alt == n then pr.g.stages[c].demand else 0.0)
      - (if c in xs && p[c] == n then pr.g.stages[c].demand else 0.0)
  {
    if xs != [] {
      var i := |xs| - 1;
      SumMoved(pr, xs[..i], p, c, alt, n);
      assert xs[i] !in xs[..i];
    }
  }

  lemma LoadMoved(pr: Problem, p: Placement, c: StageId, alt: NodeId, n: NodeId)
    requires WellFormed(pr.g) && c in p && c in pr.g.stages
    ensures NodeLoad(pr, p[c := alt], n) == NodeLoad(pr, p, n)
      + (if alt == n then pr.g.stages[c].demand else 0.0)
      - (if p[c] == n then pr.g.stages[c].demand else 0.0)
  {
    assert c in ToSet(pr.g.ids);
    SumMoved(pr, pr.g.ids, p, c, alt, n);
  }

  // The node chosen as the alternative has room and admits the stage.
  lemma AlternativeFits(pr: Problem, st: Ledger, c: StageId, i: nat)
    requires ValidProblem(pr) && c in st.p && c in pr.g.stages
    requires BestAlternative(pr, pr.g.stages[c], st.p[c], st.load) == Some(i)
    ensures i < |pr.t.nodes| && pr.t.nodes[i].nodeId in NodeIds(pr.t)
    ensures GetNode(pr.t, pr.t.nodes[i].nodeId) == pr.t.nodes[i]
    ensures pr.t.nodes[i].nodeId != st.p[c] && FitsAlone(pr.g.stages[c], pr.t.nodes[i], pr.gov)
    ensures LoadEntry(st.load, pr.t.nodes[i].nodeId) + pr.g.stages[c].demand <= pr.t.nodes[i].Residual() + TOLERANCE
  {
    GetNodeAt(pr.t, i);
    var node := pr.t.nodes[i];
    assert AltScores(pr, pr.g.stages[c], st.p[c], st.load)[i] == AltScore(pr, pr.g.stages[c], st.p[c], st.load, node);
  }

  // The alternative is the least loaded of the nodes that could take the stage, and there is
  // none only if no node could.
  lemma AlternativeLeast(pr: Problem, stage: Stage, nid: NodeId, load: map<NodeId, real>, j: nat)
    requires j < |pr.t.nodes| && AltScore(pr, stage, nid, load, pr.t.nodes[j]).Fin?
    ensures var best := BestAlternative(pr, stage, nid, load);
      && best.Some? && AltScore(pr, stage, nid, load, pr.t.nodes[best.value]).Fin?
      && LoadEntry(load, pr.t.nodes[best.value].nodeId) <= LoadEntry(load, pr.t.nodes[j].nodeId)
  {
    var scores := AltScores(pr, stage, nid, load);
    ArgMinLeast(scores);
    assert scores[j].Fin? && AtMost(Score(scores, ArgMin(scores)), scores[j]);
  }

  // A heaviest sibling stays on its node: whatever is offered for moving weighs no more.
  lemma HeaviestStays(pr: Problem, preds: seq<StageId>, p: Placement, n: NodeId) returns (kept: StageId)
    requires Distinct(preds) && (forall c :: c in preds ==> c in pr.g.stages) && Movable(pr, preds, p, n) != []
    ensures kept in Colocated(preds, p, n) && kept !in Movable(pr, preds, p, n) && kept in pr.g.stages
    ensures forall c :: c in Movable(pr, preds, p, n) ==>
      c in pr.g.stages && pr.g.stages[c].demand <= pr.g.stages[kept].demand
    ensures forall c :: c in Colocated(preds, p, n) ==> c == kept || c in Movable(pr, preds, p, n)
  {
    var cs, key := Colocated(preds, p, n), NegatedDemand(pr);
    ColocatedIn(preds, p, n);
    SortDistinct(cs, key);
    SortSorts(cs, key);
    var group := SortBy(cs, key);
    kept := group[0];
    assert kept in group;
    forall c | c in group[1..] ensures c in group && key(kept) <= key(c) && c != kept {
      var i :| 0 <= i < |group[1..]| && group[1..][i] == c;
      assert group[i+1] == c;
    }
    forall c | c in cs ensures c == kept || c in group[1..] {
      var i :| 0 <= i < |group| && group[i] == c;
      assert i > 0 ==> group[1..][i-1] == c;
    }
  }

  // A move either leaves the ledger alone or shifts the stage to a node with room.
  lemma MoveShape(pr: Problem, st: Ledger, c: StageId) returns (alt: Option<NodeId>)
    requires ValidProblem(pr) && c in st.p && c in pr.g.stages
    ensures alt.None? ==> MoveOne(pr, st, c) == st
    ensures alt.Some? ==>
      && MoveOne(pr, st, c) == Shift(st, c, alt.value, pr.g.stages[c].demand)
      && alt.value in NodeIds(pr.t) && alt.value != st.p[c]
      && FitsAlone(pr.g.stages[c], GetNode(pr.t, alt.value), pr.gov)
      && LoadEntry(st.load, alt.value) + pr.g.stages[c].demand <= GetNode(pr.t, alt.value).Residual() + TOLERANCE
  {
    hide FitsAlone;
    var best := BestAlternative(pr, pr.g.stages[c], st.p[c], st.load);
    if best.Some? {
      AlternativeFits(pr, st, c, best.value);
      alt := Some(pr.t.nodes[best.value].nodeId);
    } else {
      alt := None;
    }
  }

  // One move of a stage that has not moved yet keeps everything.
  lemma MoveKeeps(pr: Problem, p: Placement, st: Ledger, c: StageId)
    requires Kept(pr, p, st) && NonNegativeDemands(pr) && c in pr.g.stages && c !in st.moved
    ensures Kept(pr, p, MoveOne(pr, st, c))
  {
    KeptPlaces(pr, p, st, c);
    hide Kept, ValidProblem, FitsAlone, MoveOne;
    var alt := MoveShape(pr, st, c);
    if alt.Some? {
      ShiftKeeps(pr, p, st, c, alt.value);
    }
  }

  lemma KeptPlaces(pr: Problem, p: Placement, st: Ledger, c: StageId)
    requires Kept(pr, p, st) && c in pr.g.stages
    ensures c in st.p && ValidProblem(pr)
  {}

  lemma MoveRecord(pr: Problem, st: Ledger, c: StageId)
    ensures forall s :: s in MoveOne(pr, st, c).moved ==> s in st.moved || s == c
  {}

  lemma ShiftKeeps(pr: Problem, p: Placement, st: Ledger, c: StageId, alt: NodeId)
    requires Kept(pr, p, st) && NonNegativeDemands(pr) && c in st.p && c in pr.g.stages && c !in st.moved
    requires alt in NodeIds(pr.t) && alt != st.p[c] && FitsAlone(pr.g.stages[c], GetNode(pr.t, alt), pr.gov)
    requires LoadEntry(st.load, alt) + pr.g.stages[c].demand <= GetNode(pr.t, alt).Residual() + TOLERANCE
    ensures Kept(pr, p, Shift(st, c, alt, pr.g.stages[c].demand))
  {
    hide LedgerExact, NoNewOverload, FitsAlone, MovedOnly;
    ShiftLedger(pr, st, c, alt);
    ShiftRecord(p, st, c, alt, pr.g.stages[c].demand);
    ShiftLoads(pr, p, st, c, alt);
  }

  lemma ShiftRecord(p: Placement, st: Ledger, c: StageId, alt: NodeId, demand: real)
    requires MovedOnly(p, st) && Distinct(st.moved) && c in st.p && c !in st.moved && alt != st.p[c]
    ensures MovedOnly(p, Shift(st, c, alt, demand)) && Distinct(Shift(st, c, alt, demand).moved)
  {
    assert forall s :: s in st.moved + [c] <==> s in st.moved || s == c;
  }

  lemma ShiftLoads(pr: Problem, p: Placement, st: Ledger, c: StageId, alt: NodeId)
    requires ValidProblem(pr) && LedgerExact(pr, st) && NonNegativeDemands(pr) && NoNewOverload(pr, p, st.p)
    requires c in st.p && c in pr.g.stages && alt in NodeIds(pr.t) && alt != st.p[c]
    requires LoadEntry(st.load, alt) + pr.g.stages[c].demand <= GetNode(pr.t, alt).Residual() + TOLERANCE
    ensures NoNewOverload(pr, p, st.p[c := alt])
  {
    hide NodeLoad;
    var q := st.p[c := alt];
    forall n | n in NodeIds(pr.t) && Overloaded(pr, q, n)
      ensures Overloaded(pr, p, n) && NodeLoad(pr, q, n) <= NodeLoad(pr, p, n)
    {
      LoadMoved(pr, st.p, c, alt, n);
      assert LoadEntry(st.load, n) == NodeLoad(pr, st.p, n);
      var s :| s in q && q[s] == n;
      assert s in st.p;
      assert st.p[if s == c then c else s] in st.p.Values;
      assert n in st.p.Values;
    }
  }

  lemma ShiftLedger(pr: Problem, st: Ledger, c: StageId, alt: NodeId)
    requires ValidProblem(pr) && LedgerExact(pr, st) && c in pr.g.stages && alt in NodeIds(pr.t) && alt != st.p[c]
    ensures LedgerExact(pr, Shift(st, c, alt, pr.g.stages[c].demand))
  {
    hide NodeLoad;
    var q := Shift(st, c, alt, pr.g.stages[c].demand);
    forall n ensures LoadEntry(q.load, n) == NodeLoad(pr, q.p, n) {
      LoadMoved(pr, st.p, c, alt, n);
      assert LoadEntry(st.load, n) == NodeLoad(pr, st.p, n);
    }
  }

  lemma {:induction false} MovesKeep(pr: Problem, p: Placement, st: Ledger, cs: seq<StageId>)
    requires Kept(pr, p, st) && NonNegativeDemands(pr) && Distinct(cs)
    requires forall c :: c in cs ==> c in pr.g.stages && c !in st.moved
    ensures Kept(pr, p, MoveAll(pr, st, cs))
    ensures forall s :: s in MoveAll(pr, st, cs).moved ==> s in st.moved || s in cs
  {
    hide Kept;
    if cs != [] {
      var n := |cs| - 1;
      MovesKeep(pr, p, st, cs[..n]);
      var before := MoveAll(pr, st, cs[..n]);
      assert cs[n] !in cs[..n];
      assert cs[n] in cs;
      MoveKeeps(pr, p, before, cs[n]);
      MoveRecord(pr, before, cs[n]);
    }
  }

  // ------------------------------------------------ the plans of different fan-ins do not overlap

  lemma {:induction false} MovableOfKnown(pr: Problem, preds: seq<StageId>, p: Placement, hosts: seq<NodeId>)
    requires Distinct(preds) && Distinct(hosts)
    ensures forall c :: c in MovableOf(pr, preds, p, hosts) ==> c in preds && c in p && p[c] in hosts
    ensures Distinct(MovableOf(pr, preds, p, hosts))
  {
    if hosts != [] {
      var n := |hosts| - 1;
      MovableOfKnown(pr, preds, p, hosts[..n]);
      MovableKnown(pr, preds, p, hosts[n]);
      assert hosts[n] !in hosts[..n];
      DistinctJoin(MovableOf(pr, preds, p, hosts[..n]), Movable(pr, preds, p, hosts[n]));
    }
  }

  lemma {:induction false} HostsDistinct(preds: seq<StageId>, p: Placement)
    ensures Distinct(HostNodes(preds, p))
  {
    if preds != [] { HostsDistinct(preds[..|preds|-1], p); }
  }

  lemma PlanKnown(pr: Problem, p: Placement, v: StageId)
    requires WellFormed(pr.g) && NoFanOut(pr.g)
    ensures forall c :: c in Plan(pr, p, v) ==> HasEdge(pr.g.edges, c, v) && c in pr.g.stages
    ensures Distinct(Plan(pr, p, v))
  {
    var preds := Preds(pr.g.edges, v);
    DistinctPreds(pr.g, v);
    HostsDistinct(preds, p);
    MovableOfKnown(pr, preds, p, HostNodes(preds, p));
    forall c | c in preds ensures HasEdge(pr.g.edges, c, v) && c in pr.g.stages { PredIsStage(pr.g, c, v); }
  }

  // What the first stages of the order have moved are their own predecessors.
  lemma {:induction false} SpreadKeeps(pr: Problem, p: Placement, st: Ledger, order: seq<StageId>)
    requires Kept(pr, p, st) && st.moved == [] && NonNegativeDemands(pr) && NoFanOut(pr.g) && Distinct(order)
    ensures Kept(pr, p, Spread(pr, st, order))
    ensures forall s :: s in Spread(pr, st, order).moved ==> exists v :: v in order && HasEdge(pr.g.edges, s, v)
  {
    hide Kept, Plan, NoFanOut, NonNegativeDemands;
    assert WellFormed(pr.g) by { KeptProblem(pr, p, st); }
    if order != [] {
      var n := |order| - 1;
      SpreadKeeps(pr, p, st, order[..n]);
      var before, v := Spread(pr, st, order[..n]), order[n];
      var plan := Plan(pr, before.p, v);
      PlanKnown(pr, before.p, v);
      assert v !in order[..n];
      forall c | c in plan ensures c !in before.moved {
        if c in before.moved {
          var u :| u in order[..n] && HasEdge(pr.g.edges, c, u);
          SameSuccessor(pr.g, c, u, v);
          assert false;
        }
      }
      MovesKeep(pr, p, before, plan);
      assert order[n] in order;
    }
  }

  lemma KeptProblem(pr: Problem, p: Placement, st: Ledger)
    requires Kept(pr, p, st)
    ensures WellFormed(pr.g)
  {}

  lemma StartKept(pr: Problem, p: Placement)
    requires ValidProblem(pr) && Total(pr, p)
    ensures Kept(pr, p, Ledger(p, LoadsOf(pr, p), []))
  {
    var load := LoadsOf(pr, p);
    forall n ensures LoadEntry(load, n) == NodeLoad(pr, p, n) {
      if n !in load {
        forall s | s in pr.g.ids ensures LoadOn(pr, p, n)(s) == 0.0 { assert s in p ==> p[s] in p.Values; }
        SumZero(pr.g.ids, LoadOn(pr, p, n));
      }
    }
  }

  // The guarantees of the pass on an in-tree: the ledger stays exact, every stage
  // moves at most once and the sink never, the per-stage filter still holds, and no
  // node is overloaded that was not overloaded before.
  lemma RedistributionSafe(pr: Problem, order: seq<StageId>, p: Placement, sink: StageId)
    requires ValidProblem(pr) && Total(pr, p) && NonNegativeDemands(pr)
    requires InTree(pr.g) && IsTopoOrder(pr.g, order) && IsOnlySink(pr.g, sink)
    ensures var st := Spread(pr, Ledger(p, LoadsOf(pr, p), []), order);
      && LedgerExact(pr, st) && Distinct(st.moved) && MovedOnly(p, st)
      && sink !in st.moved && sink in p && st.p[sink] == p[sink]
      && (StagesFit(pr, p) ==> StagesFit(pr, st.p))
      && NoNewOverload(pr, p, st.p)
  {
    var start := Ledger(p, LoadsOf(pr, p), []);
    StartKept(pr, p);
    SpreadKeeps(pr, p, start, order);
    var st := Spread(pr, start, order);
    if sink in st.moved {
      var v :| v in order && HasEdge(pr.g.edges, sink, v);
      Adjacent(pr.g.edges, sink, v);
      assert false;
    }
    assert sink in ToSet(pr.g.ids);
  }

  // If the checker accepted the capacities before, it accepts them afterwards.
  lemma CapacityPreserved(pr: Problem, p: Placement, q: Placement)
    requires ValidProblem(pr) && Total(pr, p) && Total(pr, q) && NoNewOverload(pr, p, q)
    requires CapacityFeasible(pr, p)
    ensures CapacityFeasible(pr, q)
  {
    hide NodeLoad;
    forall s | s in q ensures NodeLoad(pr, q, q[s]) <= GetNode(pr.t, q[s]).Residual() + TOLERANCE {
      assert q[s] in q.Values;
      FeasibleMeansNoOverload(pr, p, q[s]);
    }
  }

  lemma FeasibleMeansNoOverload(pr: Problem, p: Placement, n: NodeId)
    requires Assigns(pr, p) && CapacityFeasible(pr, p) && n in NodeIds(pr.t)
    ensures !Overloaded(pr, p, n)
  {
    if n in p.Values {
      var u :| u in p && p[u] == n;
    }
  }

  // Without fan-in there is nothing to spread.
  lemma {:induction false} ChainUntouched(pr: Problem, st: Ledger, order: seq<StageId>)
    requires forall v :: v in order ==> |Preds(pr.g.edges, v)| <= 1
    ensures Spread(pr, st, order) == st
  {
    if order != [] {
      ChainUntouched(pr, st, order[..|order|-1]);
      assert order[|order|-1] in order;
    }
  }
}
