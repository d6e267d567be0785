# Verified model of a broker for AI pipelines

A domain's broker accepts pipelines, directed acyclic graphs of processing stages, places
each stage on an execution unit, sends the stages as their inputs complete, trades stages
with other domains and exchanges summaries with its peers. This project models that logic
in Dafny and proves what it keeps. `dafny verify dfyconfig.toml` checks all of it.

Where the repository changes objects in place the model does: `PipelineDAG`,
`PipelineState`, `Broker`, `StaticBroker` and `SummaryPropagator` are classes, and the
solvers are methods with the source's loops. Each method is tied to a function or predicate
of values, and the properties are lemmas about those. Floats are reals, `float("inf")` is
`Ext.Inf`, exceptions are `Result.Error`, and the tolerances (1e-9, 1e-12, 1e-6) are kept.

## Parts

- **Graphs** (`Graphs`, `PipelineDags`): building a graph edge by edge under a cycle check,
  Kahn's order, in-trees.
- **Placement** (`Topology`, `Feasibility`, `Greedy`, `TreeDp`, `TreeOptimality`,
  `Redistribution`, `FindPlacement`): the checker and the cost function are independent
  specifications; the tree solver is proved optimal and complete, and the pass after it safe
  for capacity.
- **When the promise holds** (`GreedyExactness`, `GreedyCompleteness`, `Acceptance`,
  `RedistributionExactness`): the exact conditions under which the checker accepts what the
  solvers answer, and under which an error means that nothing is feasible.
- **Shards** (`Shards`, `Snapshots`): merging topologies, coverage of the merged latency
  table, the global decision, snapshots on the wire.
- **Baselines** (`Heuristics`): locality and spillover.
- **Execution** (`Execution`, `ExecutionSafety`, `ExecutionProgress`, `Brokers`): the broker
  as a state machine of atomic events, invariants of all runs, deadlock freedom, and exactly
  which pipelines can still be delivered. The handlers of `Brokers` are proved equal to the
  events. A send is an event that starts and may fail later.
- **Market** (`OrderStatistics`, `Clearing`, `Congestion`, `Market`, `MarketSovereignty`):
  clearing prices, congestion bids, placement by price with its accounting, and at which
  prices it keeps stages in their domain.
- **Statistics** (`Holm`), **peer health** (`Propagation`), **round-robin** (`RoundRobin`).
- **Effects on raw data** (`PlacementEffects`, `ExecutionEffects`, `MarketEffects`,
  `HeuristicsEffects`): what each step comes to on capacities, loads, prices and records,
  without the helper functions that methods and specifications share.
- `Counterexamples` and `StrandedPipeline` hold concrete inputs for the disagreements below;
  `Samples` holds their shared pieces.

## Assumptions

A topology has distinct node ids and a latency for every pair of nodes, stored both ways
only with equal values. Results name stages that were sent, and pipeline identifiers are
never reused. Demands are non-negative where a lemma says so. Every handler is atomic up to
its first send, because the source holds no lock across a network wait
(`src/broker/base.py:391-463`).

## Where the code and its documentation disagree

The model follows the code.

- `find_placement` promises a feasible placement (`src/broker/placement.py:1034-1041`). On
  in-trees it can fail in two ways. The table bounds each stage's demand alone, so an optimum
  may overload a node (`ChainOptimumOverloads`); on networks that refuse no hop and without
  fan-in the answers are feasible for all weights exactly when each node has room for all the
  stages that fit it (`AnswersAcceptedExactly`). And the redistribution pass re-checks neither
  latency nor trust: it keeps them, on all networks, exactly for the pipelines without fan-in
  (`KeptIffNoFanIn`, `PromiseIffNoFanIn`; `RedistributionBreaksLatency` is an instance). On a
  given network a fan-in is safe if no hop at its predecessors is refused (`TreeResultAccepted`).
- It promises an error only if no feasible placement exists (`src/broker/placement.py:1062-1063`).
  On in-trees whatever is feasible is found (`SolveTree`, `CheckedIsTreeFeasible`), but the
  greedy pass does not backtrack: it misses a feasible placement on some network for every
  graph it is used on (`EveryGeneralGraphMissed`), for idle stages exactly when there is an
  edge (`IdleMissesIffEdges`, with `GreedyMissesFeasible` as an instance).
- The greedy pass looks an edge up by its ends, and the index keeps the last of several
  parallel edges (`src/pipeline/dag.py:156`), so it can miss a tighter bound
  (`ParallelEdgesMissed`). All its results on a pipeline's edges are feasible exactly when
  the last edge of every ordered pair is the tightest (`AcceptedIffTightest`), and nothing
  else can go wrong (`GreedyFaults`).
- `market_mode_placement` says that sovereignty constraints apply
  (`src/broker/placement.py:436`); it never reads them (`GovernanceUnread`) and may send a
  stage out of the domain it declares (`MarketLeavesDomain`). All its answers respect the
  declaration exactly when it names the local domain and no remote price plus WAN undercuts
  the local one (`SovereigntyExactly`).
- In proceed mode a fan-in goes on with partial inputs, but a skipped stage that was not yet
  sent is never sent, and delivery needs every stage, so such a pipeline never finishes
  (`ProceedStrands`); `FinishableExactly` is the exact condition. The fan-in also goes on
  while its other inputs are still being computed, which is why the general invariant only
  says that a sent stage has all inputs or gave one up.
- `holm_bonferroni` caps the adjusted value at 1, so above level 1 it marks everything
  (`CapMarksEverything`); up to level 1 it is the sequential procedure.

## Model

| member | source | states |
|---|---|---|
| PipelineDags.PipelineDAG.AddStage | src/pipeline/dag.py:115-126 | a stage is added exactly when its id is new; a duplicate leaves the graph untouched |
| PipelineDags.PipelineDAG.AddEdge | src/pipeline/dag.py:128-158 | an edge between known stages is accepted exactly when the graph stays acyclic; every rejection leaves the graph untouched, and the edge, successor and predecessor indexes keep agreeing with the edge list, parallel edges included |
| PipelineDags.PipelineDAG.CanReach | src/pipeline/dag.py:300-314 | the breadth-first search answers true exactly when a path exists, and ends |
| PipelineDags.PipelineDAG.TopologicalSort | src/pipeline/dag.py:227-262 | Kahn's loop answers an order exactly on acyclic graphs; the order lists every stage once with every edge, parallel ones included, pointing forward |
| PipelineDags.PipelineDAG.IsTree | src/pipeline/dag.py:264-287 | true exactly when no stage has two outgoing edges and exactly one stage has none |
| PipelineDags.PipelineDAG.Sinks | src/pipeline/dag.py:218-225 | lists each stage without outgoing edges once, and no other |
| Graphs.LastEdgeCounts | src/pipeline/dag.py:156-156 | the index holds the last of several parallel edges |
| Graphs.ListedInOrder | src/pipeline/dag.py:157-158 | neighbours are listed in the order in which the edges were added |
| Graphs.SafeEdge | src/pipeline/dag.py:149-154 | adding an edge keeps an acyclic graph acyclic exactly when its target does not already reach its source |
| Graphs.OrderedIsAcyclic | src/pipeline/dag.py:258-262 | only acyclic graphs have a topological order |
| Graphs.FedSetHasCycle | src/pipeline/dag.py:250-261 | a nonempty set of stages each fed from inside the set contains a cycle; this is why Kahn's loop and the running pipeline cannot get stuck |
| Graphs.UniquePathToSink | src/pipeline/dag.py:264-287 | in an acyclic in-tree every stage has one and only one path to the sink |
| Graphs.DistinctPreds | src/pipeline/dag.py:264-287 | in an in-tree no predecessor list repeats a stage |
| PlacementEffects.StoredLatency | src/broker/placement.py:100-115 | a stored latency counts in both directions and a node reaches itself at once |
| PlacementEffects.StoredTrust | src/broker/placement.py:141-158 | a trust value stored one way counts in both directions, and its own way first; a domain trusts itself, strangers not at all |
| PlacementEffects.SliceAccepts | src/broker/placement.py:161-184 | a requirement accepts its own slice and flat workers, none accepts every worker |
| PlacementEffects.FitsAloneExactly | src/broker/placement.py:813-817 | the filter of the solvers is the slice, the declared domain and the demand against capacity minus load; the list of local types adds nothing |
| Topologies.LatencySymmetric | src/broker/placement.py:100-115 | with a symmetric matrix the two-way lookup is symmetric |
| Feasibility.CheckFeasibility | src/broker/placement.py:187-303 | reports exactly the violations of capacity, latency, trust, sovereignty and slice, with the 1e-9 tolerances; accepts exactly the feasible placements; accepts exactly when the list is empty |
| Feasibility.NoViolations | src/broker/placement.py:187-303 | a placement meets all five constraint classes exactly when no violation exists |
| PlacementEffects.FeasibleExactly | src/broker/placement.py:187-303 | feasible means on capacities, loads, demands, bounds and trust values: each used node carries at most what is free, permits its stages, and each edge is short enough and between trusting domains |
| PlacementEffects.ViolatesExactly | src/broker/placement.py:187-303 | each class of violations is reported on its own numbers, whatever else is violated |
| PlacementEffects.LoadExactly | src/broker/placement.py:224-228 | placing a stage adds its demand to its own node and to no other |
| Feasibility.NodeLoads | src/broker/placement.py:224-228 | the accumulated map holds an entry for exactly the used nodes and equals the demand placed on each |
| Feasibility.PlacementCost | src/broker/placement.py:311-365 | the accumulators equal alpha times the latency sum plus beta times the load ratios plus gamma times the crossings |
| PlacementEffects.RatioTimesCapacity | src/broker/placement.py:355-362 | the load ratio times the capacity is the demand |
| PlacementEffects.CostIgnoresLoads | src/broker/placement.py:311-365 | the cost does not depend on the current loads of the nodes |
| PlacementEffects.EdgePrice | src/broker/placement.py:339-365 | one more edge costs alpha times the latency between its ends, and gamma if it leaves the domain |
| PlacementEffects.StagePrice | src/broker/placement.py:339-365 | one more stage costs beta times its demand's share of its node's capacity |
| Feasibility.CostBySteps | src/broker/placement.py:339-365 | the cost is the sum, in any order of the stages, of each stage's load ratio and incoming hops |
| Feasibility.Regroup | src/broker/placement.py:339-365 | grouping edges by an end and summing the groups gives the sum over all edges |
| Greedy.IsNodeFeasible | src/broker/placement.py:561-634 | true exactly when the stage fits alone, fits beside the booked load, and every hop to an already placed neighbour respects the indexed edge's bound and trust |
| PlacementEffects.NodeFeasibleExactly | src/broker/placement.py:561-634 | for non-negative demands a node passes exactly when it permits the stage, carries it beside everything placed there within its free capacity, and each hop to a placed neighbour keeps the indexed bound and the trust |
| PlacementEffects.StuckExactly | src/broker/placement.py:684-721 | a run is stuck, so an error is raised, exactly when every node breaks one of these for the next stage |
| PlacementEffects.ChoiceExactly | src/broker/placement.py:690-715 | the chosen node keeps them, no other such node is cheaper, and an earlier one is dearer |
| Greedy.BestNode | src/broker/placement.py:684-715 | finds the first feasible node of least incremental cost, none exactly when no node is feasible |
| Greedy.GreedyPlacement | src/broker/placement.py:642-729 | a returned placement is a run of greedy choices over the order; an error names a stage at which such a run has no feasible node |
| Greedy.ChoiceIsCheapest | src/broker/placement.py:690-715 | a greedy choice is feasible and no feasible node has a smaller increment |
| Greedy.GreedyFaults | src/broker/placement.py:642-729 | the only violation a greedy result can have is the latency of an edge whose parallel edge in the index is looser |
| Greedy.GreedySound | src/broker/placement.py:642-729 | when the indexed edge of every ordered pair is the tightest, the checker accepts every greedy result |
| GreedyExactness.AcceptedIffTightest | src/broker/placement.py:600-612 | over a topological order the checker accepts the greedy results of a pipeline's edges, whatever the stages, network, rules and weights, exactly when the indexed edge of every ordered pair is the tightest |
| GreedyExactness.LooseIndexMissed | src/broker/placement.py:600-612 | for every edge with a looser parallel edge in the index there is a network, one node and one domain a stage, on which the greedy pass misses that edge's bound |
| Greedy.SimpleIsTightest | src/pipeline/dag.py:128-158 | without parallel edges the indexed edge is the tightest |
| GreedyCompleteness.IdleMissesIffEdges | src/broker/placement.py:642-729 | for stages that demand nothing the greedy pass never gives up while a feasible placement exists, whatever the network, rules and weights, exactly when the pipeline has no edge |
| GreedyCompleteness.NeverMissesIffOneStage | src/broker/placement.py:642-729 | for stages of any demand the greedy pass never gives up while a feasible placement exists exactly when there is at most one stage |
| GreedyCompleteness.EveryGeneralGraphMissed | src/broker/placement.py:1062-1071 | every graph the dispatcher hands to the greedy pass has a network on which the error is raised although a feasible placement exists |
| Greedy.IncrementIsStep | src/broker/placement.py:696-711 | the increment computed from placed predecessors is the stage's share of the final cost |
| Greedy.GreedyCostTelescopes | src/broker/placement.py:682-727 | the chosen increments add up to the cost of the final placement, for every topological order and with parallel edges |
| Greedy.GreedyDeterministic | src/broker/placement.py:642-729 | two runs over the same order place every stage alike |
| TreeDp.BestChild | src/broker/placement.py:841-870 | the inner loop finds the first node of least child value plus hop cost among the allowed hops, with infinity when there is none |
| TreeDp.SolveEntry | src/broker/placement.py:810-883 | one table entry equals its recurrence and records the choice of every predecessor |
| TreeDp.SolveTable | src/broker/placement.py:803-883 | after the loop every row of the order is solved from the rows of its predecessors |
| TreeOptimality.SinkValueIsLowerBound | src/broker/placement.py:803-903 | every assignment meeting the stage and edge constraints costs at least the sink's table entry at its node |
| TreeOptimality.SubtreesDisjoint | src/broker/placement.py:905-920 | the subtrees traced from different predecessors share no stage |
| TreeOptimality.Trace | src/broker/placement.py:905-920 | the recursive trace ends and assigns exactly the stages that reach its start, each following the recorded choices |
| TreeOptimality.TracedCost | src/broker/placement.py:885-920 | the traced placement meets the constraints and costs exactly the sink's entry |
| TreeOptimality.LeastSinkIsOptimal | src/broker/placement.py:885-920 | tracing from the least sink entry gives an assignment no allowed assignment undercuts |
| TreeOptimality.NoFiniteSink | src/broker/placement.py:885-903 | all sink entries are infinite only when no assignment meets the constraints |
| TreeOptimality.SolveTree | src/broker/placement.py:737-920 | errs exactly when no assignment meets the stage and edge constraints, and otherwise returns an optimal one |
| TreeOptimality.CheckedIsTreeFeasible | src/broker/placement.py:187-303 | with non-negative demands, whatever the checker accepts the dynamic program considers, so it returns a placement whenever a feasible one exists |
| TreeOptimality.TreeFeasibleIffCapacity | src/broker/placement.py:813-817 | on in-trees an allowed assignment passes the checker exactly when no node is overloaded in sum |
| Redistribution.FindAlternative | src/broker/placement.py:950-964 | finds the first least-loaded other node that admits the stage and has room |
| Redistribution.AlternativeLeast | src/broker/placement.py:950-964 | the alternative is the least loaded of the nodes that could take the stage; there is none only if no node could |
| PlacementEffects.MovesExactly | src/broker/placement.py:949-973 | a stage moves exactly when another node admits it, alone and beside everything placed there, and then to the first of the least loaded ones |
| PlacementEffects.OfferedExactly | src/broker/placement.py:933-949 | a fan-in offers exactly the predecessors that share their node with a heavier one, or an equally heavy one listed earlier |
| PlacementEffects.OfferedHeaviestFirst | src/broker/placement.py:946-949 | the siblings on a node are offered heaviest first |
| PlacementEffects.HostsInOrder | src/broker/placement.py:937-941 | the shared nodes are visited in the order in which the predecessors name them |
| PlacementEffects.SpreadsInOrder | src/broker/placement.py:933-936 | fan-ins are treated in the given order, each on what the ones before left |
| PlacementEffects.MovesInOrder | src/broker/placement.py:949-973 | moves are made in the order offered, each on what the ones before left |
| Redistribution.HeaviestStays | src/broker/placement.py:946-949 | a heaviest sibling of each shared node stays and every other one is offered for moving |
| Redistribution.MoveSiblings | src/broker/placement.py:949-973 | moves the siblings one by one, each to the alternative computed from the ledger so far |
| Redistribution.GroupByNode | src/broker/placement.py:937-941 | groups the predecessors by node, nodes in order of first appearance, order kept inside a group |
| Redistribution.SpreadFanIn | src/broker/placement.py:933-973 | one fan-in keeps the heaviest sibling of each node and offers the others, decided before any of them moves |
| Redistribution.Redistribute | src/broker/placement.py:926-973 | the whole pass, fan-ins in topological order, starting from the exact loads |
| Redistribution.RedistributionSafe | src/broker/placement.py:926-973 | the ledger always equals the demand placed, each stage moves at most once, the sink never moves, moved stages still fit alone, and no node becomes overloaded that was not |
| Redistribution.CapacityPreserved | src/broker/placement.py:926-973 | a placement within capacity stays within capacity |
| Redistribution.ChainUntouched | src/broker/placement.py:933-936 | without fan-in the pass changes nothing |
| FindPlacement.Find | src/broker/placement.py:1026-1071 | empty graphs get the empty placement; in-trees an error exactly when no assignment meets the constraints and otherwise a redistributed optimum; other graphs the greedy result or a stage no node can take |
| FindPlacement.GeneralResultFeasible | src/broker/placement.py:1066-1071 | on graphs that are no in-trees, with tightest indexed edges, the checker accepts the answer |
| FindPlacement.ChainResultOptimal | src/broker/placement.py:1066-1071 | on in-trees without fan-in the answer is optimal, and feasible exactly when it overloads no node |
| Acceptance.TreeResultSafe | src/broker/placement.py:926-973 | on any in-tree the answer places every stage where it fits and adds no overload to the optimum; where no pair of fitting nodes refuses a hop at a fan-in's predecessors it meets the constraints again |
| RedistributionExactness.KeptIffNoFanIn | src/broker/placement.py:926-973 | over all networks, stages, rules and weights the answers to the in-trees of a shape keep every latency bound exactly when the shape has no fan-in, and likewise the trust between domains and all constraints of the table |
| RedistributionExactness.FanInBreaks | src/broker/placement.py:943-973 | every in-tree with a fan-in has a network with a feasible placement on which all answers break the latency bound, or the trust, of an edge |
| RedistributionExactness.PromiseIffNoFanIn | src/broker/placement.py:1034-1041 | where each node has room for all the stages that fit it, all answers to the in-trees of a shape are feasible exactly when the shape has no fan-in |
| Acceptance.AnswersAcceptedExactly | src/broker/placement.py:1034-1041 | on an in-tree without fan-in over nodes that refuse no hop, all answers, whatever the weights and the order, are feasible exactly when each node has room for all the stages that fit it |
| Acceptance.AssignmentsAccepted | src/broker/placement.py:813-817 | on an in-tree over nodes that refuse no hop, every assignment meeting the table's constraints passes the checker exactly under that test |
| Acceptance.TreeResultAccepted | src/broker/placement.py:1034-1041 | on any in-tree under that test the redistributed answer is feasible, if no hop at a fan-in's predecessors is refused between fitting nodes |
| Acceptance.ChainResultAccepted | src/broker/placement.py:1034-1041 | without fan-in the room alone makes the answer feasible, whatever hops the network refuses |
| Counterexamples.ChainOptimumOverloads | src/broker/placement.py:1034-1041 | a two-stage chain with a feasible placement on which every possible answer overloads its node |
| Counterexamples.RedistributionBreaksLatency | src/broker/placement.py:943-973 | two sources and a sink beside a distant idle node: the optimum is feasible and every answer breaks a latency bound |
| Counterexamples.FunnelHasAnswer | src/broker/placement.py:943-973 | that funnel has an optimum and an answer, so the previous row speaks of answers that exist |
| Counterexamples.ParallelEdgesMissed | src/broker/placement.py:600-612 | two parallel edges, the tighter one shadowed in the index: the greedy result violates it |
| Counterexamples.GreedyMissesFeasible | src/broker/placement.py:1062-1063 | a source that feeds two stages is put on the first node, too far from the only node of its successor: the pass gives up although a feasible placement exists |
| Shards.MergeTopologies | src/broker/sharded_oracle_broker.py:60-102 | fails exactly when two nodes share an id, otherwise concatenates nodes and overlays the tables in order, cross latencies last |
| Shards.NodesInOrder | src/broker/sharded_oracle_broker.py:60-102 | the merged nodes are those of the shards, shard after shard |
| Shards.TablesOverlaid | src/broker/sharded_oracle_broker.py:60-102 | a pair's latency is the cross table's, or else that of the last shard that names the pair |
| Shards.MergingNeverHurts | src/broker/sharded_oracle_broker.py:245-255 | if the shard's view is unchanged in the union, the union has a placement and its optimum costs at most the shard's |
| Shards.SameInUnion | src/broker/sharded_oracle_broker.py:60-102 | a placement inside the shard is as feasible and as costly over the union |
| Shards.CrossLatencies | src/broker/neural_broker.py:426-456 | names exactly the cross-domain pairs with a peer's node, own node first and peers in order, all at 50 |
| Shards.CrossIsSilent | src/broker/neural_broker.py:443-446 | the cross table never names two of the coordinator's own nodes |
| Shards.CoverageExact | src/broker/neural_broker.py:447-455 | the merged table has full pairwise coverage exactly when nodes of different shards lie in different domains |
| Shards.MergedValid | src/broker/sharded_oracle_broker.py:60-102 | with one domain a shard, all different, the merged topology is again total and symmetric |
| Shards.DecideGlobally | src/broker/sharded_oracle_broker.py:213-255 | a collision exactly on repeated ids, otherwise the answer of find_placement over the union |
| Shards.GlobalNeverWorse | src/broker/sharded_oracle_broker.py:213-255 | on in-trees the global decision exists whenever the coordinator's shard can place the pipeline, and the optimum it redistributes costs no more |
| Snapshots.TopologyToSnapshot | src/broker/sharded_oracle_broker.py:138-173 | one record for each node in order, each latency and each route, and they decode to the topology and the routes |
| Snapshots.MissingFields | src/broker/sharded_oracle_broker.py:176-204 | a record names the node's fields, a node without a load is idle, missing sections are empty |
| Snapshots.LastRecordCounts | src/broker/sharded_oracle_broker.py:200-203 | of several records of one pair the last one counts |
| Snapshots.RoundTrip | src/broker/sharded_oracle_broker.py:176-204 | the records of a topology and its routes, in whatever order, decode to that topology and those routes |
| Snapshots.OrderIrrelevant | src/broker/sharded_oracle_broker.py:200-203 | two orders of the same records decode alike |
| Heuristics.LocalityPlacement | src/broker/placement.py:1079-1129 | an error without local workers, otherwise first fit over the local workers |
| Heuristics.SpilloverPlacement | src/broker/placement.py:1201-1263 | first fit over the local workers followed by the remote ones |
| HeuristicsEffects.LocalityExactly | src/broker/placement.py:1079-1129 | no local worker is its own error; otherwise the pass fails exactly at a stage, named in the error, that no local worker may host on its capacity and on everything placed so far |
| HeuristicsEffects.SpilloverExactly | src/broker/placement.py:1201-1263 | the pass tries every worker, and fails exactly at a stage that none of them may host |
| HeuristicsEffects.BooksExactly | src/broker/placement.py:1109-1129 | a stage goes to the first worker that may host it |
| HeuristicsEffects.LocalsInOrder | src/broker/placement.py:1103-1103 | the local workers come in the order of the topology |
| Heuristics.SpilloverExtendsLocality | src/broker/placement.py:1201-1263 | whenever locality answers spillover answers the same; locality answers exactly when there is a local worker and spillover stays local, so on the empty pipeline they differ without local workers |
| Heuristics.FirstFitFaults | src/broker/placement.py:1109-1129 | a first-fit answer meets capacity, sovereignty and slice, so it is feasible exactly when it meets latency and trust |
| Heuristics.LocalityFaults | src/broker/placement.py:1079-1129 | a locality answer meets trust too, so it is feasible exactly when it meets latency |
| Execution.ScanMeaning | src/broker/base.py:246-339 | the scan lists each ready stage once, only open stages, every stage whose inputs are complete, and others only after giving up an input on a dead worker; with no dead worker it changes nothing |
| Execution.ConsultMeaning | src/broker/funnel_resilience.py:129-188 | consulted only about missing inputs: proceed mode skips them and goes on, the other modes never skip |
| ExecutionSafety.DispatchKeeps | src/broker/base.py:341-385 | a dispatch only adds stages, restores the frontier, never sends a skipped stage, and cannot fail while all placed workers are registered |
| ExecutionSafety.MarkedOnce | src/broker/base.py:379-380 | a dispatch sends exactly the stages it marks, each once, and none that was marked, completed or skipped before |
| ExecutionSafety.DispatchFailsExactly | src/broker/base.py:290-375 | a dispatch fails the pipeline exactly when an open fan-in misses an input from a dead worker and the mode is abort, or wait with the timeout over; proceed mode never fails it |
| ExecutionEffects.FailsExactly | src/broker/base.py:290-375 | on the raw record: a dispatch fails exactly when the policy is overdue and an open stage with several inputs has one that is not completed and is placed on a worker outside the registry, sent or not; the first such moment starts the wait |
| ExecutionEffects.SendsExactly | src/broker/base.py:275-288 | in wait and abort mode a dispatch that does not fail sends exactly the open stages all of whose inputs are complete, and gives nothing up |
| ExecutionEffects.ProceedsExactly | src/broker/base.py:290-328 | in proceed mode a dispatch never fails; a stage is sent exactly when it is open, has all inputs or is a fan-in that misses one, and no stage sent before it gave it up; exactly what the fan-ins sent miss is given up |
| ExecutionEffects.FlagsExactly | src/broker/base.py:305-326 | the partial flag is set exactly when a fan-in is sent without an input |
| ExecutionEffects.SentInOrder | src/broker/base.py:266-339 | stages are sent in the order in which they were added |
| ExecutionEffects.ResultExactly | src/broker/base.py:391-468 | in wait and abort mode a success that is not the last fails the pipeline exactly when a fan-in is cut off and the policy overdue, and otherwise sends exactly what is now due |
| ExecutionEffects.StatusTells | src/broker/base.py:391-468 | unknown, failed or complete is answered exactly for pipelines not in the table, reported failures and the last stage; a complete one is delivered and gone, a failed one is gone |
| ExecutionEffects.PublishEffect | src/broker/base.py:548-598 | a pipeline whose workers are all registered is admitted with exactly its sources sent |
| ExecutionEffects.SendStartsEffect | src/broker/base.py:170-187 | a send to a worker outside the registry takes its pipeline and no other out of the table, any other send changes nothing |
| ExecutionEffects.SendFailsEffect | src/broker/base.py:214-239 | a failed send takes its pipeline and no other out of the table |
| ExecutionEffects.ReplacedEffect | src/broker/static_broker.py:270-350 | stages that are re-placed get their new workers, the others keep theirs, and no progress is lost |
| ExecutionEffects.RegistryEffect | src/broker/base.py:519-545 | only registering and deregistering change the registry, each by its one worker |
| ExecutionEffects.OthersUntouched | src/broker/base.py:391-468 | no event touches a pipeline it does not name |
| ExecutionSafety.StepKeeps | src/broker/base.py:391-468 | every event keeps the bookkeeping and frontier invariant of every active pipeline |
| ExecutionSafety.RunsKeep | src/broker/base.py:391-468 | so does every run of events that reports only sent stages |
| ExecutionSafety.FrontierExact | src/broker/base.py:341-385 | over all runs outside proceed mode an active pipeline is not failed, has sent exactly the stages whose predecessors are complete, and every ancestor of a sent stage is complete |
| ExecutionProgress.NoDeadlock | src/broker/base.py:275-288 | an unfinished pipeline whose skipped stages were all sent has a sent stage that has not reported; this rests on acyclicity |
| ExecutionProgress.NeverDeadlocked | src/broker/base.py:275-288 | over all runs outside proceed mode every active pipeline with stages has such a stage |
| ExecutionProgress.DeliveredExactly | src/broker/base.py:447-463 | undisturbed by failures, re-placements or lost workers, a pipeline is delivered exactly when every stage has been reported, and before that fewer distinct results than stages have arrived |
| ExecutionProgress.FinishableExactly | src/broker/base.py:322-326 | an active pipeline can still be delivered exactly when it has stages and each skipped stage was sent before it was skipped |
| StrandedPipeline.ProceedStrands | src/broker/base.py:322-326 | two workers register, a pipeline is published onto them, one leaves, a stage reports: after this run in proceed mode no continuation delivers the pipeline |
| Brokers.PipelineState.FindReadyStages | src/broker/base.py:246-339 | the in-place scan equals the specified scan: ready list, last policy result and new fields |
| Brokers.Broker.DispatchReadyStages | src/broker/base.py:341-385 | updates the record and the table as specified and starts the sends of the ready stages |
| Brokers.Broker.HandleResult | src/broker/base.py:391-468 | updates the table as the result event does, answers the matching status and starts the sends of the newly ready stages |
| Brokers.Broker.Publish | src/broker/base.py:548-598 | refuses without workers, otherwise admits the pipeline and dispatches its first stages |
| Brokers.Broker.DispatchStage | src/broker/base.py:170-187 | a worker that left the registry fails the pipeline, otherwise the stage is sent |
| Brokers.Broker.SendFailed | src/broker/base.py:214-239 | a failed send fails the pipeline, also after it left the table |
| Brokers.Broker.RegisterWorker | src/broker/base.py:519-533 | adds or replaces one worker |
| Brokers.Broker.DeregisterWorker | src/broker/base.py:535-545 | removes a known worker; an unknown one is an error |
| Clearing.ComputeClearingPrices | src/broker/market.py:72-124 | for every domain and stage type with bids, and no other, the price of its group at the demanded quantity |
| Clearing.GroupExactly | src/broker/market.py:98-110 | a group holds each bid of its domain and type as often as it was made, and no other |
| Clearing.PriceIsOrderStatistic | src/broker/market.py:112-122 | with demand the price is the k-th order statistic of the group's costs, k the least of demand and supply, characterised by counting |
| Clearing.PriceExactly | src/broker/market.py:112-122 | nobody demanding gives 0, a covered demand the demanded-th cheapest bid, any other the dearest bid |
| Clearing.NobodyDemands | src/broker/market.py:106-122 | a type that is not in the demand table is posted at 0 |
| Clearing.BidOrderIrrelevant | src/broker/market.py:98-110 | prices depend on the multiset of bids only |
| Clearing.PriceRisesWithDemand | src/broker/market.py:112-122 | more demand never lowers the price of non-negative bids |
| Clearing.ExtraBidNeverRaises | src/broker/market.py:112-122 | no further bid raises the price exactly when the demand does not exceed the supply |
| Congestion.DomainPricesFrom | src/broker/neural_broker.py:605-652 | the prices cleared from one bid per worker and stage type, at unit demand |
| Congestion.PriceIsCheapest | src/broker/neural_broker.py:605-652 | a domain's price is the cheapest of its workers' bids |
| Congestion.CostExactly | src/broker/neural_broker.py:632-638 | a congested bid times the free share of the capacity is the advertised bid, and from 99 percent load on it is 100 times it |
| Congestion.PriceBetween | src/broker/neural_broker.py:632-638 | a domain's price lies between its smallest advertised bid and 100 times it |
| Congestion.PriceRisesWithLoad | src/broker/neural_broker.py:632-638 | raising loads never lowers a domain's price |
| Market.ChooseDomain | src/broker/placement.py:479-497 | the first domain with the smallest profitable remote price, else the local one |
| Market.ChoiceIsCheapest | src/broker/market.py:127-145 | the chosen price is the least of the local price and every priced domain's remote price plus WAN, and a remote one is strictly lower than the local one |
| MarketEffects.ChoosesExactly | src/broker/placement.py:479-497 | on raw prices: the chosen domain asks the least with WAN, an earlier one in the table asks more, and a remote one strictly less than the local one |
| MarketEffects.PicksExactly | src/broker/placement.py:503-520 | a worker is picked exactly when some worker of the domain has room beside its load and what is committed; load-aware it is the first of the least loaded, otherwise the first |
| Market.PickMeaning | src/broker/placement.py:503-520 | a worker is picked exactly when one of the domain has enough residual; the load-aware pick is a least loaded one |
| Market.MarketPlacement | src/broker/placement.py:417-553 | returns the placement of the stage-by-stage trades exactly when all succeed and the pipeline's budget accepts the total |
| MarketEffects.BudgetExactly | src/pipeline/dag.py:100-109 | with a budget the answer exists exactly when every stage finds a worker, each has a price, and the charges add up to at most the budget; without one exactly when every stage finds a worker |
| MarketEffects.TradesExactly | src/broker/placement.py:498-540 | a stage goes to its chosen domain unless no worker there has room, then to the local one, and stops the run when both are full |
| MarketEffects.StopsExactly | src/broker/placement.py:472-547 | a stage finds no worker exactly when its chosen domain and the local one are full beside everything placed before it |
| Market.MarketAccounts | src/broker/placement.py:462-553 | every worker stays within its residual, the tested total is the sum recomputed from the final placement, local fallbacks included, and never exceeds the all-local price |
| Market.NeverRejectedOnBudget | src/broker/placement.py:549-551 | if the all-local price fits the budget only missing capacity rejects the pipeline |
| Market.GovernanceUnread | src/broker/placement.py:417-553 | governance, slices, declared domains, edges and latencies never change the outcome |
| MarketSovereignty.SovereigntyExactly | src/broker/placement.py:436-436 | at given prices, all answers, whatever the pipeline, network, loads and budget, keep the stages of a type within a declared domain exactly when that domain is the local one and no remote price plus WAN undercuts the local price of the type |
| Counterexamples.MarketLeavesDomain | src/broker/placement.py:436-436 | a stage that declares the local domain, a cheap price and one worker away: the market answers and the checker reports the stage outside its domain |
| Market.SovereigntyUnread | src/broker/placement.py:436-436 | redeclaring the domain of a stage leaves the answer as it was, so the declaration is respected only when it names the domain of the worker chosen anyway |
| Holm.HolmBonferroni | scripts/analyze_results.py:99-131 | each result holds the cumulative maximum and verdict of its hypothesis, in input order |
| Holm.MarksWhatStepDownRejects | scripts/analyze_results.py:114-131 | for alpha at most 1 the marked hypotheses are exactly those before the sequential procedure's stop |
| Holm.CapMarksEverything | scripts/analyze_results.py:121-129 | for every alpha above 1 there are p-values on which the two disagree |
| Holm.ClosedForm | scripts/analyze_results.py:119-128 | the cumulative maximum at a rank is the largest capped product of a p-value not above it and the number of p-values not below that one |
| Holm.CorrectedValue | scripts/analyze_results.py:119-128 | each adjusted value is that closed form and lies between the p-value and 1 |
| Holm.CorrectedExactly | scripts/analyze_results.py:119-128 | the adjusted value is the largest of min(1, q times the number of p-values from q on) over the q up to the own p-value, and the verdict is that it is below alpha |
| Holm.StepDownExactly | scripts/analyze_results.py:114-131 | the sequential procedure rejects a rank exactly when each rank up to it has p times the number of ranks left below alpha |
| Holm.PermutationEquivariant | scripts/analyze_results.py:99-131 | permuting the input permutes the results, ties included |
| Propagation.SummaryPropagator.SelectEligiblePeers | src/federation/propagation.py:135-157 | exactly the healthy peers and the unhealthy ones whose probe is due; skip counters advance accordingly |
| Propagation.SummaryPropagator.RecordPeerFailure | src/federation/propagation.py:281-293 | one more consecutive failure, unhealthy from the threshold on, other peers untouched |
| Propagation.SummaryPropagator.PushSummary | src/federation/propagation.py:110-133 | a round sends to the selected peers once each and steps every peer's record by its outcome |
| Propagation.SummaryPropagator.ReceiveSummary | src/federation/propagation.py:159-195 | keeps the stored summary exactly when the incoming one is stale |
| Propagation.HealthIsStreak | src/federation/propagation.py:281-293 | over all rounds a peer is unhealthy exactly when its last sends contain at least the threshold of consecutive failures |
| Propagation.BoundedProbing | src/federation/propagation.py:135-157 | a peer that always fails gets exactly min(N,F) + max(0,N-F)/P sends in N rounds |
| Propagation.Recovers | src/federation/propagation.py:265-279 | a peer that is up again is healthy after exactly the rest of its probe interval |
| Propagation.CacheHoldsStored | src/federation/propagation.py:159-195 | the cache holds for a domain what its own arrivals determine |
| Propagation.CacheExactly | src/federation/propagation.py:159-195 | over mixed arrivals a domain has an entry exactly when it has sent one, and the entry is what its own arrivals alone determine |
| Propagation.FreshestKept | src/federation/propagation.py:159-195 | with timestamps the cache holds the latest arrival of the greatest timestamp |
| Propagation.LegacyResets | src/federation/propagation.py:163-168 | a summary without a timestamp forgets everything before it |
| RoundRobin.StaticBroker.EligibleWorkers | src/broker/static_broker.py:139-144 | exactly the registered workers matching the slice, in ascending order |
| RoundRobin.EligibleExactly | src/broker/static_broker.py:139-144 | a requirement is met by its own slice and by flat workers, and none by every registered worker |
| RoundRobin.AscendingUnique | src/broker/static_broker.py:139-144 | that list is unique |
| RoundRobin.PrecedesExactly | src/broker/static_broker.py:139-144 | one name is before another exactly when it is a proper prefix, or smaller at the first difference |
| RoundRobin.FirstServed | src/broker/static_broker.py:108-133 | a fresh cycle serves its smallest worker first |
| RoundRobin.StaticBroker.RebuildCycle | src/broker/static_broker.py:108-133 | fresh cycles for no requirement and for every worker's own slice, each over exactly its eligible workers |
| RoundRobin.StaticBroker.PickWorker | src/broker/static_broker.py:146-177 | an error exactly when no worker is eligible, telling an empty registry from an empty slice; round-robin takes the next worker of the requirement's cycle and moves no other cycle, random takes the drawn eligible worker and moves none |
| RoundRobin.StaticBroker.ComputePlacement | src/broker/static_broker.py:179-185 | succeeds exactly when every stage has an eligible worker; the stages get the answers of successive requests, the cycles end where these requests leave them, and on an error where the stages before the first unserved one leave them |
| RoundRobin.RunsJoin | src/broker/static_broker.py:166-177 | the requests of two calls are one run: the second goes on where the first left the cycles |
| RoundRobin.RequestsTakeTurns | src/broker/static_broker.py:166-177 | over any run of mixed requests those for one slice take successive turns of its cycle, whatever is requested in between |
| RoundRobin.RunFair | src/broker/static_broker.py:166-177 | between registry changes, over any run of mixed requests, any n consecutive picks for a slice give each of its m eligible workers floor(n/m) or ceil(n/m) |
| RoundRobin.TurnsExact | src/broker/static_broker.py:177-177 | exact number of turns of a worker among the next n elements of a cycle |
| RoundRobin.RoundRobinFair | src/broker/static_broker.py:177-177 | among the next n elements of a cycle each of its m workers occurs floor(n/m) or ceil(n/m) times |
| RoundRobin.PlacementFair | src/broker/static_broker.py:179-185 | one placement, from whatever cycles it starts, shares the stages of a slice evenly among its eligible workers |

## Left out

- Violations: their texts and their order in the list are not modelled; the set of violations is.
- Acceptance.TreeResultSafe: on one given network its condition on the hops at a fan-in is sufficient only; the exact condition, `KeptIffNoFanIn`, is on the pipeline over all networks.
- Heuristics.LocalityPlacement: takes the topological order as a parameter, as do the solvers and round-robin placement; `PipelineDAG.TopologicalSort` provides it.
- Brokers.PipelineState.FindReadyStages: reads the clock once for a scan, while the source reads it for each waiting fan-in.
- Brokers.Broker.Publish: receives the placement computed by the concrete broker and a fresh identifier as parameters.
- Re-placement of stages from dead workers is an event of `Execution` with arbitrary new workers; which stages are chosen (`src/broker/static_broker.py:270-350`), the funnel bypass flag and `find_funnel_predecessor_stages` are not modelled.
- The final outcome in the metrics after a late send failure: a failed pipeline only leaves the table here.
- Propagation.SummaryPropagator.PushSummary: assumes distinct peer URLs and treats the concurrent sends of a round as one send per peer in list order; they touch different peers.
- Clearing.ComputeClearingPrices: demands are natural numbers; the processing time of a bid is not modelled.
- The extended cost `compute_placement_cost` and `latency_greedy_placement`, which read the compute times of a node: easy variants of what is modelled. `Unit` and the snapshots carry the times.
- `merge_governance`, `vargha_delaney_a12` and effect labels: short folds without an interplay.
- Output data rates and free metadata of edges, and the pipeline templates.
- HTTP, Kafka, asyncio scheduling, the command line, measurement, plots, learned embeddings and clustering.
- Floating-point rounding, wall-clock values and random draws: reals and parameters stand for them.
