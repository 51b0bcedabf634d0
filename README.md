# Cash-flow optimizer: a Dafny model of the flow engine and its learning loop

This project models the algorithmic core of a small cash-allocation program.
Money sits on nodes: revenue sources, expense destinations and plain
accounts. Capacitated, costed edges join the nodes. A min-cost max-flow
solver routes money from one revenue node to one expense node. A tabular
Q-learning agent chooses which (revenue, expense) pair to try. A driver
repeats this over several iterations, keeps a "best" transaction ledger and
finally applies that ledger to the live balances.

The model is split into one module per source class:

| module | file | models |
|---|---|---|
| `Edges` | `edge.dfy` | `Edge`. The edges live in an arena, a sequence in which each edge names its twin by index, instead of object back-references. |
| `Graphs` | `graph.dfy` | `Graph`: a class with id/index maps, types, balances, adjacency lists and the edge arena. |
| `Search` | `dijkstra.dfy` | The inner `Dijkstra` class of `MinCostMaxFlow`. |
| `Flow` | `min_cost_max_flow.dfy` | `MinCostMaxFlow`: the successive-shortest-path loop. |
| `Agent` | `rl_agent.dfy` | `RLAgent`. |
| `States`, `Actions`, `Transactions` | `state.dfy`, `action.dfy`, `transaction_record.dfy` | The immutable value classes. They are datatypes, and their getters are the datatype fields. |
| `Optimizer` | `cash_flow_optimizer.dfy` | `CashFlowOptimizer`: `optimize`, the ledger application and the balance part of `displayResults`. |
| `JavaStrings`, `NodeTypes`, `Options` | `java_strings.dfy`, `node_type.dfy`, `option.dfy` | The `String.compareTo` order, `String.hashCode`, the `"%.2f"` rendering, the double constants, `NodeType`, and `null` as `None`. |

Amounts are `real`. `Double.MAX_VALUE` and the 1e-6 threshold are
constants. Every loop over `HashMap` keys visits the ids in index
(insertion) order. Random draws are parameters: `coin` stands for
`nextDouble()` and `draw` for the value `nextInt(n)` reduces modulo `n`.

Behaviours of the program that the model keeps as they are:

- **Balances are overwritten during augmentation.** For each path edge the
  solver sets the source's balance to minus the amount and the
  destination's to plus the amount (`Flow.Overwrite`). After the first
  augmentation the source therefore holds minus the amount moved, and the
  next round finds no funds. One `computeMinCostMaxFlow` call moves flow
  along at most one path (`Flow.Outcome`). The loop is written to repeat
  until no path remains, but because of the overwrite it stops after the
  first augmentation.
- **The path search is Dijkstra without potentials**, although user costs
  and reverse edges may be negative. The model proves that a returned path
  is a well-formed chain of usable edges, and that the search finds a path
  whenever one exists and the costs are small and positive. It does not
  prove that the path is a shortest one.
- **The best-result rule.** A pair replaces the best result when its cost
  is strictly lower or when it runs in the final iteration. After
  `optimize(n)` with `n >= 1`, the best cost and ledger are therefore those
  of the last pair evaluated (`Optimizer.Final`).
- **The live graph never changes during `optimize`.** The balance update
  after each simulation is commented out in the program, so every pair is
  judged on the same balances.

## Model

| member | source | states |
|---|---|---|
| `Edges.NewEdge` | src/cashflowoptimizer/Edge.java:11-17 | A new edge has flow 0, so its residual capacity equals its capacity; endpoints, cost and twin are as given. |
| `Edges.Push` | src/cashflowoptimizer/Edge.java:51-54 | addFlow(x) raises the edge's flow by x and lowers its twin's by x. Every other edge is unchanged, and no field other than a flow changes (`SameShapes`). |
| `Edges.PushKeepsFlowsCancel` | src/cashflowoptimizer/Edge.java:51-54 | If every twin pair's flows summed to 0 before a push, they still do. |
| `Edges.PushThenTwinPushRestores` | src/cashflowoptimizer/Edge.java:51-54 | e.addFlow(x) followed by e.reverse.addFlow(x) restores every flow; the twin of e's twin is e. |
| `Edges.ReverseResidualIsForwardFlow` | src/cashflowoptimizer/Edge.java:47-54 | A capacity-0 twin whose flow is the negation of its partner's has residual capacity equal to the partner's flow. |
| `Edges.PushKeepsResidualsNonneg` | src/cashflowoptimizer/Edge.java:47-54 | Pushing at most an edge's residual capacity keeps every residual capacity non-negative. |
| `Edges.ForwardFlowWithinCapacity` | src/cashflowoptimizer/Edge.java:47-54 | With cancelling flows and non-negative residuals, a forward edge (twin of capacity 0) carries between 0 and its capacity. |
| `Edges.PushAlongKeepsFlowsCancel` | src/cashflowoptimizer/MinCostMaxFlow.java:63-64 | Pushing along a whole path keeps the twin flows cancelling. |
| `Edges.PushAlongUntouched` | src/cashflowoptimizer/MinCostMaxFlow.java:63-64 | Pushing along a path leaves every edge that is neither on the path nor a twin of one as it was. |
| `Edges.PushAlongOnPath` | src/cashflowoptimizer/MinCostMaxFlow.java:63-64 | Along a path with no repeated edge and no twin pair, each path edge ends with exactly x more flow and its twin with x less. |
| `Edges.PushNetOut` | src/cashflowoptimizer/Edge.java:51-54 | One addFlow(x) sends x more out of the edge's source and x more into its destination. The net outflow of every other node is unchanged. |
| `Edges.PushAlongNetOut` | src/cashflowoptimizer/MinCostMaxFlow.java:63-64 | After pushing along a path, each node's net outflow is the old one plus x per path edge leaving it, minus x per path edge entering it. |
| `Edges.ChainShift` | src/cashflowoptimizer/MinCostMaxFlow.java:63-64 | Along a chain of edges, the interior shifts cancel. Only the first source sends x more and the last destination receives x more. |
| `Edges.PushAlongKeepsResidualsNonneg` | src/cashflowoptimizer/MinCostMaxFlow.java:41-64 | Pushing at most the path's least residual capacity along a path with no repeated edge and no twin pair keeps residuals non-negative. |
| `Graphs.Twins` | src/cashflowoptimizer/Graph.java:43-50 | addEdge's pair: forward edge (capacity, cost), reverse edge (dest to source, capacity 0, cost negated), no flow, each naming the other. |
| `Graphs.TwinsKeepTwinned` | src/cashflowoptimizer/Graph.java:43-54 | Appending such a pair keeps every edge of the arena linked to a twin that links back and runs the other way. |
| `Graphs.IdMapsExtend` | src/cashflowoptimizer/Graph.java:24-26 | Registering a new id under the old node count keeps the id and index maps mutual inverses. |
| `Graphs.OutEdgesMembers` | src/cashflowoptimizer/Graph.java:52-54 | A node's adjacency list holds exactly the edges that leave it. |
| `Graphs.AdjacencyFitsAppend` | src/cashflowoptimizer/Graph.java:52-54 | Appending the forward edge to the source's list and the reverse edge to the dest's list keeps each list exactly the node's outgoing edges. |
| `Graphs.Graph.constructor` | src/cashflowoptimizer/Graph.java:13-20 | A new graph has no nodes, no balances and no edges. |
| `Graphs.Graph.AddNode` | src/cashflowoptimizer/Graph.java:22-33 | A known id returns its index and changes nothing. A new id gets the old node count as its index; the count grows by one; type and balance are stored; an empty adjacency list is added; the maps stay inverse. |
| `Graphs.Graph.AddEdge` | src/cashflowoptimizer/Graph.java:35-57 | Returns false exactly when an id is unknown, and then changes nothing. Otherwise it appends the twin pair and adds exactly one index to the source's list and one to the dest's. |
| `Graphs.Graph.SetBalance` | src/cashflowoptimizer/Graph.java:67-69 | Overwrites one balance; every other balance and all other state stay the same. |
| `Graphs.Graph.UpdateBalance` | src/cashflowoptimizer/Graph.java:119-135 | Adds the amount only to an id that already has a balance; otherwise nothing changes. |
| `Graphs.Graph.AddFlow` | src/cashflowoptimizer/Edge.java:51-54 | addFlow on an arena edge: the arena becomes `Push` of the old one, and nodes, balances and lists stay the same. |
| `Graphs.Graph.GetBalance` | src/cashflowoptimizer/Graph.java:63-65 | The stored balance, or 0 for an id without one. |
| `Graphs.Graph.GetNodeIndex` | src/cashflowoptimizer/Graph.java:83-85 | -1 exactly for an unknown id; otherwise an index below the count that maps back to the id. |
| `Graphs.Graph.GetNodeType` | src/cashflowoptimizer/Graph.java:59-61 | A type exactly for the known ids (Java's null otherwise). |
| `Graphs.Graph.Ids` | src/cashflowoptimizer/Graph.java:71-73 | The key set in iteration order: each known id once, in index order. |
| `Graphs.Graph.CopyNodes` | src/cashflowoptimizer/Graph.java:97-102 | The node loop of copy(): a fresh graph with the same id maps, types and balances, and no edges. |
| `Graphs.Graph.CopyEdgesOf` | src/cashflowoptimizer/Graph.java:106-113 | The inner edge loop: for each kept edge of one adjacency list, in order, one fresh pair is appended to the copy. |
| `Graphs.Graph.Copy` | src/cashflowoptimizer/Graph.java:96-117 | A fresh graph with the same ids, indices, types and balances. Its arena is one new flow-free pair per kept edge, in visiting order. |
| `Graphs.CopiedEdges` | src/cashflowoptimizer/Graph.java:105-113 | copy() re-creates exactly the edges with capacity > 0 whose twin has capacity 0; the others are dropped. |
| `Graphs.RebuiltPairs` | src/cashflowoptimizer/Graph.java:107-111 | The j-th kept edge reappears as the j-th pair, with the same endpoints, capacity and cost and zero flow. |
| `Graphs.RebuiltIsFresh` | src/cashflowoptimizer/Graph.java:96-117 | A copied arena is twinned, carries no flow, and satisfies both flow invariants. |
| `Search.PollLeast` | src/cashflowoptimizer/MinCostMaxFlow.java:119-123 | queue.poll(): a queued node of least distance (the lowest index among equals). |
| `Search.Relaxed` | src/cashflowoptimizer/MinCostMaxFlow.java:128-139 | Relaxing a positive-residual edge to a shorter distance keeps every predecessor link a usable edge from a reached node. |
| `Search.Dijkstra.constructor` | src/cashflowoptimizer/MinCostMaxFlow.java:104-142 | The arrays fit the graph and hold a predecessor tree over usable edges. The source is finalised first, no node is finalised twice, and `visited` marks exactly the finalised nodes. The search ends `Settled`: every node below Double.MAX_VALUE was finalised, and every usable edge out of a finalised node ends within that node's distance plus the edge's cost. |
| `Search.Dijkstra.Explore` | src/cashflowoptimizer/MinCostMaxFlow.java:122-141 | The queue loop terminates with the constructor's guarantees, `Settled` among them. |
| `Search.Dijkstra.Visit` | src/cashflowoptimizer/MinCostMaxFlow.java:123-140 | Finalising a polled node records it once, at its current distance, and relaxing its edges keeps the loop invariant `Frontier`. |
| `Search.Dijkstra.RelaxFrom` | src/cashflowoptimizer/MinCostMaxFlow.java:128-140 | No distance rises, and every lowered distance is queued. Every usable edge the node lists ends within the node's distance plus the edge's cost. |
| `Search.Dijkstra.Relax` | src/cashflowoptimizer/MinCostMaxFlow.java:129-138 | One inner pass: a usable edge ends within u's distance plus its cost afterwards. An improved end node is queued, and no distance rises. |
| `Search.ReachedAlong` | src/cashflowoptimizer/MinCostMaxFlow.java:104-142 | After a settled search whose costs stay below Double.MAX_VALUE over n steps (`Tame`), the end of every usable walk from the source has a finite distance. |
| `Search.Unreachable` | src/cashflowoptimizer/MinCostMaxFlow.java:104-142 | After such a search, a node left at Double.MAX_VALUE cannot be reached from the source at all. |
| `Search.Dijkstra.GetShortestPathTo` | src/cashflowoptimizer/MinCostMaxFlow.java:144-155 | Empty exactly when the target is unreached or is the source; then, with tame costs, no usable walk leads there. A non-empty result is a chain of positive-residual edges from the source to the target that never re-enters a node. `None` means the predecessor chain cycles without reaching the source, which positive costs rule out. |
| `Search.Dijkstra.TraceBack` | src/cashflowoptimizer/MinCostMaxFlow.java:148-152 | The walk back along the predecessor links from a reached target: a well-formed path, or `None` exactly on a cycle, which positive costs rule out. |
| `Search.CycleAvoidsSource` | src/cashflowoptimizer/MinCostMaxFlow.java:148-150 | On a cycling predecessor chain, every node the walk visits is in range and is not the source, however far the walk goes, so the Java loop never ends. |
| `Flow.Bottleneck` | src/cashflowoptimizer/MinCostMaxFlow.java:40-44 | The minimum loop: at most every residual capacity on the path and equal to one of them (or Double.MAX_VALUE for an empty path). |
| `Flow.LedgerRecords` | src/cashflowoptimizer/MinCostMaxFlow.java:63-77 | One transaction per path edge, in path order, with that edge's endpoint ids, the amount and the edge's unit cost. |
| `Flow.LedgerCharge` | src/cashflowoptimizer/MinCostMaxFlow.java:73-76 | An augmentation adds amount times the sum of the path's unit costs to the total cost. |
| `Flow.OverwriteAlongChain` | src/cashflowoptimizer/MinCostMaxFlow.java:66-71 | After the overwrites, every node the amount left holds minus the amount, the last node holds the amount, and untouched nodes keep their balance. |
| `Flow.LedgerOfPathIsChained` | src/cashflowoptimizer/MinCostMaxFlow.java:63-77 | The ledger of an augmenting path starts at the source's id, ends at the sink's, and never re-enters a node or the source. |
| `Flow.AugmentingPathIsTwinFree` | src/cashflowoptimizer/MinCostMaxFlow.java:144-155 | A path the search returns uses no edge twice and never both twins of a pair. |
| `Flow.AugmentPreserves` | src/cashflowoptimizer/MinCostMaxFlow.java:41-64 | Augmenting by at most the bottleneck keeps twin flows cancelling and every residual non-negative. |
| `Flow.AugmentationOutcome` | src/cashflowoptimizer/MinCostMaxFlow.java:62-77 | After an augmentation the source's balance is minus the amount, and both flow invariants survive. |
| `Flow.NoFundsNoFlow` | src/cashflowoptimizer/MinCostMaxFlow.java:50-60 | A source balance <= 0 gives no transactions, zero flow and an unchanged graph. |
| `Flow.MinCostMaxFlow.constructor` | src/cashflowoptimizer/MinCostMaxFlow.java:11-16 | Totals start at 0 and the transaction list empty. |
| `Flow.MinCostMaxFlow.Step` | src/cashflowoptimizer/MinCostMaxFlow.java:63-77 | One pass of the augment loop: push, overwrite both end balances, add the charge, log the record. |
| `Flow.MinCostMaxFlow.Augment` | src/cashflowoptimizer/MinCostMaxFlow.java:62-77 | The augment loop: flows are `PushAlong`, the log grows by the path's ledger, the cost by its charge, and balances are overwritten along it. |
| `Flow.AugmentConserves` | src/cashflowoptimizer/MinCostMaxFlow.java:62-64 | Flow conservation for one augmentation along an augmenting path: each path edge carries the amount more and its twin the amount less. The source sends out the amount more, the sink takes in the amount more, and every other node's net outflow is unchanged. |
| `Flow.MinCostMaxFlow.Search` | src/cashflowoptimizer/MinCostMaxFlow.java:33-34 | A fresh search from the source: an empty path when sink equals source, otherwise a well-formed augmenting path or none. With tame costs an empty path means the sink is unreachable. With positive costs there is always an answer. |
| `Flow.MinCostMaxFlow.Decide` | src/cashflowoptimizer/MinCostMaxFlow.java:33-60 | Each stop names its reason: no path (then, with tame costs, the sink is unreachable), a cycling chain (only with a non-positive cost), a bottleneck at most 1e-6, or no funds. It goes ahead exactly with a non-empty path, a bottleneck above 1e-6 and a positive amount equal to the bottleneck clamped to the source's balance. A source balance <= 0 always stops. When a usable path exists, costs are tame and positive, residuals exceed 1e-6 and the source has funds (`Movable`), it goes ahead. |
| `Flow.MinCostMaxFlow.Transfer` | src/cashflowoptimizer/MinCostMaxFlow.java:62-79 | Augments by the amount, adds it to the total flow, and leaves the source's balance at minus the amount. |
| `Flow.MinCostMaxFlow.Round` | src/cashflowoptimizer/MinCostMaxFlow.java:32-80 | One loop round: either nothing changes and the loop ends, or one augmentation with 0 < amount <= bottleneck and amount <= source funds. Under `Movable` the round moves money. |
| `Flow.MinCostMaxFlow.Compute` | src/cashflowoptimizer/MinCostMaxFlow.java:18-81 | Unknown ids change nothing. Otherwise totals restart at 0, the total cost is the log's charge, and at most one augmentation happens (none when the source has no funds). Under `Movable` a positive amount moves. Both flow invariants are preserved. |
| `Flow.MinCostMaxFlow.Run` | src/cashflowoptimizer/MinCostMaxFlow.java:32-80 | The while(true) loop ends with `Outcome`. Because balances are overwritten, the round after a successful one finds the source at minus the amount and stops. Under `Movable` the path is non-empty and the total flow positive. |
| `Flow.ExampleArenaBuilt` | src/cashflowoptimizer/Graph.java:43-56 | The example arena is what addEdge builds for A→B (50, 1), B→C (50, 1) and A→C (30, 5). |
| `Flow.ExamplePath` | src/cashflowoptimizer/MinCostMaxFlow.java:144-155 | A→B→C is an augmenting path with residual 50 on both edges. |
| `Flow.ExampleLedger` | src/cashflowoptimizer/MinCostMaxFlow.java:63-79 | Moving 50 logs two transactions of 50 at unit cost 1, for a total cost of 100. |
| `Flow.ExampleBalances` | src/cashflowoptimizer/MinCostMaxFlow.java:70-71 | A(100), B(0), C(0) end as A = -50, B = -50, C = 50. |
| `Flow.ExampleDirectEdgeUnused` | src/cashflowoptimizer/MinCostMaxFlow.java:63-64 | Pushing 50 along A→B→C leaves the A→C edge and its twin at flow 0. |
| `Flow.ExampleMovable` | src/cashflowoptimizer/MinCostMaxFlow.java:18-81 | On the fresh example arena with A holding 100, a computation from A to C is `Movable`. |
| `Flow.ExampleUsable` | src/cashflowoptimizer/Graph.java:43-56 | The usable edges of the fresh example arena are its three forward edges. |
| `Flow.ExamplePaths` | src/cashflowoptimizer/MinCostMaxFlow.java:144-155 | The only augmenting paths from A to C are A→B→C and A→C. |
| `Flow.ExampleDirectLedger` | src/cashflowoptimizer/MinCostMaxFlow.java:63-79 | Moving 30 along A→C logs one record of 30 at unit cost 5, costs 150 and leaves A = -30, B = 0, C = 30. |
| `Flow.ExampleViaB` | src/cashflowoptimizer/MinCostMaxFlow.java:37-79 | Along A→B→C the bottleneck is 50, below A's 100: 50 moves in two records, for a cost of 100. |
| `Flow.ExampleDirect` | src/cashflowoptimizer/MinCostMaxFlow.java:37-79 | Along A→C the bottleneck is 30: 30 moves in one record, for a cost of 150. |
| `Flow.ExampleAugmentation` | src/cashflowoptimizer/MinCostMaxFlow.java:18-81 | Any solver outcome on the example that moved money took one of the two paths, with that path's amount, cost, log and balances. |
| `Flow.ExampleNodes` | src/cashflowoptimizer/Graph.java:22-33 | Adding A (revenue, 100), B (account, 0) and C (expense, 0) gives indices 0, 1, 2, those balances, and no edges. |
| `Flow.ExampleGraph` | src/cashflowoptimizer/Graph.java:35-57 | The three addEdge calls then build exactly the example arena. |
| `Flow.ExampleComputation` | src/cashflowoptimizer/MinCostMaxFlow.java:18-81 | computeMinCostMaxFlow("A", "C") on the example graph moves a positive amount. It ends either with 50 via B (cost 100, A = -50, B = -50, C = 50) or with 30 direct (cost 150, A = -30, B = 0, C = 30). |
| `Transactions.TotalChargeAppend` | src/cashflowoptimizer/TransactionRecord.java:33-36 | The charge (cost × amount) of two ledgers in a row is the sum of their charges. |
| `Transactions.TotalChargeOfUniformAmount` | src/cashflowoptimizer/TransactionRecord.java:33-36 | A ledger moving one amount costs that amount times the sum of its unit costs. |
| `Actions.EqualsIsIdentity` | src/cashflowoptimizer/Action.java:27-39 | equals holds exactly when both ids are equal; it is reflexive, symmetric and transitive; equal actions have equal hash codes. |
| `Actions.SignatureCollision` | src/cashflowoptimizer/Action.java:22-34 | ("a->b","c") and ("a","b->c") are unequal but share the signature "a->b->c". |
| `Actions.SignatureInjectiveWithoutDash` | src/cashflowoptimizer/Action.java:22-24 | When source ids contain no '-', equal signatures mean equal actions. |
| `States.Signature` | src/cashflowoptimizer/State.java:14-24 | The signature is empty exactly for an empty balance map. |
| `States.EqualsIsEquivalence` | src/cashflowoptimizer/State.java:27-38 | equals is reflexive, symmetric and transitive, and equal states have equal hash codes. |
| `States.SignatureSeesRoundedBalances` | src/cashflowoptimizer/State.java:14-33 | States with the same ids whose balances render alike with two decimals are equal. |
| `States.RoundingCollision` | src/cashflowoptimizer/State.java:20 | Balances 1.0 and 1.001 give different states that compare equal. |
| `States.SignatureOfPair` | src/cashflowoptimizer/State.java:14-24 | {a: 1.0, b: 2.0} has the signature "a:1.00;b:2.00;": sorted ids, key ":" value ";". |
| `States.SignatureCollision` | src/cashflowoptimizer/State.java:19-24 | An id containing ":" and ";" can imitate two entries, so unequal maps can share a signature. |
| `JavaStrings.SortedKeys` | src/cashflowoptimizer/State.java:16-17 | Every key exactly once, in strictly ascending lexicographic order of characters (`StrLt`, String.compareTo's order by scalar value); it depends on the key set only. |
| `JavaStrings.Fixed2` | src/cashflowoptimizer/State.java:20 | "%.2f" with '.' as separator: digits, an optional sign, and exactly two digits after the point. |
| `JavaStrings.StrHash` | src/cashflowoptimizer/State.java:36-38 | String.hashCode's 31-multiplier fold over the characters stays in the 32-bit signed range. |
| `Agent.Pick` | src/cashflowoptimizer/RLAgent.java:27 | nextInt(n): an index below n. |
| `Agent.BestScan` | src/cashflowoptimizer/RLAgent.java:32-46 | The best-set loop: for a non-empty list, the best value is at least every value and reached by one. The tie list is non-empty and holds exactly the actions reaching it, in order. |
| `Agent.MaxNext` | src/cashflowoptimizer/RLAgent.java:61-65 | The running maximum from 0.0: at least 0 and every next value, and equal to 0 or to one of them. |
| `Agent.UpdatedOnly` | src/cashflowoptimizer/RLAgent.java:58-68 | An update writes the (state, action) key and no other. |
| `Agent.UpdatedEntry` | src/cashflowoptimizer/RLAgent.java:67 | With a learning rate in [0, 1], the new value lies between the old value and the target r + γ·m. |
| `Agent.LearnedBetween` | src/cashflowoptimizer/RLAgent.java:67 | Q + α(t − Q) lies between Q and t for α in [0, 1]. |
| `Agent.KeyByContent` | src/cashflowoptimizer/RLAgent.java:99-101 | Equal states and equal actions share one table key and value. |
| `Agent.SharedEntry` | src/cashflowoptimizer/RLAgent.java:99-101 | The unequal actions ("a->b","c") and ("a","b->c") share a Q-entry in every state. |
| `Agent.DecayedBounds` | src/cashflowoptimizer/RLAgent.java:76-81 | Decay leaves the rate at rate·factor or at 0.01, never below 0.01, and with factor ≤ 1 never above a rate already ≥ 0.01. |
| `Agent.DecayedNBounds` | src/cashflowoptimizer/RLAgent.java:76-81 | Repeated decay keeps the rate between 0.01 and its start. |
| `Agent.RLAgent.constructor` | src/cashflowoptimizer/RLAgent.java:14-20 | Parameters stored, empty table, hasImproved false. |
| `Agent.RLAgent.SelectAction` | src/cashflowoptimizer/RLAgent.java:23-53 | None exactly for an empty list, otherwise an element of it; a one-element list gives that element; on the exploit branch the choice has the greatest Q-value (unseen keys count as 0). |
| `Agent.RLAgent.MaxNextQ` | src/cashflowoptimizer/RLAgent.java:61-65 | The loop computes `MaxNext`. |
| `Agent.RLAgent.UpdateQValue` | src/cashflowoptimizer/RLAgent.java:57-74 | The table becomes `Updated`: only the key moves, to Q + α(r + γ·m − Q). The rate is unchanged, and hasImproved holds afterwards. |
| `Agent.RLAgent.DecreaseExplorationRate` | src/cashflowoptimizer/RLAgent.java:76-81 | The rate becomes `Decayed` of the old one; the table is unchanged. |
| `Agent.RLAgent.SetExplorationRate` | src/cashflowoptimizer/RLAgent.java:83-85 | Sets any rate, with no floor. |
| `Optimizer.OfTypeMembers` | src/cashflowoptimizer/CashFlowOptimizer.java:39-46 | The revenue (expense) list holds exactly the ids of that type. |
| `Optimizer.Snap` | src/cashflowoptimizer/CashFlowOptimizer.java:63-66 | The state map has exactly the graph's ids, each with its balance. |
| `Optimizer.AppliedConserves` | src/cashflowoptimizer/CashFlowOptimizer.java:141-153 | Applying a ledger between known nodes leaves the sum of balances unchanged. |
| `Optimizer.AppliedUntouched` | src/cashflowoptimizer/CashFlowOptimizer.java:141-153 | A node no record names keeps its balance. |
| `Optimizer.AppliedOne` | src/cashflowoptimizer/CashFlowOptimizer.java:141-153 | One record takes its amount from the source and gives it to the destination. |
| `Optimizer.PairsLength` | src/cashflowoptimizer/CashFlowOptimizer.java:60-61 | There are |revenue| × |expense| pairs. |
| `Optimizer.PairsMembers` | src/cashflowoptimizer/CashFlowOptimizer.java:60-61 | The pairs visited are exactly the (revenue, expense) pairs. |
| `Optimizer.OutcomeOverwrites` | src/cashflowoptimizer/CashFlowOptimizer.java:82-86 | After a solver run the copy's balances are the start overwritten along the ledger, and the flow cost is the ledger's charge. |
| `Optimizer.RetainedAppend` | src/cashflowoptimizer/CashFlowOptimizer.java:118-121 | Over any stretch of pairs, the final iteration's best is its last pair. Before that, the best cost never rises and is at most every cost seen. |
| `Optimizer.EachEvery` | src/cashflowoptimizer/CashFlowOptimizer.java:56-61 | Every recorded iteration covered all pairs in order, and its history entry is the sum of their costs. |
| `Optimizer.Snapshot` | src/cashflowoptimizer/CashFlowOptimizer.java:63-67 | The balance loop builds the state of the graph's snapshot. |
| `Optimizer.OutcomeRouted` | src/cashflowoptimizer/CashFlowOptimizer.java:82-86 | Whatever a solver run logs is `Routed`: empty, or a chain of records of one positive amount, at most the source's funds, from the revenue id to the expense id, naming only graph ids. |
| `Optimizer.Simulate` | src/cashflowoptimizer/CashFlowOptimizer.java:79-105 | A solver run on a copy: the cost is the ledger's charge, the next state is the snapshot overwritten along the ledger, and a revenue node without funds gives an empty ledger and cost 0. The ledger is `Routed` from the revenue node to the expense node. |
| `Optimizer.FinalRouted` | src/cashflowoptimizer/CashFlowOptimizer.java:118-121 | The best ledger an optimisation keeps names only graph ids, so applying it leaves the total of the balances unchanged. |
| `Optimizer.TrainedAllAppend` | src/cashflowoptimizer/CashFlowOptimizer.java:108-115 | Training the Q-table on two stretches of evaluations in a row is training it on their concatenation. |
| `Optimizer.TrainedFlattened` | src/cashflowoptimizer/CashFlowOptimizer.java:53-133 | Training through one more iteration continues from the table the earlier iterations left. |
| `Optimizer.CashFlowOptimizer.constructor` | src/cashflowoptimizer/CashFlowOptimizer.java:12-19 | Empty graph; agent (0.1, 0.9, 0.3); empty best ledger; best cost Double.MAX_VALUE; hasRun false; empty history. |
| `Optimizer.CashFlowOptimizer.AddNode` | src/cashflowoptimizer/CashFlowOptimizer.java:21-23 | Delegates to the graph: a new id is registered, a known one changes nothing. |
| `Optimizer.CashFlowOptimizer.AddEdge` | src/cashflowoptimizer/CashFlowOptimizer.java:25-27 | Delegates to the graph: true exactly for two known ids, then the twin pair is added. |
| `Optimizer.CashFlowOptimizer.Classify` | src/cashflowoptimizer/CashFlowOptimizer.java:36-46 | The revenue and expense lists, in id order. |
| `Optimizer.CashFlowOptimizer.Observe` | src/cashflowoptimizer/CashFlowOptimizer.java:62-105 | The agent selects the only action offered. The pair is simulated on a copy, and the live graph is not touched. |
| `Optimizer.CashFlowOptimizer.EvaluatePair` | src/cashflowoptimizer/CashFlowOptimizer.java:62-122 | One pair, `Judged` on the live graph: the current state is the balance snapshot and the next state is that snapshot overwritten along the ledger. The agent learns from reward −cost, and the retention rule is applied. |
| `Optimizer.CashFlowOptimizer.Learn` | src/cashflowoptimizer/CashFlowOptimizer.java:108-115 | One Q-update with reward −flowCost and the evaluated action as the only next action. |
| `Optimizer.CashFlowOptimizer.Retain` | src/cashflowoptimizer/CashFlowOptimizer.java:118-121 | The best is replaced exactly when the iteration is the last or the cost is strictly lower. |
| `Optimizer.CashFlowOptimizer.EvaluateRow` | src/cashflowoptimizer/CashFlowOptimizer.java:61-123 | One revenue node with every expense node, in order; the row cost is their sum. |
| `Optimizer.CashFlowOptimizer.Iterate` | src/cashflowoptimizer/CashFlowOptimizer.java:56-124 | One iteration covers every pair in order; its cost is the sum of the flow costs. |
| `Optimizer.CashFlowOptimizer.Record` | src/cashflowoptimizer/CashFlowOptimizer.java:126 | The history grows by exactly the iteration cost. |
| `Optimizer.CashFlowOptimizer.Round` | src/cashflowoptimizer/CashFlowOptimizer.java:56-124 | One iteration covers every pair on the unchanged graph, and each evaluation is `Judged`: its current and next states are fixed by the graph's balances and its ledger. The Q-table is the old one trained on each evaluation in order. On the last iteration the best ledger is the last evaluation's. |
| `Optimizer.CashFlowOptimizer.RunIterations` | src/cashflowoptimizer/CashFlowOptimizer.java:53-133 | hasRun is set and the history restarts. It ends with n entries, one per iteration. The best is the last pair's. The Q-table is the old one trained on every evaluation of every iteration, in order. Each evaluation is `Judged`, so its states, cost and ledger are fixed by the graph, and with them the Q-table. The rate is decayed n times. |
| `Optimizer.CashFlowOptimizer.Optimize` | src/cashflowoptimizer/CashFlowOptimizer.java:29-137 | n ≤ 0, or no revenue node, or no expense node: nothing changes. Otherwise `Ran` holds: n history entries, each iteration covering every pair on the unchanged graph, and the best taken from the last pair. The Q-table is the old one trained on every evaluation in order (`TrainedAll`). Each evaluation is `Judged`: its current state is the balance snapshot and its next state is that snapshot overwritten along its ledger. The rate has been decayed n times. |
| `Optimizer.CashFlowOptimizer.ApplyTransactions` | src/cashflowoptimizer/CashFlowOptimizer.java:139-157 | Balances become `Applied`: each amount leaves its source and joins its destination, in order; ids, types and edges are unchanged. |
| `Optimizer.CashFlowOptimizer.DisplayResults` | src/cashflowoptimizer/CashFlowOptimizer.java:160-191 | Nothing changes before a run. Afterwards, every call re-applies the best ledger to the live balances; ids, types and edges stay as they were. |

## Left out

- Printing, the JSON writer `saveOptimizationData`, and the GUI, console
  redirection and CLI classes: these are I/O and user interface, and none of
  them feeds a value back into the core.
- `java.util.Random`: the draws are parameters. One `coin` and one `draw`
  serve every call of an `optimize` run, which is one particular sequence
  of draws.
- The `verbose` flag and the `save`/`load` stubs of `RLAgent`: they only
  print.
- IEEE double arithmetic: amounts are exact reals. Rounding, overflow to
  infinity and NaN are not modelled. `"%.2f"` is modelled as half-up
  rounding of the exact value.
- `PriorityQueue` internals: a poll is modelled as "a queued node of least
  current distance, lowest index among equals". The Java heap can hold
  stale duplicate entries, and its comparator reads distances that change
  while entries sit in the heap. That can change which node is polled
  first among several.
- `Search.Dijkstra.GetShortestPathTo`: when the predecessor chain forms a
  cycle that never reaches the source, the Java loop never ends and the
  list grows until memory runs out. A negative-cost cycle of user edges can
  produce such a chain. The model stops the walk at the first repeated
  node and returns `None`. The solver then stops, and a ghost `stalled`
  flag records it.
- `Search.Dijkstra.GetShortestPathTo`: optimality of the returned path is
  not stated. Without potentials the search is not a correct shortest-path
  algorithm in the presence of negative costs. What is proved is that a
  returned path is well formed, that an empty result means the target is
  unreachable, and that positive costs rule out a cycling chain.
- ExampleComputation: the result is stated as one of the two possible
  outcomes. That the search picks A→B→C (total distance 2) over A→C
  (distance 5) is not proved, because least distances are not proved.
- ExampleLedger: it fixes the path A→B→C and the amount 50 by hand.
  `Flow.ExampleComputation` links the solver to it only as one of two
  possible outcomes.
- ExampleBalances: it states the overwrites along the hand-picked
  A→B→C ledger. The solver reaches these balances only on the A→B→C
  branch of `Flow.ExampleComputation`.
- ExampleDirectEdgeUnused: it pushes along the hand-picked path A→B→C.
  That the solver leaves A→C unused is not proved, for the same reason as
  `Flow.ExampleComputation`.
- SortedKeys: `StrLt` compares strings by Unicode scalar value, while
  `String.compareTo` compares UTF-16 code units. The two orders disagree
  only when a character outside the Basic Multilingual Plane meets one in
  U+E000..U+FFFF.
- StrHash: it hashes Unicode scalar values, while `String.hashCode` hashes
  UTF-16 code units. They differ for characters outside the Basic
  Multilingual Plane.
- Fixed2: it always writes '.' as the decimal separator, while
  `String.format("%.2f", …)` uses the default locale's separator.
- `Optimizer.CashFlowOptimizer.Optimize`: the exploration rate's effect is
  not observable here. Every call offers one action, so `SelectAction`
  returns it on both branches.
- Java `HashMap` iteration order is modelled as node-index (insertion)
  order.
- The plain getters (`getBestTransactions`, `getBestTotalCost`,
  `getCostHistory`, `getNodeCount`, `getAdjacentEdges`, `getNodeId`) are the
  fields themselves. `getNodeType`, `getNodeBalance` and `getNodeIds` of the
  optimizer are `Graph.GetNodeType`, `Graph.GetBalance` and `Graph.Ids`.
- `Edge.toString`: text only.
