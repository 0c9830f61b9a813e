# Verified model of pgRouting's hand-written graph algorithms

This project models, in Dafny, the algorithms of pgRouting that are written out in its own headers and sources rather
than delegated to Boost, and proves what they promise. Costs are natural numbers, vertices are descriptors `0 .. n-1`,
and edge lists keep insertion order and may hold parallel edges and self-loops unless a statement says otherwise.
`dafny verify dfyconfig.toml` checks everything.

Where the program changes things step by step, so does the model: classes with fields (`BaseGraph.Graph`, `Yen.Ksp`,
`Hierholzer.Traversal`, `PostmanTours.PostmanGraph`, `ContractionGraph.Graph`, the two `Contractor` classes,
`Bidirectional.Search`), arrays (labels and `from_edge` of the label-correcting searches, predecessors of the driving
distance, the paths of `equi_cost`), and loops with invariants. What the methods promise is stated over plain values,
about which the lemmas speak.

## Main results

- **Yen** (`Yen`, `YenInvariant`, `Spur`, `LooplessPaths`, `Weights`, `CompPaths`): over graphs that are edited and
  restored all along, the result holds the K cheapest loopless paths by the price of the edge listed first between each
  two nodes, and all of them if they are fewer than K. The invariant speaks about every prefix of every accepted path.
  Only the edge listed first can be relied on, because `disconnect_edge` saves only that one; these prices are the true
  ones exactly if of parallel edges the first listed is a cheapest one, as in every graph without parallel edges.
- **Chinese postman** (`ChinesePostman`, `Hierholzer`, `FlowNetwork`, `PostmanTours`): the recursive traversal of balanced
  edges spells an Euler circuit; `maxFlow == totalDeg` means exactly that the flow balances every vertex; and given a
  min-cost max-flow, the cost reported is the least cost of any closed walk over every edge, and a route is returned exactly
  if there is such a walk. The route's own total falls below that cost exactly if an edge has a cheaper parallel, and for a
  graph in several pieces a cost is reported although the documentation (`doc/chinese/pgr_chinesePostmanCost.rst`) promises
  the cost of a circuit.
- **Contraction** (`Bypass`, `ContractionGraph`, `LinearContraction`, `DeadEndContraction`, `Contract`): whole runs, in any
  order of kinds, contract one contractible vertex after the other until there is none, and change no distance between
  surviving vertices; worklists are exact although contraction recurses into neighbours; ids are neither lost nor held
  twice on undirected graphs without self-loops. However many cycles are asked for, every kind is performed once.
- **Contraction hierarchies** (`ShortcutRules`, `ShortcutChoice`, `ContractionShortcuts`, `ContractionHierarchies`): the
  lazy queue terminates; the history of contractions is the one the loop prescribes, each by a metric that is exact at its
  time and no greater than any key waiting; metrics and order are those of that history. Every shortcut stands for a walk,
  whatever the Dijkstra search it relies on returns, which is a parameter. If the search is right, every shortcut costs the
  distance between its ends, and one is made wherever the way over the vertex by the first edges is the only shortest one
  and some way on from there costs something. A shortest way that takes the cheaper of two parallel edges is missed if the
  dearer one is listed first.
- **Searches** (`Labels`, `EdwardMoore`, `BinaryBreadthFirst`, `TwoQueues`, `Bidirectional`, `BdDijkstra`, `Detour`,
  `EdgeOrder`): Edward-Moore and binary BFS are exact; the passes of the latter are a function, of which at most two pushes
  for each vertex are proved on costs 0 and w. Bidirectional Dijkstra answers with a cost between D and 2D, and with D on
  costs 0 and w; on one concrete graph it is not D, and on another it finds no way although there is one. When
  the path it returns is one of that cost, and when it is a path at all, is decided by the edge ids.
- **Restoring** (`BaseGraph`, `DijkstraVia`): which cuts can be undone, exactly, and that `dijkstraVia` leaves the graph as
  it found it.
- **Trees and paths** (`Paths`, `DrivingDist`, `EquiCost`): in-place compaction of predecessors, depth labels, and the
  filter of `equi_cost`.

`Graphs` holds edges, walks and distances. A `hide` statement at the top of a proof keeps definitions it does not need
away from the verifier.

## Model

| member | source | states |
|---|---|---|
| `Yen.Ksp.Yen` | include/yen/ksp.hpp:72-113 | on any graph: the paths returned are exactly the accepted ones, and with `heapPaths` those still in the heap too; nothing comes out for equal ends, ends off the graph or `k` of 0; they come out ordered, each a loopless path of the graph that pays no more than the price listed first for each step, at most `k` of them without `heapPaths`; a loopless node sequence left out means `k` paths are returned, each of the first `k` no dearer than its listed price; and for every prefix of an accepted path that the last accepted path does not share, accepted paths and heap together hold one no dearer than any way to go on from there; the graph is usable as before |
| `Yen.Ksp.ExecuteYen` | include/yen/ksp.hpp:137-153 | no loopless path outside the result set has a listed price below the cost of one inside; fewer than `K` accepted means the heap is empty and every loopless path is accepted; every prefix of an accepted path is covered, but for those of the last one accepted |
| `Yen.Ksp.DoNextCycle` | include/yen/ksp.hpp:173-200 | after deviating at every node, every prefix of every accepted path is covered by the heap; the graph has nothing set aside |
| `Yen.Ksp.Deviate` | include/yen/ksp.hpp:174-199 | one deviation keeps both sets, loses no candidate, and covers the prefix up to the spur node |
| `Yen.Ksp.CutAccepted` | include/yen/ksp.hpp:179-186 | exactly the edges that accepted paths with the same root take from the spur node are off the graph |
| `Yen.Ksp.RemoveVertices` | include/yen/ksp.hpp:203-206 | exactly the vertices of the root path are off the graph |
| `Yen.Ksp.GetFirstSolution` | include/yen/ksp.hpp:159-168 | a first path costs no more than the listed price of any loopless path and is the only accepted one; none means that there is no loopless path |
| `Yen.Ksp.GetResults` | include/yen/ksp.hpp:208-222 | the accepted paths, and with `heapPaths` those of the heap, all of them and no others, in order |
| `Yen.ShortestPath` | include/yen/ksp.hpp:163-163 | what stands for `algorithms::dijkstra`: a shortest path, or none if there is none |
| `Yen.AcceptBest` | include/yen/ksp.hpp:145-152 | moving the least path from the heap to the result set keeps the whole invariant: optimality of the accepted, and coverage of all prefixes but those of the new path |
| `YenInvariant.HeapBeatsTheRest` | include/yen/ksp.hpp:143-150 | with every prefix covered, the head of the heap is no dearer than the listed price of any loopless path not accepted |
| `YenInvariant.EmptyHeapMeansAll` | include/yen/ksp.hpp:145-145 | with every prefix covered and the heap empty, every loopless path is accepted |
| `YenInvariant.Deviates` | include/yen/ksp.hpp:173-200 | a loopless path that is not accepted leaves the accepted ones after some prefix and is a candidate there |
| `YenInvariant.AcceptKeepsCovered` | include/yen/ksp.hpp:147-150 | accepting the best path uncovers nothing but prefixes of that path |
| `Spur.SpurCovers` | include/yen/ksp.hpp:188-196 | root and spur path joined are a loopless path, a candidate at the spur node, and no dearer than the listed price of any candidate there |
| `Spur.CandidatesRemain` | include/yen/ksp.hpp:179-188 | the remainder of every candidate can still be walked in the cut graph, at its listed price |
| `Spur.SpurIsFair` | include/yen/ksp.hpp:190-190 | a shortest spur path avoids the root and the banned edges, runs along edges of the original graph, and pays for no step more than the price listed |
| `Spur.NoDearerRow` | include/yen/ksp.hpp:190-190 | no row of a shortest path costs more than another edge between the same two nodes |
| `Spur.NoSpurNoCandidate` | include/yen/ksp.hpp:190-192 | if the end is out of reach in the cut graph, there is no candidate at the spur node |
| `LooplessPaths.CutAndRestoreKeepsPrice` | include/cpp_common/base_graph.hpp:614-629 | cutting and restoring the edges between two vertices loses no price exactly if the first listed edge is a cheapest one |
| `LooplessPaths.ParallelEdgeForgotten` | include/cpp_common/base_graph.hpp:622-628 | two parallel edges, the dearer first: after one cut and restore the cheaper one is gone |
| `LooplessPaths.ListedPrices` | include/cpp_common/base_graph.hpp:614-629 | the listed prices are never above the true costs of loopless paths exactly if of parallel edges the first listed is a cheapest one: only then are the paths of Yen the cheapest there are |
| `LooplessPaths.SimpleGraphsAreCheapestFirst` | include/cpp_common/base_graph.hpp:614-629 | without parallel edges and self-loops that condition always holds |
| `LooplessPaths.SimpleRoutesAreFair` | include/yen/ksp.hpp:72-113 | in such a graph the enumeration ranges over all loopless paths, none above its listed price |
| `LooplessPaths.FairRouteNodes` | src/common/path.cpp:93-101 | a stored path is one of the enumerated node sequences at no more than its listed price, and at that price exactly if of parallel edges the first listed is a cheapest one |
| `CompPaths.CompPathsLess` | src/cpp_common/compPaths.cpp:40-73 | true exactly if the first path costs less, or costs the same and has fewer rows, or has as many and the smaller node at the first place where they differ |
| `CompPaths.LessIsStrictOrder` | src/cpp_common/compPaths.cpp:40-73 | a strict order that leaves exactly the paths of equal cost and equal nodes undecided |
| `CompPaths.Insert` | include/yen/ksp.hpp:232-233 | inserting keeps the set ordered and adds the path unless an equivalent one is there |
| `Weights.CutEdgeFaithful` | include/cpp_common/base_graph.hpp:614-629 | cutting edges forgets no price as long as the first of parallel edges counts |
| `Weights.CutVertexFaithful` | include/cpp_common/base_graph.hpp:678-694 | cutting a vertex forgets no price |
| `Weights.RestoreFaithful` | include/cpp_common/base_graph.hpp:697-704 | restoring brings all prices back |
| `Paths.RecalculateAggCost` | src/common/path.cpp:93-101 | the `agg_cost` column becomes the prefix sums, the rest of the rows is untouched, and the total is the sum of the costs |
| `Paths.GetSubpath` | src/common/path.cpp:157-164 | the first `j` rows with their total |
| `Paths.IsEqual` | src/common/path.cpp:167-175 | true exactly if the subpath is empty or its nodes are a proper prefix |
| `Paths.AppendPath` | src/common/path.cpp:177-180 | concatenation with the `agg_cost` column recomputed; the totals add up |
| `Paths.RowsAreWalk` | src/common/path.cpp:93-101 | rows that lead along edges are a walk of the cost they sum up to |
| `BaseGraph.Graph.DisconnectEdge` | include/cpp_common/base_graph.hpp:614-629 | all edges between the two vertices go, the first in the out-edge list is saved |
| `BaseGraph.Graph.DisconnectVertex` | include/cpp_common/base_graph.hpp:662-694 | all edges at the vertex go; out-edges, and in-edges if directed, are saved |
| `BaseGraph.Graph.DisconnectOutGoingEdge` | include/cpp_common/base_graph.hpp:639-655 | every edge with the id that leaves the vertex goes and is saved |
| `BaseGraph.Graph.RestoreGraph` | include/cpp_common/base_graph.hpp:697-704 | the saved edges are back, none is set aside |
| `BaseGraph.RestoreUndoesCuts` | include/cpp_common/base_graph.hpp:614-704 | on a graph without parallel edges or self-loops, restoring undoes any run of the three cuts |
| `BaseGraph.RestoreUndoesOutgoingCuts` | include/cpp_common/base_graph.hpp:639-704 | on any multigraph, restoring undoes any run of `disconnect_out_going_edge` |
| `BaseGraph.CutEdgeKeepsBag` | include/cpp_common/base_graph.hpp:614-629 | one `disconnect_edge` can be undone exactly if there is at most one edge between the two vertices |
| `BaseGraph.CutVertexKeepsBag` | include/cpp_common/base_graph.hpp:678-694 | one `disconnect_vertex` can be undone exactly if the vertex has no self-loop, which would be saved twice |
| `DijkstraVia.Via` | include/dijkstra/dijkstraVia.hpp:47-122 | the graph holds its edges again on every exit; strict mode reports nothing exactly if some leg cannot be made; every leg is a shortest one with the U-turn kept off, where that applies |
| `DijkstraVia.SearchLeg` | include/dijkstra/dijkstraVia.hpp:70-107 | one leg: shortest without the U-turn if there is such a path, else shortest, else empty; the graph is whole again |
| `DijkstraVia.LegRows` | include/dijkstra/dijkstraVia.hpp:95-110 | a leg is empty exactly if its ends are equal or the second is out of reach |
| `DijkstraVia.NoUTurn` | include/dijkstra/dijkstraVia.hpp:78-107 | a leg does not leave by the edge that the leg before arrived on, if the end can be reached without it |
| `DijkstraVia.DeadEndTestIsIdle` | include/dijkstra/dijkstraVia.hpp:85-107 | the test of the out-degree changes no leg: with one way out the second attempt finds what the first would have |
| `DijkstraVia.SameBagSameDegree` | include/dijkstra/dijkstraVia.hpp:85-86 | the out-degree that decides about the cut does not depend on the order in which edges were restored |
| `EdwardMoore.OneToMany` | include/bellman_ford/edwardMoore.hpp:77-124 | terminates; one path for each target other than the start that can be reached, in reverse order of the targets, and no other; each is a loopless shortest one |
| `EdwardMoore.AnswersForSet` | include/bellman_ford/edwardMoore.hpp:109-119 | for targets in ascending order, as a set gives them, no two paths have the same end, they come out in descending order of their ends, and there are as many as targets in reach |
| `EdwardMoore.UpdateVertexCosts` | include/bellman_ford/edwardMoore.hpp:154-188 | relaxes the out-edges of the head so that everything outside the queue stays relaxed; labels and queue stay or the measure drops |
| `EdwardMoore.RelaxKeepsSearching` | include/bellman_ford/edwardMoore.hpp:174-185 | one relaxation keeps the search invariant and lowers the pair (infinite labels, sum of finite ones) |
| `EdwardMoore.PopKeepsSearching` | include/bellman_ford/edwardMoore.hpp:100-106 | popping the head leaves only the head unrelaxed outside the queue |
| `EdwardMoore.EmptyQueueMeansExact` | include/bellman_ford/edwardMoore.hpp:100-106 | with the queue empty every label is exact and `from_edge` is set exactly for the other reachable vertices |
| `Labels.RelaxKeepsTree` | include/bellman_ford/edwardMoore.hpp:177-180 | the `from_edge` edges stay a forest rooted at the start, and every finite label stays the cost of a walk |
| `Labels.ParentIsBefore` | include/bellman_ford/edwardMoore.hpp:141-149 | following a `from_edge` goes strictly down in a well-founded order, so the unwinding cannot cycle |
| `Labels.RelaxedLabelsAreExact` | include/bellman_ford/edwardMoore.hpp:100-106 | if no edge can improve a label, every label is the distance, and infinite exactly out of reach |
| `Labels.LoweringIsSmaller` | include/bellman_ford/edwardMoore.hpp:177-178 | lowering a label lowers the termination measure |
| `Labels.GetPath` | include/bellman_ford/edwardMoore.hpp:126-152 | the unwound rows are a loopless path along the edges in `from_edge`, whose `agg_cost` column holds the labels and the prefix sums, for the label of the target |
| `BinaryBreadthFirst.OneToMany` | include/breadthFirstSearch/binaryBreadthFirstSearch.hpp:112-150 | one path for each target other than the start that can be reached, in reverse order of the targets, and no other; shortest loopless paths whatever the edges cost, along the edges that the passes of the search, given as a function, leave in `from_edge`; with costs 0 and `w` at most two passes for each vertex |
| `BinaryBreadthFirst.Search` | include/breadthFirstSearch/binaryBreadthFirstSearch.hpp:127-136 | the loop ends, and leaves in the two arrays what its passes, given as a function, lead to from the labels at the start |
| `BinaryBreadthFirst.LinearTime` | include/breadthFirstSearch/binaryBreadthFirstSearch.hpp:127-136 | with costs 0 and `w`, after any number of passes: keys were popped in order, no vertex entered the deque more than twice; and two passes for each vertex empty it |
| `BinaryBreadthFirst.RoundKeeps` | include/breadthFirstSearch/binaryBreadthFirstSearch.hpp:127-136 | a pass keeps the invariant of the search and the two-level order of the deque; unless a label drops it only takes the front off |
| `BinaryBreadthFirst.Emptied` | include/breadthFirstSearch/binaryBreadthFirstSearch.hpp:127-136 | with the deque empty every label is the distance, whatever the edges cost |
| `BinaryBreadthFirst.UpdateVertexCosts` | include/breadthFirstSearch/binaryBreadthFirstSearch.hpp:181-212 | labels, `from_edge` and deque become what relaxing the out-edges of the head one after the other makes of them |
| `BinaryBreadthFirst.LoweredNarrow` | include/breadthFirstSearch/binaryBreadthFirstSearch.hpp:199-209 | pushing keeps the keys in order on two levels `w` apart; a second push of a vertex is a drop from the upper to the lower level |
| `BinaryBreadthFirst.PoppedNarrow` | include/breadthFirstSearch/binaryBreadthFirstSearch.hpp:127-136 | popped keys never decrease |
| `BinaryBreadthFirst.StaleIsRelaxed` | include/breadthFirstSearch/binaryBreadthFirstSearch.hpp:127-136 | an entry whose label has dropped since belongs to a vertex that is relaxed already |
| `BinaryBreadthFirst.NarrowIsLinear` | include/breadthFirstSearch/binaryBreadthFirstSearch.hpp:127-136 | at most two pushes for every vertex |
| `BinaryBreadthFirst.CostCheck` | src/breadthFirstSearch/binaryBreadthFirstSearch_driver.cpp:83-110 | accepts exactly if all costs are 0 or one and the same positive number |
| `Bidirectional.Search.Run` | include/cpp_common/bidirectional.hpp:121-165 | `best_cost` is the cost of a real walk and serves every walk up to less than one of its edges; it is the distance if a queue ran dry; it is finite if the target is in reach and something lies at a positive distance; the final state is that of the loop played as a function |
| `Bidirectional.Search.Found` | include/cpp_common/bidirectional.hpp:195-209 | updates the best way through the node, ties included; stops exactly at a node whose way is dearer |
| `Bidirectional.Search.ExploreForward` | include/bdDijkstra/bdDijkstra.hpp:96-117 | labels, predecessors, edges and queue after exploring, and Dijkstra's invariant |
| `Bidirectional.Search.ExploreBackward` | include/bdDijkstra/bdDijkstra.hpp:119-140 | the same, against the edges |
| `Bidirectional.Search.Initialize` | include/cpp_common/bidirectional.hpp:102-130 | both searches start with their own end alone in the queue |
| `TwoQueues.Explore` | include/bdDijkstra/bdDijkstra.hpp:96-117 | the exploring loop keeps the invariant of the search, finishes the node and changes no finished label |
| `TwoQueues.LoweredDijkstra` | include/bdDijkstra/bdDijkstra.hpp:109-114 | lowering a neighbour keeps the invariant, and the neighbour cannot be finished |
| `TwoQueues.Popped` | include/cpp_common/bidirectional.hpp:131-163 | a popped entry is stale if its vertex is finished, and carries its label otherwise |
| `TwoQueues.Frontier` | include/cpp_common/bidirectional.hpp:131-163 | along any walk a first part is finished at no more than its cost, and the next vertex waits at no more than its own |
| `Bidirectional.FinishedIsDistance` | include/bdDijkstra/bdDijkstra.hpp:96-140 | every finished vertex carries its exact distance |
| `Bidirectional.StoppedIsServed` | include/cpp_common/bidirectional.hpp:199-206 | stopping early, the best cost is at most that of any walk, or less than one of its edges more |
| `Bidirectional.DrainedIsExact` | include/cpp_common/bidirectional.hpp:131-131 | with an empty queue no walk is cheaper than the best cost |
| `Bidirectional.AnswerAgainstDistance` | include/cpp_common/bidirectional.hpp:121-165 | never below the distance D, never above 2D, and exact or less than D plus one edge of a shortest walk |
| `Bidirectional.ZeroOrIsExact` | include/cpp_common/bidirectional.hpp:121-165 | with no costs but 0 and one positive number, the costs that `costCheck` accepts, a finite answer is exact |
| `Bidirectional.PositiveCosts` | include/cpp_common/bidirectional.hpp:165-165 | with positive costs and two different ends, the answer is finite exactly if the target is in reach |
| `Bidirectional.FreeOfCharge` | include/cpp_common/bidirectional.hpp:147-163 | with all costs 0 no way is found at all: the forward queue runs dry before the backward search begins |
| `Detour.MissesTheDirectRoad` | include/cpp_common/bidirectional.hpp:195-209 | five edges on which the loop ends with 24 although an edge of cost 20 joins the two ends |
| `EdgeOrder.OrderDecides` | include/cpp_common/bidirectional.hpp:131-165 | two graphs that differ in the order of two parallel edges: on one the loop ends with 0, on the other it finds no way |
| `BdDijkstra.PgrBdDijkstra` | include/cpp_common/bidirectional.hpp:165-191 | the path returned is what the second look-up makes of a chain of edges from source to target that costs `best_cost`; its total is `best_cost` if echoes cost nothing, and it is that chain with prefix sums if ids are their own |
| `BdDijkstra.CompletePath` | include/cpp_common/path.hpp:291-344 | the unwound rows are a chain of edges between the start and the vertex, in or against the direction of travel, for the cost of its label, which is added to whatever the uninitialised total held |
| `BdDijkstra.GetEdgeId` | include/cpp_common/base_graph.hpp:519-535 | the first out-edge to the vertex at that cost; if there is none, the first of the cheapest with its cost; if there is none either, no edge and no cost |
| `BdDijkstra.Reverse` | src/common/path.cpp:72-91 | the rows the other way round, each edge on the row that now takes it, with prefix sums |
| `BdDijkstra.TurnedChain` | src/common/path.cpp:72-91 | an unwound chain, reversed, is a chain in the direction of travel for the same cost |
| `BdDijkstra.Append` | src/common/path.cpp:205-228 | the first path without its closing row, then the second with its `agg_cost` shifted; its costs are added to the total; empty parts stand aside |
| `BdDijkstra.Rebuild` | include/cpp_common/path.hpp:187-229 | every row becomes one row for each out-edge with its edge id, with recomputed sums; only the total with `onlyCost` |
| `BdDijkstra.RebuiltCost` | include/cpp_common/path.hpp:199-217 | looking the edges up again leaves every chain at its cost exactly if edges with id -1 and out-edges of one vertex that share an id cost nothing |
| `BdDijkstra.TwoWayEdgeCountsTwice` | include/cpp_common/path.hpp:208-214 | an undirected edge stored once for each direction: a path of cost 2 comes out at 5 |
| `BdDijkstra.RebuiltIsSame` | include/cpp_common/path.hpp:199-217 | it gives every chain back exactly if out-edges of one vertex have different ids and an edge with id -1 is a loop without cost at a vertex that nothing leaves |
| `PostmanTours.PostmanGraph.SetPathEdges` | include/chinese/chinesePostman.hpp:213-256 | given a min-cost max-flow: there is a route exactly if there is a closed walk over every edge from the start; the route follows one, `m_cost` is its cost, and no such walk costs less; the route's own total is `m_cost` exactly if no edge has a cheaper parallel |
| `PostmanTours.PostmanGraph.constructor` | include/chinese/chinesePostman.hpp:108-211 | keeps the edges of positive cost, indexes the cheapest for each pair of ends, and lays out a network whose pipes are as wide as surplus and lack; the original edges are those that the rows offer, each direction at its own positive cost |
| `PostmanTours.NoTourIsCheaper` | include/chinese/chinesePostman.hpp:204-205 | if a tour exists the flow fills every pipe, and edges plus flow cost no more than any tour |
| `PostmanTours.TourFills` | include/chinese/chinesePostman.hpp:170-197 | what a tour takes more than once, with full pipes, is a feasible flow that is worth the total degree |
| `PostmanTours.CircuitIsTour` | include/chinese/chinesePostman.hpp:220-232 | the circuit over edges and copies is a tour of the original edges for what edges and flow cost |
| `PostmanTours.CopiesReachNoFarther` | include/chinese/chinesePostman.hpp:247-250 | the reachability test over edges and copies is one over the original edges |
| `PostmanTours.CostWithoutTour` | include/chinese/chinesePostman.hpp:199-205 | two circuits apart: a cost is reported although no tour exists |
| `PostmanTours.TotalFallsShort` | include/chinese/chinesePostman.hpp:259-295 | two parallel edges of different cost and one back: there is a route, and its total is below the cost reported |
| `PostmanTours.WhereServed` | include/chinese/chinesePostman.hpp:300-301 | the traversal begins at the start if that lies on an edge, else at the source of the first edge, and from such a start nothing is in reach |
| `FlowNetwork.FullFlowSaturates` | include/chinese/chinesePostman.hpp:205-205 | no feasible flow is worth more than `totalDeg`, and it is worth as much exactly if it fills every pipe in and out |
| `FlowNetwork.BuildPipes` | include/chinese/chinesePostman.hpp:170-197 | one pipe for every unbalanced vertex, as wide as its surplus or lack, and the sum of the surpluses |
| `FlowNetwork.ValueIsDrain` | include/chinese/chinesePostman.hpp:204-205 | what leaves the super source arrives at the super target |
| `FlowNetwork.SurplusIsLack` | include/chinese/chinesePostman.hpp:180-181 | the surpluses of all vertices add up to their lacks |
| `ChinesePostman.OriginalEdges` | include/chinese/chinesePostman.hpp:119-141 | an edge is kept exactly if some row has it with its positive cost from source to target, or with its positive reverse cost from target to source; the edges cost the sum of all positive costs of the rows; the vertices are their ends |
| `ChinesePostman.KeptAreOffered` | include/chinese/chinesePostman.hpp:127-144 | the edges kept, as a list, are those that some row offers in one direction or the other |
| `ChinesePostman.KeptCost` | include/chinese/chinesePostman.hpp:127-144 | they cost the sum of all positive costs of the rows, parallel rows each counted |
| `ChinesePostman.TurnedKeepsBag` | include/chinese/chinesePostman.hpp:127-144 | turning one row round, ends and costs exchanged, keeps the same bag of edges |
| `ChinesePostman.DegreesAndCheapest` | include/chinese/chinesePostman.hpp:144-158 | edges out minus edges in for exactly the ends of edges, and one cheapest edge for every pair of ends |
| `ChinesePostman.AddFlow` | include/chinese/chinesePostman.hpp:223-232 | the original edges and one copy of the cheapest edge for every unit of flow |
| `ChinesePostman.FlowBalances` | include/chinese/chinesePostman.hpp:223-232 | with a saturating flow added every vertex is left as often as it is entered |
| `ChinesePostman.RouteCost` | include/chinese/chinesePostman.hpp:259-295 | the total of the route is what edges and flow cost exactly if no edge has a cheaper parallel, and less otherwise |
| `ChinesePostman.BuildResultPath` | include/chinese/chinesePostman.hpp:259-295 | one row for each step of the popped stack with the cheapest edge for it, a closing row, and prefix sums |
| `ChinesePostman.Traverse` | include/chinese/chinesePostman.hpp:236-245 | on balanced edges the stack spells a circuit from the vertex whose list is served, with the start in front, and exactly the vertices in reach and the start are visited |
| `Hierholzer.Traversal.EulerCircuitDFS` | include/chinese/chinesePostman.hpp:300-311 | the vertices pushed, popped again, follow a trail of edges not visited before, each once, to the vertex where the balance is owed; all their out-edges are visited |
| `Hierholzer.FinishedIsCircuit` | include/chinese/chinesePostman.hpp:245-250 | a closed trail over exactly the edges in reach of the vertex whose list is served, each once, and the visited vertices are those in reach and the start |
| `Hierholzer.BuildResultGraph` | include/chinese/chinesePostman.hpp:313-328 | the adjacency lists hold exactly the numbers of the edges that leave each vertex |
| `Hierholzer.UnknownStartSpellsNoWalk` | include/chinese/chinesePostman.hpp:300-311 | from a start that no edge leaves the stack begins with that start all the same, so it spells no walk |
| `LinearContraction.Contractor.DoContraction` | include/contraction/linearContraction.hpp:82-92 | contracts vertices that are linear and not forbidden when their turn comes, one after the other, and nothing else; no distance between vertices that are left changes, no id is lost, and on undirected graphs none is held twice; nothing contractible is left; in terms of neighbours: no vertex left that may be contracted has as many ways in as out and two neighbours |
| `LinearContraction.Contractor.OneCycle` | include/contraction/linearContraction.hpp:94-152 | terminates though it recurses into both neighbours; takes the vertex out for good and leaves the worklist exact but for vertices still to be settled further up |
| `LinearContraction.Contractor.CalculateVertices` | include/contraction/linearContraction.hpp:70-78 | the worklist holds exactly the contractible vertices |
| `LinearContraction.Contractor.IsContractible` | include/contraction/linearContraction.hpp:66-68 | decides: two neighbours with a shortcut possible, and not forbidden |
| `LinearContraction.Contractor.MakeShortcuts` | include/contraction/linearContraction.hpp:113-136 | the shortcuts made, directed in either pattern and undirected, each at the cheapest price over the vertex |
| `LinearContraction.ContractDistances` | include/contraction/linearContraction.hpp:113-140 | with those shortcuts made, taking the vertex out changes no distance between the others |
| `LinearContraction.ContractExact` | include/contraction/linearContraction.hpp:139-141 | only the two neighbours may change their kind |
| `LinearContraction.ContractNames` | include/contraction/linearContraction.hpp:113-140 | no id is lost in the contraction, and on undirected graphs none is held twice |
| `Bypass.BypassKeepsDistances` | include/contraction/linearContraction.hpp:113-140 | taking out a vertex whose ways through are matched by direct arcs changes no distance, with parallel arcs and loops anywhere |
| `Bypass.SameDistancesMeaning` | include/contraction/linearContraction.hpp:82-92 | what unchanged means: same reachability and the same cheapest cost for any two vertices left |
| `DeadEndContraction.Contractor.DoContraction` | include/contraction/deadEndContraction.hpp:64-100 | contracts vertices that are dead ends and not forbidden when their turn comes, one after the other, and nothing else; no distance between vertices that are left changes, ids are kept, and no dead end that may go is left |
| `DeadEndContraction.Contractor.ContractDeadEnd` | include/contraction/deadEndContraction.hpp:67-98 | one contraction leaves the worklist exact and the number of live vertices smaller |
| `DeadEndContraction.Contractor.CalculateVertices` | include/contraction/deadEndContraction.hpp:56-62 | the worklist holds exactly the dead ends that are not forbidden |
| `DeadEndContraction.DeadEndNeedsNoShortcut` | include/contraction/contractionGraph.hpp:302-311 | no way leads over a dead end between two other vertices |
| `DeadEndContraction.ContractNames` | include/contraction/deadEndContraction.hpp:73-87 | on undirected graphs without self-loops the neighbour takes in everything, once |
| `DeadEndContraction.DirectedLost` | include/contraction/deadEndContraction.hpp:73-87 | on directed graphs without self-loops: no id is lost exactly if no edge that leaves the dead end holds one |
| `DeadEndContraction.DirectedTwice` | include/contraction/deadEndContraction.hpp:73-87 | and no id is held twice exactly if the dead end has a single neighbour |
| `Contract.Contract` | include/contraction/contract.hpp:56-79 | any order of contractions keeps distances, forbidden vertices and the partition of the ids; for any `maxCycles` above 0 the graph goes through one state for each kind in `order`, each performed to its end, and is left with nothing for the last kind to contract |
| `Contract.OneCycle` | include/contraction/contract.hpp:83-133 | kind 1 contracts dead ends one after the other until none is left, kind 2 linear vertices |
| `ContractionGraph.Graph.constructor` | include/contraction/contractionGraph.hpp:66-72 | at the start every vertex holds its own id and nothing is lost or held twice |
| `ContractionGraph.Graph.FindAdjacentVertices` | include/contraction/contractionGraph.hpp:77-90 | exactly the vertices joined to the vertex by an edge |
| `ContractionGraph.Graph.IsLinear` | include/contraction/contractionGraph.hpp:255-271 | decides: as many vertices lead to the vertex as are led to from it, they are two together, and the vertex is not one of them |
| `ContractionGraph.LinearIsStretch` | include/contraction/contractionGraph.hpp:217-271 | the three ways in which a shortcut between two neighbours is possible come to that, on directed and undirected graphs |
| `ContractionGraph.Graph.IsDeadEnd` | include/contraction/contractionGraph.hpp:302-311 | decides: a vertex that edges lead to, if no way leads over it from one vertex to a different one; any other, if it has one neighbour |
| `ContractionGraph.DeadEndIsNoWay` | include/contraction/contractionGraph.hpp:302-311 | the test by neighbours and in- and out-edges comes to that, on directed and undirected graphs |
| `ContractionGraph.Graph.GetMinCostEdge` | include/contraction/contractionGraph.hpp:98-140 | the cost of a cheapest edge, and the ids held by all parallel edges together |
| `ContractionGraph.Graph.ProcessShortcut` | include/contraction/contractionGraph.hpp:369-392 | the shortcut costs the two cheapest edges and holds the vertex, its ids and those of both bundles |
| `ContractionGraph.ShortcutsBypass` | include/contraction/contractionGraph.hpp:369-392 | enough shortcuts over a vertex make its removal a bypass |
| `ContractionGraph.AbsorbIntoEdges` | src/common/ch_edge.cpp:65-76 | edges that take in everything held at a vertex let it go without losing an id |
| `ContractionGraph.AbsorbIntoOneEdge` | src/common/ch_edge.cpp:65-76 | if it is one edge, no id is held twice |
| `ContractionGraph.AbsorbIntoVertex` | src/common/ch_vertex.cpp:61-64 | a neighbour that takes in everything held at a vertex lets it go without losing an id |
| `ContractionGraph.AbsorbIntoVertexApart` | src/common/ch_vertex.cpp:61-64 | nor is an id held twice then |
| `ContractionHierarchies.ContractionHierarchies` | include/contraction/contractionHierarchies.hpp:236-303 | whatever the search returns: every shortcut stands for a walk of the original graph, and the graph with shortcuts has the original distances; the run is that of the lazy loop as a function: every vertex that may be contracted is contracted once, by its metric in the graph left by the contractions before, which no key still waiting is below; the shortcuts are those called for there; that metric is stored, and the vertices are numbered 1 to n in its order; if the search is right, every contraction makes the shortcuts needed in the graph it works on, each at the distance there |
| `ContractionHierarchies.FillQueue` | include/contraction/contractionHierarchies.hpp:253-257 | at the start the queue holds exactly the vertices that may be contracted, each under its own id, the smallest first |
| `ContractionHierarchies.HistoryIsRight` | include/contraction/contractionHierarchies.hpp:236-303 | with a right search, the shortcuts of every contraction in the run are right for the graph left by the contractions before |
| `ContractionHierarchies.RankVertices` | include/contraction/contractionHierarchies.hpp:247-298 | the lazy loop terminates, passes through the states of the loop as a function, and ranks every vertex that may be contracted exactly once, without edges left in the copy |
| `ContractionHierarchies.PassesKeep` | include/contraction/contractionHierarchies.hpp:259-298 | after any number of passes: every contraction so far worked on what the earlier ones had left, made the shortcuts that the search called for there, took the metric there as its key, and no key then waiting was below; the queue holds exactly the vertices left |
| `ContractionShortcuts.VertexContraction` | include/contraction/contractionHierarchies.hpp:162-228 | the metric is a function of the edges without ids; a simulation leaves edges and shortcuts unchanged; the real thing adds the shortcuts that the search calls for to the edges and to those collected, then takes the edges of the vertex away; all of them stand for walks; if the search is right, every shortcut needed over the vertex is made and each costs the distance; without loops and parallel edges at the vertex the metric is by how many edges the graph grows |
| `ContractionShortcuts.ComputeShortcuts` | include/contraction/contractionHierarchies.hpp:72-149 | each shortcut stands for a walk; if the search is right: each costs what the first edges over the vertex cost, which is the distance between its ends; where that way is the only shortest one, no edge joins its ends, a shortcut is possible and some way on costs something, one is made; none is made where another walk costs less; and one is made exactly where the tree found leads over the vertex and of parallel edges the first is a cheapest one |
| `ContractionShortcuts.ProcessChShortcut` | include/contraction/contractionGraph.hpp:394-433 | a shortcut is added exactly if one is possible and no edge joins the two vertices yet |
| `ContractionShortcuts.ComputePmax` | include/contraction/contractionGraph.hpp:436-456 | 0 without an edge from `u`; otherwise the least number that is not below the first edge or any way on over the vertex by first edges |
| `ShortcutRules.MetricIsGrowth` | include/contraction/contractionHierarchies.hpp:166-230 | the edges after a contraction are at most as many as before plus the metric, and as many exactly if no edges at the vertex are parallel |
| `ShortcutChoice.WantedExactly` | include/contraction/contractionHierarchies.hpp:120-147 | by a right search tree, a shortcut that may be made is made exactly if the tree leads over the vertex and of parallel edges on that way the first is a cheapest one |
| `ShortcutChoice.NeededIsWanted` | include/contraction/contractionHierarchies.hpp:120-147 | if the way over the vertex by the first edges is the only shortest one, every right search tree calls for the shortcut |
| `ShortcutChoice.ReachIsEnough` | include/contraction/contractionHierarchies.hpp:84-104 | the distance up to which the search goes covers every way on over the vertex, and is 0 exactly if all of them are free |
| `ShortcutChoice.ForIsRight` | include/contraction/contractionHierarchies.hpp:72-149 | the shortcuts from one vertex, each made on what the earlier ones left, are right: those needed, no dearer way replaced, none twice |
| `ShortcutChoice.AllPastIsRight` | include/contraction/contractionHierarchies.hpp:162-198 | so are all shortcuts past a vertex together, measured by the edges before the first of them |
| `ShortcutChoice.DearerFirst` | include/contraction/contractionHierarchies.hpp:120-147 | of two parallel edges the dearer one listed first: no shortcut is made, whatever the search, although the shortest way leads over the vertex |
| `ShortcutRules.ShortcutIsReal` | include/contraction/contractionGraph.hpp:405-428 | a shortcut over a vertex stands for a walk if the edges that it is made of do |
| `ShortcutRules.GroundedDistances` | include/contraction/contractionGraph.hpp:461-472 | added arcs that stand for walks change no distance |
| `ContractionHierarchies.Reinserted` | include/contraction/contractionHierarchies.hpp:279-282 | putting a vertex back under its present metric leaves fewer stale keys in the queue |
| `ContractionHierarchies.SetVerticesMetricAndHierarchy` | include/contraction/contractionGraph.hpp:497-519 | stores for every ranked vertex its key as the metric, and numbers them 1 to n by metric and, where that is equal, by vertex; forbidden vertices keep -1 for both |
| `DrivingDist.GetDepth` | include/dijkstra/drivingDist.hpp:220-276 | labels exactly the vertices that hang below the root within the distance: with details by their hops, without by the number of their ancestors that are vertices or the root; empty or mismatched input gives no labels |
| `DrivingDist.RemoveDetails` | include/dijkstra/drivingDist.hpp:164-208 | in whatever order nodes are compacted, every predecessor becomes the nearest ancestor in the original tree that is a vertex or the root |
| `DrivingDist.ToStay` | include/dijkstra/drivingDist.hpp:193-203 | the walk up finds that ancestor although nodes on the way may have been compacted already |
| `DrivingDist.StepUp` | include/dijkstra/drivingDist.hpp:198-203 | one step up climbs the tree and skips only points |
| `DrivingDist.NearestUnique` | include/dijkstra/drivingDist.hpp:193-207 | there is only one nearest ancestor that stays |
| `DrivingDist.HopsAreStops` | include/dijkstra/drivingDist.hpp:243-273 | in the compacted tree a vertex hangs as many hops below the root as it had ancestors that stay |
| `DrivingDist.HopsBefore` | include/dijkstra/drivingDist.hpp:243-273 | nothing hangs below the root in the compacted tree that did not before |
| `DrivingDist.HopsBound` | include/dijkstra/drivingDist.hpp:243-243 | fewer hops than vertices, so the bound of the level loop cuts nothing off |
| `DrivingDist.OneLevel` | include/dijkstra/drivingDist.hpp:258-271 | one level labels and collects exactly the vertices whose predecessor is in the level above |
| `EquiCost.EquiCost` | src/common/path.cpp:353-401 | with distinct nodes in each path: from the largest path to the smallest, each loses exactly the rows whose node a path with another start reaches at less cost, an earlier path by what it has left; then one path comes out for each that goes in, by ascending starts, its rows by `agg_cost` and node; so it keeps every row that no path with another start beats, and none that such a path beats with a row of least `agg_cost` over all paths as they were |
| `EquiCost.KeepsCheapest` | src/common/path.cpp:353-401 | with distinct starts that is to keep exactly the rows whose `agg_cost` is least over all paths as they were |
| `EquiCost.SameStartStays` | src/common/path.cpp:372-372 | two paths with one start: the dearer row stays |
| `EquiCost.EraseBeaten` | src/common/path.cpp:370-389 | one round of the outer loop erases exactly the rows that some path with another start, as it then is, beats |
| `EquiCost.UnbeatenIsBearable` | src/common/path.cpp:370-389 | comparing with what is left of the paths trimmed before finds every row that a cheapest row beats, and no row that no original row beats |
| `EquiCost.LowerBound` | src/common/path.cpp:375-378 | the first row whose node is not below the one looked for |
| `EquiCost.SortSorts` | src/common/path.cpp:354-368 | sorting orders, keeps the elements, and keeps different elements apart |

## Left out

- Floating point: costs are natural numbers, so the epsilon test of the path order is equality, infinity is a separate
  label, and the truncation of `p_max` to an integer is the identity.
- Vertex ids against descriptors: the two are identified, except in contraction and depth labels, where ids matter.
- Integer widths: ids and counts are unbounded, and edges of the flow network have no capacity limit, where the program
  writes the largest 32-bit integer.
- Min-cost max-flow (Boost): a parameter of `PostmanTours.PostmanGraph.SetPathEdges`, required to be a largest feasible flow
  and a cheapest of these.
- PostmanTours.PostmanGraph.constructor: requires an edge of positive cost, because the program asks for the last of all
  vertices. PostmanTours.PostmanGraph.SetPathEdges leaves out a start on no edge from which the traversal gets everywhere
  else: the program would look up an edge that is not there (`Hierholzer.UnknownStartSpellsNoWalk`).
- Dijkstra (Boost) in Yen and in the via routing: replaced by the Edward-Moore model, which gives exact loopless shortest
  paths. Which of several equally short paths is found is not modelled.
- Yen.Ksp.Yen: bounds costs by the prices listed first, because the program forgets other parallel edges when it restores
  the graph (`LooplessPaths.ParallelEdgeForgotten`). Where a dearer edge is listed first, the same nodes may come out twice
  at different costs, and a path left out may cost less than its listed price.
- Yen's visitor, which does nothing, and the loop over combinations of sources and destinations, which calls it once each;
  likewise the outer loops and final sorts of the other searches.
- Bidirectional.Search.Run: says nothing about finiteness for a start from which some walk costs something but every vertex
  lies at distance 0; there the outcome depends on the order of the edges (`EdgeOrder.OrderDecides`).
- `bdAstar`, whose backward labels are not distances, and all other searches that only wrap Boost.
- DrivingDist.GetDepth: takes the predecessors and distances that the search leaves behind as a forest along which distances
  do not grow towards the root, and ids as distinct.
- The paths with equal cost that the driving distance assembles after the depth labels, and their edges.
- EquiCost.EquiCost: requires distinct nodes in each path. In which order paths of one size are compared depends on what
  `std::sort` makes of equivalent elements; it is modelled as an insertion sort, with no use made of that order.
- DeadEndContraction.Contractor.DoContraction: on directed graphs follows ids through a whole run only as long as no edge
  holds any; afterwards `DeadEndContraction.DirectedLost` and `DeadEndContraction.DirectedTwice` decide at every single
  contraction. Distances are kept all the same.
- ShortcutChoice.ForIsRight: where the way over the vertex is as short as another one, the tree that the search returns
  decides whether there is a shortcut; which of the two Boost returns is not modelled.
- ContractionHierarchies.ContractionHierarchies: leaves out the ids of the shortcuts, and states what a shortcut takes in
  only where one is made (`ContractionShortcuts.ProcessChShortcut`). The program reads the top of the queue even when it is
  empty; the model takes an empty queue to have no key that is less. Shortcuts change no distance of the graph; that the
  core left after all contractions has the original distances is not claimed, and the program does not achieve it: it skips
  shortcuts where an edge exists already.
- The contraction graph with `setS` edges, where a shortcut overwrites an existing edge.
- Building graphs from edge rows (`graph_add_edge` and its variants), other than the reading of rows for the postman.
- Turn restrictions, vehicle routing, points on edges, spanning trees, components, colorings, orderings, line graphs, and all
  PostgreSQL input and output.
