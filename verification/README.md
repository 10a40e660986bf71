# Coverage routing and driven-street bookkeeping: a verified model

The repository plans routes that drive every street of an area which has not been driven yet, keeps
the record of which streets have been driven, and serves simplified maps of them. This project models
the algorithms at its centre and proves what they are for. Nothing here was executed; every claim is
a Dafny contract or lemma.

`dafny verify dfyconfig.toml` checks the whole project.

## What is modelled

* **The street network** (`Network`): a directed multigraph with its two notions of edge length, walks
  and true shortest distances.
* **Bounded multi-target search** (`Dijkstra`): lazy heap deletion, a candidate list bounded by number,
  by an absolute cutoff and by a factor of the nearest target, and a score that picks among the
  candidates. It is proved against the definition of shortest distance, with no mention of heaps.
* **Requirements** (`StreetIds`, `Requirements`): naming a street by an edge and its best reverse,
  collecting matched segments, and the indices over requirements.
* **The greedy solver** (`Greedy`): the state machine with its redundant indices. Each index equals its
  recomputation from the open requirements in every state; with coordinates everywhere and no shared
  edges every requirement is served within two iterations each, and with shared edges as long as the solver
  cannot be led in circles. The route it returns is that of a run of greedy steps, each stated from the problem
  and the open requirements alone: which adjacent requirement, which target by which score, which jump. On a network where every node reaches every start there are no jumps.
* **Zones** (`Zones`, `ZoneRoute`): splitting a large area, ordering the zones, solving them one by one
  and stitching the routes, with the fallback to a single solve. Which requirements share a zone is stated from
  the sorted midpoints, the components and the merge threshold.
* **Gap indices** (`GapIndices`): recomputing from the edges alone where the drawn route jumps.
* **Local search** (`DistanceCache`, `RouteCost`, `LocalSearch`): the memoised distance oracle, the
  exactness of both incremental deltas, and the improvement loop.
* **Driven-state updates** (`DriveProtocol`): workers that find and update, insert or lose the insert,
  retry, and later write the owner, interleaved in every possible way with each other and with manual marks.
* **Backfill** (`Backfill`): the batched minimum/maximum fold, against updating trip by trip, and the
  high-water mark.
* **Parallel-road filter** (`Dominance`), **line simplification** (`Simplify`), **encoded polylines**
  (`Polyline`). `Sorting`, `Guard` and `Optional` hold what these share.

## How the model reads the code

* Lengths, costs, scores and coordinates are exact reals; integers are unbounded.
* The order in which Python lists a set, and in which a graph lists outgoing edges, is left open: a loop
  over a set picks any element next. The same holds for the dictionaries of the zone splitter; the
  requirements of a problem keep an explicit insertion order.
* Weakly connected components, straight-line and great-circle distances, the cosine of the latitude, the
  local projection, edge geometry, trip matching and the deadline clock are parameters or arbitrary
  values. Nothing is assumed of them beyond what each module states (distances are not negative;
  components partition the nodes and no edge leaves its component).
* A Python exception that a caller handles becomes `None`: a polyline group that is cut off, a zone
  decomposition with too few midpoints, a distance that does not exist.
* Squared distances stand for distances in the simplification; the comparison with the tolerance is the
  same, since both sides are not negative.
* The polyline decoder's `|=` of shifted five-bit chunks is an addition: the bits never overlap, which
  the loop invariant of `ReadGroup` states.
* Some predicates are guarded by the mark `Guard.Recall`, which is always true, so that a proof sees their
  contents only where it names the mark.

Where the code does not do what one might expect, with what holds instead:

* A requirement is named by the set of its option edges, but two names can share an edge
  (`StreetIds.ParallelsShare`). Names never share an edge exactly when picking the best reverse, and then
  the best reverse of that, always leads back (`StreetIds.DisjointIffMutual`); this is so on networks
  without parallel edges (`StreetIds.NoParallelsMutual`). The best reverse is the first of the shortest in
  the order in which the graph lists its edges, so the condition depends on that order where lengths tie.
* A shared edge serves only the requirement that owns it, the first that lists it. A requirement that owns
  none of its options is never served (`Greedy.UnownedNeverServed`), so full coverage needs every requirement
  to own one (`Greedy.CoverageNeedsOwners`). `StreetIds.TangledNeverCovered` gives matched streets for which
  this fails. In the other direction coverage is proved when nodes can be given heights so that an option
  owned by another requirement always leads down to where the same requirement has another option, with a top
  height `t` for which `(t + 2) * n` is within the iterations allowed (`Greedy.SolveGreedyRoute`); no shared
  edges is the case `t = 0`, and two lanes out with one back is a case with a shared edge
  (`StreetIds.TwoLanesUntangled`). What happens in between, where every requirement owns an option but
  options of others form a circle, depends on the ranking along the way and is left open.
* The batch passes over a trip that has no time at all, while the live update drives it at the time of the clock
  (`Backfill.UndatedTripDiffers`). The two agree exactly when each such time adds nothing to what is stored and
  to the times that the batch enters (`Backfill.BatchIffAbsorbed`), for every content of the store exactly when
  it lies between times that the batch enters (`Backfill.AlwaysIffEnclosed`), and so when every trip has a time
  (`Backfill.BatchIsSequential`).
* The zone splitter fails exactly for a zone size of 0, or when there are midpoints, but fewer than one less than
  the number of zones (`Zones.DecomposeIntoZones`); the caller then solves the area in one piece.
* The last zone of a connected area takes the rest of the division and can exceed the zone size (`Zones.RunsFit`,
  `Zones.LastRunExceeds`).
* A trip that ends before the high-water mark and is added later can be missed by an incremental backfill
  (`Backfill.BehindTheMarkIsMissed`). It misses nothing exactly when, for each segment, all trip times lie
  between times that were or will be read (`Backfill.IncrementalIffHarmless`); so it does when no trip is
  added behind the mark (`Backfill.IncrementalIsRescan`).
* The description of the backfill says that an explicit start time forces a full scan (core/coverage.py:1164).
  The code reads on from that time instead, and so does `Backfill.Area.Backfill`; trips that ended before it stay
  unread (`Backfill.ExplicitStartIsNotFull`).

## Model

| member | source | states |
|---|---|---|
| `Network.WalkIsChain` | routing/graph.py:310-325 | a walk, defined from its end, is a chain: every edge starts where the previous one ended |
| `Network.ShortestIsDistance` | routing/graph.py:620-710 | a length that is attained and that no walk undercuts is the network distance, so the distance is well defined |
| `Network.EdgeLengthNonNegative` | routing/graph.py:361-385 | the best-effort length of an edge, stored or straight-line or 0, is never negative |
| `Dijkstra.HeapPop` | routing/graph.py:661-665 | takes out an entry that no other precedes by (distance, node), and nothing else |
| `Dijkstra.RelaxOut` | routing/graph.py:684-694 | after relaxing the usable edges of the node just settled, labels are lengths of routes through settled nodes, all settled edges are relaxed and the heap holds every open label |
| `Dijkstra.WalkLowerBound` | routing/graph.py:661-694 | any walk from the source costs at least the least open label, or its end is already labelled no higher than the walk |
| `Dijkstra.SettledIsShortest` | routing/graph.py:661-665 | the label of a node at the moment it is popped is its true shortest distance |
| `Dijkstra.Settle` | routing/graph.py:661-665 | popping an open entry: it holds the current label, distances of settled nodes never exceed it, and the invariant holds with the node settled |
| `Dijkstra.TreePathIsWalk` | routing/graph.py:310-325 | following the recorded predecessors gives a walk whose weight is the label |
| `Dijkstra.TreePathIsSimple` | routing/graph.py:310-325 | and it visits no node twice, because settle order strictly falls, zero-length edges included |
| `Dijkstra.ReconstructPathEdges` | routing/graph.py:310-325 | the backward loop ends and returns a simple walk from source to target of exactly the settled distance |
| `Dijkstra.BestCandidate` | routing/graph.py:709-710 | the first candidate of least score |
| `Dijkstra.Sweep` | routing/graph.py:650-710 | the candidates are distinct targets at true distances, nearest first, within both bounds; a target left out is no nearer than those listed and was left out because of a bound or the limit; the answer is a candidate of least score with its shortest path |
| `Dijkstra.DijkstraToBestTarget` | routing/graph.py:620-710 | none exactly when no target can be reached within the absolute cutoff; otherwise a target with its true shortest distance and a simple path of that weight; no target within the cutoff and the factor of the nearest one scores better unless max_candidates targets, or both five and a quarter of all, are as near; the answer itself is within the factor of the nearest if that is 1 or more; there are never more candidates than min(max_candidates, max(5, a quarter of the targets)), but for one; the source itself at 0 if it is a target |
| `Dijkstra.Crowded` | routing/graph.py:651-682 | a target within the bounds that is not a candidate has as many other targets as near as the list is long |
| `Dijkstra.FewTargetsBest` | routing/graph.py:651 | so with at most five targets no target within the factor of the nearest scores better than the answer |
| `Dijkstra.EmptyMeansOutOfReach` | routing/graph.py:706-707 | a complete candidate list is empty exactly when no target is within reach |
| `Dijkstra.NearestIsCandidate` | routing/graph.py:671-682 | whatever the factor and the limit, the nearest target of all is a candidate |
| `StreetIds.ReverseCandidatesForEdge` | routing/graph.py:713-735 | in listing order, the reverse edges of the same OSM way if there are any, else all reverse edges |
| `StreetIds.MakeReqId` | routing/core.py:19-35 | options are the edge itself and, exactly if there is a way back, the first shortest plausible reverse; the name is the set of options |
| `StreetIds.MadeIsStreet` | routing/core.py:19-35 | all options join the same two nodes and are edges of the network if the first is |
| `StreetIds.DisjointIffMutual` | routing/core.py:19-35 | names share no edge, or are equal, exactly when picking reverses is mutual, for the order in which the graph lists its edges |
| `StreetIds.NoParallelsMutual` | routing/core.py:30-33 | picking reverses is mutual on a network without parallel edges, in any order |
| `StreetIds.ParallelsShare` | routing/core.py:30-35 | two lanes out and one back give two different names that share the way back |
| `StreetIds.GatherRequirements` | routing/service.py:765-772 | every matched edge is in a requirement, the requirements are listed once each, and the segment counts add up to the number of matched segments |
| `StreetIds.GatheredIsValid` | routing/service.py:765-772 | what was collected is a problem the solver accepts |
| `StreetIds.GatheredIsDisjoint` | routing/service.py:765-772 | and no edge is an option of two of its requirements if picking reverses is mutual |
| `StreetIds.EverySegmentServed` | routing/service.py:765-772 | from matching to route: if the matched streets share no edge and nodes have coordinates, the street of every matched segment is served, in one direction, by exactly one entry of the service sequence |
| `StreetIds.MutualSegmentsServed` | routing/service.py:765-772 | the same for all matched segments on every network where picking reverses is mutual |
| `StreetIds.TangledIsGathered` | routing/service.py:765-772 | on a road with two lanes each way, matching three of the lanes gives three requirements that share edges |
| `StreetIds.TangledNeverCovered` | routing/core.py:306-313 | both options of the third belong to the first two, so no route of the solver serves it and one requirement is skipped |
| `StreetIds.TwoLanesUntangled` | routing/core.py:306-313 | two lanes out and one back share an edge and still meet the condition for full coverage |
| `Requirements.BuildRequirementIndices` | routing/core.py:60-75 | start nodes of each requirement, and per start node the set and the number of requirements that start there |
| `Requirements.BuildEdgeToRequirement` | routing/core.py:306-313 | each edge is owned by the first requirement in order that lists it |
| `Requirements.DisjointOwner` | routing/core.py:306-313 | with no shared edges the owner of an option is the requirement it serves |
| `Requirements.LabelNodes` | routing/core.py:104-120 | each required node gets the position of its weakly connected component, or -1 |
| `Requirements.BestOption` | routing/core.py:126-128 | an option of least length |
| `Requirements.CalculateRequiredDistance` | routing/core.py:78-87 | the sum of the lengths of the shortest options |
| `Requirements.BuildComponentStructure` | routing/core.py:90-133 | requirements and start nodes grouped by component, equal to their recomputation |
| `Requirements.BuildComponentRemainingCounts` | routing/core.py:316-331 | per component the number of requirements and the sum of their segment counts |
| `Requirements.StartComp` | routing/core.py:126-131 | every start of a requirement lies in the component of the requirement |
| `Requirements.CompStarts` | routing/core.py:120-131 | the starts of a component can be read off the requirements or off the nodes |
| `Requirements.SumOverRemove` | routing/core.py:206-236 | taking a requirement out lowers the recomputed segment sum by its count |
| `Greedy.Solver.constructor` | routing/core.py:507-559 | the initial state satisfies the invariant: all indices right, everything open, standing at the given node or the first option |
| `Greedy.Solver.RemoveReqFromTargets` | routing/core.py:198-204 | start counts, global targets and component targets again equal their recomputation without the requirement |
| `Greedy.Solver.MarkCompleted` | routing/core.py:206-221 | retires an open requirement from every index and counts it; one already closed changes nothing |
| `Greedy.Solver.MarkSkipped` | routing/core.py:223-236 | the same, moving it to the skipped ones, with open, skipped and served still a partition |
| `Greedy.Solver.SkipAll` | routing/core.py:301-303 | moves exactly the given open requirements to the skipped ones |
| `Greedy.Solver.AppendEdgeGeometry` | routing/core.py:176-192 | appends the edge and joins its points to the drawing, whether or not the geometry was cached |
| `Greedy.Solver.TraverseEdge` | routing/core.py:238-249 | serves the owner of the edge exactly if it is open, otherwise deadheads; total = service + deadhead = sum of edge lengths is kept |
| `Greedy.Solver.TraversePath` | routing/core.py:251-254 | drives the whole path, stands at its end, and if nothing is open any more the last edge driven is a service |
| `Greedy.Solver.ServesAtTheEnd` | routing/core.py:251-254 | on a simple path to a start of a requirement only the last edge can serve it |
| `Greedy.Solver.FindBestStart` | routing/core.py:264-289 | none exactly if no target has an exit and coordinates; otherwise one of least discounted squared distance |
| `Greedy.Solver.TeleportToBestStart` | routing/core.py:256-299 | jumps to an eligible target of least score and counts one teleport, or changes nothing, exactly if there is none |
| `Greedy.Solver.TeleportFrom` | routing/core.py:256-299 | jumps only out of reach, to the target of least squared length, longitudes scaled, over the open segments of its component as the problem has them |
| `Greedy.FindRoad` | routing/core.py:358-372 | none exactly when no target can be reached; otherwise a simple shortest path of network edges to a target within three times the nearest distance that scores best among those not crowded out |
| `Greedy.Solver.Approach` | routing/core.py:358-375 | drives the road to the target that the given score prefers, or jumps to the least-cost one only if none can be reached; afterwards something was served or an open requirement starts here |
| `Greedy.Solver.ApproachAny` | routing/core.py:353-375 | the score is distance over the open segments of the component of the target, at least 1, recomputed from the open requirements |
| `Greedy.Solver.ApproachWithin` | routing/core.py:442-475 | the score is distance over the number of open requirements that start at the target, at least 1, recomputed likewise; targets are the starts of the open requirements of the component |
| `Greedy.Solver.PickGlobalTargetComponent` | routing/core.py:334-375 | keeps an active component that has open requirements; otherwise takes the road to the start that scores best by distance over open segments, or the least jump if none can be reached; gives everything up only if no jump is possible |
| `Greedy.Solver.BestServiceEdgeFromStart` | routing/core.py:194-196 | a shortest option that starts here |
| `Greedy.Solver.TryServiceAdjacentRequirement` | routing/core.py:378-430 | drives exactly if an open requirement of the component starts here, over the first shortest option of one that ranks first; if nothing is served, the option belongs to another requirement |
| `Greedy.Solver.ChooseAdjacent` | routing/core.py:426-427 | no candidate is preferred to the chosen one by segments, then look-ahead, then length, then starts at the far end |
| `Greedy.Solver.LookAhead` | routing/core.py:407-420 | the two-hop search counts the open starts at the node and at the nodes one edge further, each node once |
| `Greedy.Solver.MoveWithinComponentOrSkip` | routing/core.py:433-475 | takes the road to the start in the component that scores best by distance over open starts, or the least jump if none can be reached; gives up exactly what is open in the component, and only if no jump is possible |
| `Greedy.Solver.Iterate` | routing/core.py:484-503 | one greedy step: serves the first-ranked adjacent requirement of the active component; else drives to the best-scored start, of the component while it has any; else makes the least jump; else gives up exactly that; with coordinates everywhere it skips nothing, and an iteration that serves nothing comes to where an open requirement of the active component starts or drives an option of another requirement |
| `Greedy.Solver.DetourLeadsDown` | routing/core.py:427-430 | where heights exist, driving an option of another requirement leads down, to where the same requirement still starts |
| `Greedy.Solver.RunGreedyIterations` | routing/core.py:478-504 | a run of greedy steps until nothing is open or the limit is reached; keeps the whole invariant; with coordinates everywhere and heights up to t nothing stays open or is skipped within (t + 2) n iterations, 2n without shared edges; no jump if every node reaches every start |
| `Greedy.Solver.Finish` | routing/core.py:631-651 | skips what is left and reports a sound solution |
| `Greedy.SolveGreedyRoute` | routing/core.py:600-651 | the route is that of a run of greedy steps from the start, one per iteration, ended when nothing is open or after max(1000, 10 n) of them; edges are real; coordinates are their drawing; breaks never exceed teleports; total = service + deadhead = sum of lengths; required distance is the sum of shortest options; services are an ordered subsequence of the route, each over an edge its requirement owns, with no requirement twice; completed + skipped = required; full coverage within 2n iterations with coordinates and no shared edges, and with heights that fit the allowed iterations; a complete run ends on its last service edge; no teleport and no break if every node reaches every start |
| `Greedy.UnownedNeverServed` | routing/core.py:238-249 | in every solution, a requirement that owns none of its options is not served and something is skipped |
| `Greedy.CoverageNeedsOwners` | routing/core.py:306-313 | a solution that serves everything shows that every requirement owns an option |
| `Greedy.CompleteCosts` | routing/core.py:562-597 | in a complete solution required distance, served distance and total distance are in this order |
| `Greedy.BooksBalance` | routing/core.py:206-236 | when nothing is open, completed plus skipped is the number of requirements and no requirement was served twice |
| `Greedy.BreaksExtended` | routing/core.py:238-249 | appending an edge adds a break exactly when it does not start where the route ended |
| `Greedy.TargetsNodewise` | routing/core.py:198-204 | membership in the target sets by positive count is the same as recomputing them from the open requirements |
| `Greedy.DropStarts` | routing/core.py:198-204 | counting starts down and dropping those that reach zero keeps target sets and counts in step |
| `Zones.CollectMidpoints` | routing/zones.py:63-71 | exactly the requirements with coordinates at both ends, each with the point half-way between the ends of its street, whichever option is shortest |
| `Zones.ChunkLabels` | routing/zones.py:78-92 | fails exactly when there are fewer points than all chunks but the last need; otherwise the points sorted by (x, y) are labelled in runs of the chunk size, the last run taking the rest |
| `Zones.LabelsFollowPoints` | routing/zones.py:78-92 | so a point with a smaller label is never larger by (x, y) |
| `Zones.BuildZones` | routing/zones.py:94-102 | one zone per label, holding exactly the requirements of that label with their options and counts |
| `Zones.RequirementComponents` | routing/zones.py:108-127 | the road component of each requirement |
| `Zones.SplitZone` | routing/zones.py:133-157 | the zone keeps a largest component group, every other group is whole in one new zone, nothing else changes and nothing is lost |
| `Zones.SplitZones` | routing/zones.py:129-157 | two requirements share a zone exactly if they share chunk and component; a chunk that lies in one component keeps its number; no zone is empty |
| `Zones.MergeZones` | routing/zones.py:166-194 | two requirements share a zone exactly if they did before or their zones were in one component and both below the threshold; other zones keep their number; no component has two zones below the threshold |
| `Zones.PartedAndMended` | routing/zones.py:129-194 | splitting and merging together: requirements end up together exactly if they are in one component and in one chunk, or in pieces of chunks that are both below the threshold |
| `Zones.PlaceZone` | routing/zones.py:203-212 | the centroid is the mean of the midpoints in the zone |
| `Zones.DecomposeIntoZones` | routing/zones.py:46-237 | fails exactly for a zone size of 0 or too few midpoints; otherwise every requirement is in exactly one zone with its options and segment count; on the split path the requirements sorted by midpoint are cut into max(2, ceil(n / size)) chunks, two of them share a zone exactly if they are in one component and in one chunk or in pieces both below max(10, size / 4), those without midpoint are all in one zone, zones are listed by number, none is empty, and each centroid is the mean of the known midpoints; with all midpoints known each zone is in one component and no component has two small zones |
| `Zones.ZonesNeeded` | routing/zones.py:60 | the number of chunks is the least that fits the size, or two |
| `Zones.EvenZones` | routing/zones.py:78-102 | with one component and chunks not below the merge threshold there are exactly as many zones as chunks, and the k-th holds exactly the k-th run of the requirements sorted by midpoint |
| `Zones.ChunksReachThreshold` | routing/zones.py:167 | from zone size 20 on, chunks are never below the merge threshold |
| `Zones.ConnectedArea` | routing/zones.py:46-237 | so a connected area with all coordinates and size 20 or more has exactly max(2, ceil(n / size)) zones, all equal runs of n / zones requirements but the last, which has the rest |
| `Zones.RunsFit` | routing/zones.py:82-90 | only the last run can exceed the zone size, and by less than the number of zones |
| `Zones.LastRunExceeds` | routing/zones.py:82-90 | 399 requirements and size 20 leave 38 for the last zone |
| `Zones.OrderZones` | routing/zones.py:240-269 | a permutation of the zones in which each is nearest, among those still to come, to the one before it, the first to the given point or else to the centroid of the first listed zone |
| `Zones.PermutedPartition` | routing/zones.py:240-269 | reordering zones keeps the partition |
| `ZoneRoute.DrawnConcat` | routing/zones.py:327-334 | joining the drawings of two routes is drawing the concatenated route |
| `ZoneRoute.BreaksConcat` | routing/zones.py:336-342 | breaks add up when the second route starts where the first ends |
| `ZoneRoute.StitchConnected` | routing/zones.py:327-342 | with two points or more per edge, a complete zone handed the end of the previous route leaves the whole route broken only at teleports and hands on its real end |
| `ZoneRoute.SolveZone` | routing/zones.py:319-325 | the greedy guarantees for one zone, from the node handed over |
| `ZoneRoute.SolveZones` | routing/zones.py:272-362 | one greedy solution per zone that has requirements, and every reported figure is the sum of that figure over them; summed distances and books stay exact; no requirement is served twice if zones share none; for edges drawn with two points or more the coordinates are the drawing of all edges, and nothing skipped means breaks at most teleports and a last edge that serves; full coverage if each zone can be covered; no teleports if every node reaches every start |
| `ZoneRoute.PartitionAddsUp` | routing/zones.py:289-347 | the requirements of a partition's zones add up to those of the problem |
| `ZoneRoute.SolveArea` | routing/service.py:1416-1475 | the same guarantees, in terms of the whole problem, for an area however it was solved, in zones with the given coordinates or in one piece with those of the network; no teleports if every node reaches every start |
| `ZoneRoute.GapsAreTeleports` | routing/service.py:50-86 | on a completely solved area the derived gaps are no more than the teleports, and every jump is among them |
| `GapIndices.DeriveExplicitGapIndices` | routing/service.py:50-86 | ascending, and exactly the start indices of edges that do not continue the previous one |
| `GapIndices.CursorIsLength` | routing/service.py:68-75 | with two points per edge the cursor ends at the number of coordinates drawn |
| `GapIndices.JointAt` | routing/core.py:176-192 | the point before an edge's index is the last point of the previous edge, the point at it the second of the edge itself |
| `GapIndices.GapsAreJumps` | routing/service.py:50-86 | gaps and jumps correspond one to one, and each gap separates the two ends of its jump |
| `GapIndices.GapsBounded` | routing/service.py:77-86 | there are no more gaps than breaks in the route |
| `DistanceCache.SearchDistance` | routing/local_search.py:46-55 | a single-target search returns the true network distance, and none exactly without a path |
| `DistanceCache.Oracle.GetNetworkDistance` | routing/local_search.py:39-56 | the memoised value is the true network distance, whatever was asked before |
| `DistanceCache.Oracle.Get` | routing/local_search.py:58-73 | the memoised search cost is the network distance, else the penalised great-circle distance, else undefined |
| `DistanceCache.TravelNonNegative` | routing/local_search.py:58-73 | search costs are never negative |
| `RouteCost.TotalSplit` | routing/local_search.py:84-104 | the cost of a sequence splits at any point |
| `RouteCost.SwapBefore` | routing/local_search.py:107-202 | full cost is a remainder plus the connections a reversal removes |
| `RouteCost.SwapAfter` | routing/local_search.py:107-202 | full cost after the reversal is the same remainder plus the connections it adds |
| `RouteCost.RelocateCosts` | routing/local_search.py:267-310 | the same for a relocation, both directions and both ends |
| `RouteCost.ReplaceCosts` | routing/local_search.py:216-264 | the same for serving an entry by another edge |
| `RouteCost.RelocatedAt` | routing/local_search.py:313-323 | where each position of a relocated sequence comes from |
| `RouteCost.SwappedKeepsRequirements` | routing/local_search.py:355-375 | a reversal serves the same requirements equally often |
| `RouteCost.RelocatedKeepsRequirements` | routing/local_search.py:313-323 | so does a relocation |
| `RouteCost.ReplacedKeepsRequirements` | routing/local_search.py:216-264 | so does a flip |
| `LocalSearch.Search.ConnectionCost` | routing/local_search.py:205-213 | the oracle's cost, and nothing for an open end |
| `LocalSearch.Search.SequenceTotalCostFast` | routing/local_search.py:84-104 | the loop computes the full cost, or none if a connection is undefined |
| `LocalSearch.Search.SwapDelta` | routing/local_search.py:107-202 | exactly full cost after reversing i..j minus full cost before, missing only if a cost is |
| `LocalSearch.Search.RelocateDelta` | routing/local_search.py:267-310 | exactly full cost after the relocation minus full cost before, for all i and j including -1 and both ends; none for moves that are out of range or move nothing |
| `LocalSearch.Search.ApplyRelocation` | routing/local_search.py:313-323 | the item is moved and cached lengths stay aligned |
| `LocalSearch.Search.ApplySwap` | routing/local_search.py:371-374 | the range is reversed and cached lengths stay aligned |
| `LocalSearch.Search.OrientationPass` | routing/local_search.py:216-264 | requirements and options are kept, each counted flip gains more than 0.000001, and a finished pass without a flip means no option of any entry pays |
| `LocalSearch.Search.RelocationPass` | routing/local_search.py:326-352 | the same for relocations: none pays to any place from -1 on, on routes of more than 100 entries to any place at most 50 away |
| `LocalSearch.Search.BestPlace` | routing/local_search.py:339-348 | a place for the item such that no other in the window costs less by the minimum gain, with exactly what it saves |
| `LocalSearch.Search.TwoOptPass` | routing/local_search.py:355-375 | the same for reversals: none of i..j with i + 2 <= j pays, on routes of more than 100 entries none with j < i + 50 |
| `LocalSearch.Search.BuildStats` | routing/local_search.py:424-479 | service is the sum of the lengths served, deadhead the sum of network distances to the entries that can be reached, total their sum; full search cost is that total plus a penalty that is 0 without jumps; teleports counts the unreachable entries |
| `LocalSearch.Search.Improve` | routing/local_search.py:535-564 | ends even if no deadline ever stops it; the result serves the same requirements and is cheaper by more than the minimum gain per counted improvement; if not interrupted no tried move pays any more |
| `LocalSearch.ImprovedTransitive` | routing/local_search.py:535-564 | improvements add up over passes |
| `LocalSearch.BudgetFalls` | routing/local_search.py:535-564 | a gain above the minimum lowers an integer budget, which bounds the number of rounds |
| `LocalSearch.ImproveRoute` | routing/local_search.py:482-588 | a permutation of the requirements, each still served by one of its options, cheaper by more than the minimum gain per counted improvement, and locally best if not interrupted; unchanged if the cost is undefined; the reported service, deadhead, teleports, completed and skipped are those of the result |
| `DriveProtocol.WorkKeepsDriveInv` | core/coverage.py:260-315 | every step keeps: the record reflects exactly the applied calls, one report if it was not driven, nobody turned away |
| `DriveProtocol.RunKeepsDriveInv` | core/coverage.py:260-315 | so every interleaving does |
| `DriveProtocol.ConcurrentDrives` | core/coverage.py:210-315 | at quiescence of any interleaving: first and last are the extremes of the old values and all calls, every call succeeded, exactly one reports newly driven if the segment was absent or undriven, none otherwise |
| `DriveProtocol.RunKeepsOwnerInv` | core/coverage.py:317-354 | over every interleaving with the later owner writes, a finished call at the last time means the owner is such a call |
| `DriveProtocol.OwnerIsLatest` | core/coverage.py:317-354 | at quiescence the owner belongs to a call whose time is the last time, or is unchanged if no call has it |
| `DriveProtocol.UndriveableStays` | core/coverage.py:210-239 | no run of workers changes an undriveable record |
| `DriveProtocol.DriveSparesUndriveable` | core/coverage.py:998-1090 | nor does any worker step when manual marks are interleaved |
| `DriveProtocol.WorkReports` | core/coverage.py:260-315 | a step reports newly driven exactly when it turns the record driven |
| `DriveProtocol.ReportsBalance` | core/coverage.py:998-1090 | with manual marks interleaved, reports minus marks that took a driven record away is the change of the driven flag |
| `DriveProtocol.TurnsUseSteps` | core/coverage.py:260-354 | every turn of an unfinished worker brings it closer to its end |
| `DriveProtocol.FourTurnsSuffice` | core/coverage.py:260-354 | four turns each finish every worker, whatever the others do |
| `DriveProtocol.AloneIsSequential` | core/coverage.py:242-354 | an undisturbed worker performs the plain update and reports truthfully |
| `DriveProtocol.ChangeIsReal` | core/coverage.py:242-257 | the test for a change holds exactly when status, first or last time of the record differs after the update |
| `DriveProtocol.ReportedChange` | core/coverage.py:242-354 | so an undisturbed worker reports a change exactly if the record differs |
| `Backfill.UpdatedIsRun` | core/coverage.py:907-970 | the sequential update is a run of the protocol with one worker |
| `Backfill.UpdateDrivenStates` | core/coverage.py:260-354 | each listed segment is updated with its own times and owner, others are untouched, and the reported ones are those neither driven nor undriveable before |
| `Backfill.FoldTrip` | core/coverage.py:1318-1330 | one trip lowers first and raises last times of exactly its matched driveable segments, and takes over as owner exactly where it is later and has an id |
| `Backfill.FoldTrips` | core/coverage.py:1264-1330 | the fold holds the least and greatest trip time of every driveable segment some trip drove, if all trips have ids an owner that drove it last, and the mark is the last end time read |
| `Backfill.BackfillTrips` | core/coverage.py:1147-1434 | fold and one update: every record is what drives at all the trip times make of it, the newly driven set is right, and if all trips have ids the owner drove the segment last unless a stored drive was later |
| `Backfill.EndTimesDecide` | core/coverage.py:1451-1460 | if trips have end times, first and last time of a record are the extremes of what was stored and the end times |
| `Backfill.OtherTimesDecide` | core/coverage.py:1451-1460 | without an end time a trip counts at its start time, else at its last update, else not at all |
| `Backfill.OutcomeUnique` | core/coverage.py:210-239 | status and times are determined by the old record and the set of drive times |
| `Backfill.OutcomeCompose` | core/coverage.py:210-239 | driving at some times and then at others is driving at all of them |
| `Backfill.SequentialVisited` | core/coverage.py:907-970 | updating trip by trip, at its time or else at that of the clock, makes of every record what drives at those times make of it |
| `Backfill.BatchIffAbsorbed` | core/coverage.py:1264-1434 | for any store and order, the batch agrees with live updates exactly when the clock times of trips without a time add nothing to the stored record and the times the batch enters |
| `Backfill.AlwaysIffEnclosed` | core/coverage.py:1284-1286 | they agree for every store exactly when, per segment, each visit lies between times the batch enters |
| `Backfill.UndatedTripDiffers` | core/coverage.py:959 | a trip without a time for which they differ |
| `Backfill.BatchIsSequential` | core/coverage.py:1264-1434 | if every trip has a time, the batch gives the same status, times and newly driven set as live updates in any order |
| `Backfill.RerunIsIdle` | core/coverage.py:1264-1434 | a second run on the same trips drives nothing new and changes no status or time |
| `Backfill.SinceSelects` | core/coverage.py:1142-1144 | an incremental run reads exactly the trips that ended at or after the mark |
| `Backfill.IncrementalIffHarmless` | core/coverage.py:1187-1188 | it equals a full rescan whatever is stored exactly when, per segment, every trip time lies between times that the first run or the incremental one reads |
| `Backfill.IncrementalIsRescan` | core/coverage.py:1187-1188 | in particular it does if every trip not yet seen ended at or after the mark |
| `Backfill.BehindTheMarkIsMissed` | core/coverage.py:1142-1144 | two trips with different ids for which the incremental run misses what a rescan finds |
| `Backfill.MarkIsLatest` | core/coverage.py:1272-1275 | read in the order of end times, the mark is the latest end |
| `Backfill.LastEndMarks` | core/coverage.py:1272-1275 | the mark is the end time of the last trip read that has one, and stays if none has |
| `Backfill.Area.Backfill` | core/coverage.py:1147-1434 | one request: nothing in a status that is not allowed; every trip is read if full, or without events, while building, or without start and mark; else those from the start or the mark on; records, owners and reports follow from what was read, and the mark is the end of a trip that was |
| `Backfill.ExplicitStartIsNotFull` | core/coverage.py:1175-1188 | with an explicit start time a trip that ended before it is not read |
| `Backfill.TwoRuns` | core/coverage.py:1147-1188 | a run over some trips and one from the mark leave what all trips make of the records, if what is left out is harmless |
| `Backfill.BackfillTwice` | core/coverage.py:1147-1188 | a first request and a second that reads on from the stored mark leave what all trips together make of the records, if what the second leaves out is harmless |
| `Dominance.FilterDominated` | core/coverage.py:580-596 | accepts the kernel of the dominance relation, near to far: no accepted candidate is dominated by an accepted one and every rejected one is |
| `Dominance.SortByDistance` | core/coverage.py:580 | a permutation in order of distance |
| `Dominance.KernelStep` | core/coverage.py:583-596 | one more candidate, farther than all before, leaves the earlier decisions right |
| `Dominance.KernelUnique` | core/coverage.py:580-596 | there is only one kernel |
| `Dominance.OrderDoesNotMatter` | core/coverage.py:580-596 | what is accepted does not depend on the order of the spatial index |
| `Simplify.FootIsNearest` | api/map_bundle.py:188-206 | the clamped projection is the nearest point of the segment |
| `Simplify.Farthest` | api/map_bundle.py:173-180 | the first interior point of greatest distance |
| `Simplify.DroppedIsClose` | api/map_bundle.py:160-185 | a dropped point is within the limit of the segment between its kept neighbours |
| `Simplify.KeptIsNeeded` | api/map_bundle.py:173-185 | every kept interior point was needed: between some kept neighbours it is a first farthest point and lies farther than the limit |
| `Simplify.KeepShrinks` | api/map_bundle.py:160-185 | a larger limit keeps a subset |
| `Simplify.Simplifier.RdpIndices` | api/map_bundle.py:160-185 | the recursion adds exactly the specified indices to the shared set |
| `Simplify.SimplifyLineMeters` | api/map_bundle.py:123-143 | returns the coordinates at the kept indices in order |
| `Simplify.SimplifiedIsClose` | api/map_bundle.py:123-143 | the ends are kept and every dropped point is within tolerance of the simplified line |
| `Simplify.SimplifiedIsNeeded` | api/map_bundle.py:123-185 | the same for the indices that the simplification of a line keeps |
| `Simplify.StraightKeepsEnds` | api/map_bundle.py:182-185 | only the ends are kept exactly when every other point is within tolerance of the segment between them |
| `Simplify.LevelsNest` | api/map_bundle.py:673-674 | a coarser level keeps a subset of the indices of a finer one |
| `Polyline.ReadGroup` | core/bouncie_normalization.py:25-35 | the chunk loop reads the group at the index, five bits a character, or finds it cut off |
| `Polyline.DecodePolyline5` | core/bouncie_normalization.py:16-53 | decodes exactly the strings of an even number of complete groups; for the encoding of any pairs each point is longitude and latitude over 100000, in this order |
| `Polyline.SignedUndoesZigZag` | core/bouncie_normalization.py:36 | the sign rule undoes the zig-zag |
| `Polyline.GroupReadsNat` | core/bouncie_normalization.py:25-36 | a group reads back the number it was written for, wherever it stands |
| `Polyline.EncodeDelta` | trips/services/trip_map_geometry.py:18-25 | the encoder's loop writes that group |
| `Polyline.EncodePolyline` | trips/services/trip_map_geometry.py:28-47 | the encoder's loop over points writes the published encoding |
| `Polyline.RoundTrip` | core/bouncie_normalization.py:16-53 | decoding the encoding of any list of integer pairs gives the list back |
| `Polyline.PublishedExample` | core/bouncie_normalization.py:16-53 | 38.5, -120.2 is encoded as in the published description of the format |
| `Polyline.EncodingIsInjective` | trips/services/trip_map_geometry.py:28-47 | different lists have different encodings |
| `Polyline.DecodesIffEvenGroups` | core/bouncie_normalization.py:16-53 | a string decodes exactly when it is an even number of complete groups |

## Left out

- Greedy.Solver.TryServiceAdjacentRequirement: which of several requirements of equal rank is taken is left open.
- Greedy.Solver.MoveWithinComponentOrSkip: does not return the flag that the source always sets to true.
- Greedy.SolveGreedyRoute: the statistics leave out the ratios that are derived from the others; full coverage is not decided where options of other requirements form a circle.
- Dijkstra.DijkstraToBestTarget: models the branch for multigraphs, which is what the routing code uses; the branch for simple graphs is left out.
- StreetIds.GatherRequirements: models the branch for matched edges, which are in the network; a stale cached edge key can name an edge that is not.
- Zones.DecomposeIntoZones: claims no size limit for merged zones, which may exceed it; which zone takes the requirements without midpoint is left open, as is the order of the dictionary.
- Zones.MergeZones: zones are values in a table that the loops reassign, not objects changed in place; no other reference to them exists in the source.
- ZoneRoute.SolveZones: covers a zone if no edge is an option of two of its requirements; heights are not carried over to zones.
- ZoneRoute.StitchConnected: without two points per edge, or with skipped requirements, only the weaker bound of one more break per zone is stated.
- Backfill.BatchIsSequential: does not compare owners, which differ between the batch and live updates when times are equal.
- Backfill.Area.Backfill: leaves out the journal of drive events that a full scan clears.
- Backfill.BackfillTrips: reading in batches of 100 and the thread that folds a batch are one loop.
- DriveProtocol.DriveSparesUndriveable: a manual mark may set any undriveable record, remove the record or do nothing, which includes what the marking functions do.
- LocalSearch.Search.BuildStats: leaves out the required distances and ratios.
- GapIndices.GapsAreJumps: makes no claim after local search, because the service then keeps the greedy edges with the new coordinates.
- Polyline.DecodePolyline5: returns scaled reals; the range check of coordinates is done elsewhere.
- Rebuilding coordinates after local search (routing/local_search.py:378-421).
- Overlap and bearing matching of trips to segments, and the spatial index: foreign geometry.
- Area statistics, jobs, progress reports and every database query around the modelled updates.
- Route validation, gap filling with fetched routes, exports and the web interface: threshold checks and presentation.
- Rounding, not-a-number and the width of floating-point numbers.
