# A model of the graph, clustering, fusion and storage algorithms of pgvector with TurboQuant

This Dafny project models the algorithms that the repository itself owns (pgvector, plus the
"TurboQuant" native graph index and the "TurboHybrid" dense and BM25 scan) and proves properties of
the model. PostgreSQL's part, such as pages, locks, memory and the write-ahead log, appears only as
far as an algorithm depends on it: a page is a record and a lock is a mode that a step may or may not
take. Nothing here runs the original program.

`dafny verify dfyconfig.toml` checks the whole project.

## What is modelled

| file | component |
|---|---|
| `NeighborSelection.dfy`, `NeighborArrays.dfy` | HNSW neighbour selection with cached `closer` flags, and the shrink of a full neighbour array |
| `VacuumProtocol.dfy`, `VacuumSafety.dfy`, `VacuumTids.dfy`, `VacuumRuns.dfy` | HNSW vacuum, inserts, duplicates, slot reuse and scans as a step system: its safety, what happens to heap TIDs, its lock, and a vacuum with nothing to do |
| `IterativeScan.dfy`, `HnswScan.dfy` | the descent through the upper layers, layer-0 search with its discarded pool, and the iterative scan that resumes from it |
| `FrontierHeap.dfy`, `GraphSearch.dfy`, `GraphEdges.dfy` | heaps, best-first search and edge building of the native graph |
| `ElkanKmeans.dfy` | Elkan's k-means of the IVFFlat build |
| `HybridFusion.dfy` | merging and ranking of dense and BM25 candidates, by hash table or by sorting |
| `Rotation.dfy`, `Walsh.dfy` | the Hadamard and shuffle rotation before quantisation, and the values of the transform |
| `ExactSlab.dfy` | exact vectors as byte runs in chained slab pages |
| `CodePages.dfy` | packing of code tuples into chained pages, and their load by guessed block numbers |
| `BuildWorkers.dfy` | parallel in-memory build workers and the flush as a step system |
| `GraphReorder.dfy` | breadth-first renumbering of the native graph |
| `Sparsevec.dfy` | comparison, distances and construction of sparse vectors |
| `BitPlanes.dfy` | bit planes of a quantised query, the popcount scorer and its error |
| `Orders.dfy`, `BinaryHeap.dfy`, `Reachability.dfy`, `Powers.dfy`, `Vectors.dfy`, `Options.dfy` | what several of them share |

Conventions:

- Distances and scores are ideal reals and an abstract distance function; only k-means assumes the
  metric axioms. 32-bit and 64-bit wrap-around is written out where it matters: visit generations,
  the shuffle's linear congruential generator, the hash, and the table size.
- `qsort`, `list_sort` and pairing heaps belong to libraries. Sorts are any correct sort; where
  comparisons do not tie the result is unique, and that is proved. A pairing heap is a set from which
  some nearest or some furthest element is taken.
- Randomness (the seeding of k-means, empty clusters, levels) is a free choice.
- Where the code updates arrays in place, methods do too; where it runs under locks, each step is
  what one worker does between two lock operations.

## Results worth knowing

**Cached flags are exact.** A shrink never recomputes a `closer` flag that it could trust. Dropping
the pruned candidate cannot change any other flag, because it is either a non-closer candidate or the
furthest one. So every sequence of updates gives the lists that recomputing every flag would give.

**Vacuum: the promised safety does not hold in every run.** The intent of the three passes is that a
freed slot is never named by a live element, by the entry point, by an in-flight insert or by a scan.
`RemoveHeapTids` remembers the entry point it found when it started (`src/hnswvacuum.c:36-145`) and
never picks that element as the highest point. An insert that raises the entry point during the first
pass can make the *current* entry point the highest point. `RepairGraphEntryPoint` skips its repair
when the highest point is the entry point (`src/hnswvacuum.c:270-330`), and `RepairGraph` skips the
entry point as well, so an entry point that names a slot without TIDs keeps naming it after the slot
is freed. `FreedSlotCanBeNamed` gives such a run: it starts from the index that a build leaves with two
elements, each the other's neighbour; the insert of a third one, on a higher level, reaches both from the
entry point and links to both while vacuum is on its way to the second. `FreedSlotsAreUnreachable` proves
safety for all runs in which that guard is never taken with a highest point that still names a slot
without TIDs. `SkippedRepairIsUnsafe` is the converse: from any state in which the guard is taken so, the
run can be continued to a violation. The converse is about arbitrary search results while the list of the
entry point has room: in its continuation every repair finds and chooses the entry point and links back
to it, and nothing is evicted. When that list is full, the link back replaces the empty neighbour
(`src/hnswinsert.c:419-440`), which heals the entry point. Nothing is claimed about the entry point being
present whenever live elements exist.

**Iterative scan.** On an unchanging graph, with no tuple or memory limit reached, a relaxed scan that
is called until it has no more returns every heap TID of every element reachable from its start exactly
once. After every call the visited set is the disjoint union of the handed-out, pending and discarded
elements. A strict scan emits non-decreasing distances and skips only TIDs nearer than the last one. With
the iterative scan off, the default, a scan returns exactly the TIDs of its one batch, nearest first. In
every mode the first batch holds the nearest of what the first search met. The start is where the descent
through the upper layers ends, no further than the entry point; every layer of it is a search that ends at a
local minimum.

**Block map.** `TqGraphEnsureBlockMap` continues from a mapped block itself, not from its successor
(`src/tqgraph_storage.c:46-50`), so it would map one block twice if the map were filled in part. The
load fills the map all at once, which the model proves and relies on.

**Heap TIDs.** The TIDs of every slot after a step, and over a run, are determined: a TID is there exactly if
it was there or was brought by an insert or a duplicate, and has not been declared dead there since.

**Hybrid ranking.** Both paths return the ranking that a maintainer would describe without the code: scores
never increase, ties go to items with both parts, then by rank, then by node, and nothing left out comes
before what is returned.

**Elkan.** Whatever distances are skipped, the run is one of Lloyd's algorithm: every iteration assigns each
sample to a nearest centre, moves a sample only to a strictly nearer one, and takes means, each of which is
the one point with the least sum of squares; the run stops exactly when a later iteration moves no sample.
Stopping so leaves a Lloyd fixpoint when no cluster is empty; a cluster without samples is replaced by a
random vector in every iteration, so the condition is needed.

## Model

| member | source | states |
|---|---|---|
| NeighborSelection.FlagIsTheRule | src/hnswutils.c:2974-2995 | a computed flag is the paper's rule: no closer candidate kept before is nearer to this one than it is to the base |
| NeighborSelection.CheckElementCloser | src/hnswutils.c:2974-2995 | the loop decides that rule |
| NeighborSelection.DroppingKeepsFlags | src/hnswutils.c:3040-3090 | dropping a non-closer or the furthest candidate leaves the flag of every other candidate as it was |
| NeighborSelection.PrunedIsFurthestNonCloser | src/hnswutils.c:3089-3096 | with one candidate too many, the pruned one is the furthest non-closer one, or the furthest if all before it are closer |
| NeighborSelection.KeptIsSelection | src/hnswutils.c:3026-3096 | what is kept, stated apart from the loops: lm of the candidates reached, every closer one and then the nearest of the others, and the pruned one is the nearest reached one not kept, or the furthest candidate |
| NeighborSelection.ListingIsUnique | src/hnswutils.c:2926-2969 | distance then address leaves one order, so any correct sort gives it |
| NeighborSelection.SortSorted | src/hnswutils.c:2926-2969 | sorting by the comparator gives that order: ascending distance, then ascending address |
| NeighborSelection.TakeOrderIs | src/hnswutils.c:3017-3030 | the loop takes sorted candidates nearest first, and unsorted ones from the end of their list |
| NeighborSelection.DecideCached | src/hnswutils.c:3032-3075 | a flag taken from the cache, checked against added candidates only, or recomputed after a removal is the one a full recomputation gives |
| NeighborSelection.VisitCandidate | src/hnswutils.c:3026-3080 | one turn of the loop sets the exact flag and keeps added and removedAny meaningful |
| NeighborSelection.ScanCandidates | src/hnswutils.c:3026-3080 | the loop's kept list, leftovers and flags are those of recomputing every flag |
| NeighborSelection.SelectNeighbors | src/hnswutils.c:2998-3099 | kept list, pruned candidate and every flag equal the full recomputation, whatever was cached, and are a selection in the sense of `KeptIsSelection`; a list of at most lm candidates is kept whole |
| NeighborSelection.KeepPrunedConnections | src/hnswutils.c:3085-3087 | leftovers are appended in order until lm are kept or none is left |
| NeighborArrays.CacheUsableForShrink | src/hnswutils.c:3032-3060 | exact flags of a full array are a usable cache once a newcomer is added |
| NeighborArrays.SurvivorsExact | src/hnswutils.c:3136-3163 | after the pruned element is replaced the flags of all survivors are exact |
| NeighborArrays.FindPruned | src/hnswutils.c:3148-3156 | finds the slot of the pruned element, or none when it is the newcomer |
| NeighborArrays.ShrinkOutcome | src/hnswutils.c:3117-3165 | a shrink drops the furthest non-closer candidate of the sorted array and newcomer, and nothing else |
| NeighborArrays.ConnectedIs | src/hnswutils.c:3117-3165 | the flagless specification of an update: append while there is room, else exactly one of all candidates gives up its place, the furthest that is not closer or the furthest of all, and no other key moves |
| NeighborArrays.HnswNeighborArray.UpdateConnection | src/hnswutils.c:3117-3165 | the array's keys become those that recomputing every flag would give, its flags stay exact, and a shrink leaves them cached |
| NeighborArrays.HnswNeighborArray.Shrink | src/hnswutils.c:3132-3163 | the full array after one more candidate, with exact and cached flags |
| NeighborArrays.UpdateRun | src/hnswutils.c:3117-3165 | after any number of updates with distinct elements the cache has changed nothing |
| VacuumSafety.InvStep | src/hnswvacuum.c:36-145 | every enabled step of vacuum, insert, duplicate or scan keeps the safety invariant (no reachable name of a freed slot) while no needed repair is skipped |
| VacuumSafety.FreedSlotsAreUnreachable | src/hnswvacuum.c:459-593 | in any run without that skip, no live element, entry point, in-flight insert or scan names a freed slot |
| VacuumSafety.EmptySlotsStayEmpty | src/hnswinsert.c:630-685 | in any run, a slot that lost its last TID gets no TID before it is freed |
| VacuumSafety.SkippedRepairIsUnsafe | src/hnswvacuum.c:260-338 | whenever the highest point is skipped as entry point although it names an empty slot, then for arbitrary search results, while its list has room, the run can go on to a named freed slot |
| VacuumSafety.FreedSlotCanBeNamed | src/hnswvacuum.c:202-338 | the run RUN, from the index that a build leaves with two elements, ends with a freed slot that the entry point names |
| VacuumSafety.CutOff | src/hnswvacuum.c:459-480 | at the scan barrier nothing outside names a slot without TIDs, so all of them are cut off |
| VacuumSafety.RemovingStep | src/hnswvacuum.c:36-145 | the first pass has recorded every slot without TIDs that it passed, and its highest point keeps TIDs; which TIDs go is the subject of `VacuumTids` |
| VacuumSafety.HighestStep | src/hnswvacuum.c:260-338 | once handled, the highest point that may replace a deleted entry point names no slot without TIDs |
| VacuumSafety.AllStep | src/hnswvacuum.c:344-453 | every element the repair pass has handled, and the entry point, name no slot without TIDs |
| VacuumTids.TidsAfterStep | src/hnswvacuum.c:60-130 | after every step a slot holds a TID exactly if the step brought it, or it was there and was not declared dead there by this step |
| VacuumTids.RemoveHeapTidsChangesTids | src/hnswvacuum.c:60-130 | passing a slot changes no other slot and nothing but the TIDs of this one |
| VacuumTids.LivingTidStays | src/hnswvacuum.c:60-130 | through any run a TID that is not declared dead stays in its slot |
| VacuumTids.BroughtTidStays | src/hnswinsert.c:630-685 | a TID that a run accepted is in its slot at the end unless it was declared dead there |
| VacuumTids.NoTidFromNowhere | src/hnswinsert.c:630-685 | a TID in a slot at the end of a run was there before or was brought by an insert or a duplicate |
| VacuumTids.DeadTidIsGone | src/hnswvacuum.c:60-130 | a TID declared dead where vacuum passes its slot is there later only if it was brought again |
| VacuumTids.FirstPassIsComplete | src/hnswvacuum.c:36-145 | when vacuum goes on to its repairs, every dead TID left in any slot was brought since vacuum started |
| VacuumTids.OnlyEmptyOnesAreRecorded | src/hnswvacuum.c:112-121 | the list of deleted elements holds only slots that vacuum itself found without TIDs |
| VacuumTids.HighestWasPassed | src/hnswvacuum.c:122-130 | during the first pass the highest point changes only to the slot just passed, and never is the entry point that vacuum began with |
| VacuumTids.HighestIsHighest | src/hnswvacuum.c:122-130 | at the end of the first pass no element that it left with TIDs, except the entry point it began with, is above its highest point |
| VacuumRuns.ExclusiveAreAlone | src/hnswinsert.c:755-789 | in every run an exclusive insert is the only insert, with no repair beside it, and no insert runs beside a repair of the entry point |
| VacuumRuns.EntryOnlyRises | src/hnswinsert.c:730-735 | the entry point gives way only to an element of a higher level, and to a holder of the exclusive lock, except where vacuum replaces a deleted one |
| VacuumRuns.CleanVacuum | src/hnswvacuum.c:344-453 | from any index as a build leaves it, a vacuum that finds nothing dead can pass every slot, skip every repair and end with the same index |
| IterativeScan.LoadUnvisited | src/hnswutils.c:2713-2735 | the unvisited neighbours, each once, now marked visited |
| IterativeScan.Offer | src/hnswutils.c:2840-2911 | one neighbour is kept, evicts the furthest or is discarded; W stays the nearest ef met and nothing is lost |
| IterativeScan.Expand | src/hnswutils.c:2812-2913 | a best-first search: each turn expands a candidate no further than the best ef so far, as near as any of them not yet expanded, and it ends when all of W have had their turns; the visited set splits into handed out, W and discarded |
| IterativeScan.SearchLayer | src/hnswutils.c:2741-2921 | the ef nearest met by such a search, furthest first, expanded, with all others in the discarded pool |
| IterativeScan.Descend | src/hnswscan.c:226-230 | one search for each upper layer, each from where the one above ended to an element reachable from there, no further, and no further than its neighbours |
| IterativeScan.TakeFrom | src/hnswscan.c:620-640 | the last TID of the last element is emitted, or skipped in strict mode exactly when nearer than the previous one |
| IterativeScan.EverythingWasTaken | src/hnswscan.c:560-606 | with empty list and pool and no limit, exactly the TIDs of all reachable elements were taken |
| HnswScans.HnswScan.GetScanItems | src/hnswscan.c:195-252 | the first search establishes the partition and the account of TIDs |
| HnswScans.HnswScan.ResumeScanItems | src/hnswscan.c:257-293 | a resumed search keeps them, and brings something unless the pool is empty |
| HnswScans.HnswScan.PopDiscarded | src/hnswscan.c:571-578 | past a limit the nearest discarded element is handed out and the partition kept |
| HnswScans.HnswScan.GetTuple | src/hnswscan.c:494-645 | emits one more TID never emitted before or reports the end; the first call fixes the first batch, the nearest of what was met; at the end exactly the TIDs of that batch were taken (mode off), or of everything met, which is everything reachable unless a limit was hit (other modes) |
| IterativeScan.DoneWereTaken | src/hnswscan.c:556-645 | once the list is empty exactly the TIDs of the elements handed out were taken, in every mode |
| HnswScans.ScanBatch | src/hnswscan.c:494-566 | with the iterative scan off a scan terminates with every TID of the batch exactly once, nearest first, and the batch is the nearest initialEf of what the search met, which is expanded |
| HnswScans.ScanToTheEnd | src/hnswscan.c:494-645 | a relaxed scan without limits returns every TID reachable from the end of the descent exactly once and terminates |
| BinaryHeap.SiftUp | src/tqgraph.c:226-242 | restores the heap in place and keeps its items |
| BinaryHeap.SiftDown | src/tqgraph.c:244-280 | restores the heap in place and keeps its items |
| BinaryHeap.RootIsFirst | src/tqgraph.c:226-280 | nothing in a heap comes before its root |
| BinaryHeap.HeapPush | src/tqgraph.c:282-289 | adds exactly the item |
| BinaryHeap.HeapPop | src/tqgraph.c:331-344 | removes and returns a first item |
| BinaryHeap.HeapReplaceRoot | src/tqgraph.c:346-352 | exchanges the root for the item |
| FrontierHeap.OneTotalOrder | src/tqgraph.c:201-215 | less and greater are the two directions of one total order: smaller distance first, then smaller id |
| FrontierHeap.HeapPushGrowing | src/tqgraph.c:308-329 | fails exactly when the heap already holds the maximum capacity, else adds the item; a full heap doubles, from 8 up and to the maximum at most |
| FrontierHeap.OfferNearest | src/tqgraph.c:354-379 | the heap keeps the nearest of its items and the newcomer, and says whether that is one of them |
| GraphSearch.NextGeneration | src/tqgraph.c:922-929 | the next number, or 1 with all marks cleared when it wraps; no node carries it |
| GraphSearch.OfferKeeps | src/tqgraph.c:354-379 | the kept nodes stay the best ef of the visited ones in (distance, id) order |
| GraphSearch.Visit | src/tqgraph.c:955-970 | one newly visited node keeps the search state, and the frontier cannot overflow |
| GraphSearch.ExpandNode | src/tqgraph.c:938-970 | after the loop every eligible neighbour of the node is visited |
| GraphSearch.SearchLayer | src/tqgraph.c:904-970 | a best-first search: each turn expands the nearest of the best ef visited nodes not yet expanded, until all of them are; the heap holds those best ef, and the capacity error is unreachable |
| GraphSearch.LocalClosure | src/tqgraph.c:904-970 | each eligible neighbour of a kept node is kept or worse than all ef kept nodes |
| GraphSearch.WideSearchIsComplete | src/tqgraph.c:904-970 | with ef at least the number of reachable nodes the result is exactly the reachable set |
| GraphEdges.SelectNeighbors | src/tqgraph.c:757-808 | computes the two-pass selection in candidate order |
| GraphEdges.PicksSpread | src/tqgraph.c:764-788 | a candidate is picked exactly when there is room and no earlier pick is nearer to it than the source; earlier picks never change |
| GraphEdges.FilledNearestFirst | src/tqgraph.c:790-808 | the places that the picks leave go to the nearest of the other candidates |
| GraphEdges.SelectedIsProper | src/tqgraph.c:757-808 | distinct candidates, never the source, at most max, and all others too unless max is reached |
| GraphEdges.PruneRemovesOne | src/tqgraph.c:810-841 | pruning a list with one too many removes exactly one neighbour |
| GraphEdges.PruneRemovesFurthest | src/tqgraph.c:810-841 | the one removed is the furthest candidate that was not picked: every further one was |
| GraphEdges.AddedListIs | src/tqgraph.c:843-862 | a neighbour that is there changes nothing, one that fits is appended, and in a full list the furthest that is not picked makes way |
| GraphEdges.AddKeepsAdjacency | src/tqgraph.c:843-862 | adding a neighbour keeps lists free of self loops and duplicates, on the level, and within LevelM |
| GraphEdges.TqGraphBuildState.PruneNeighbors | src/tqgraph.c:810-841 | replaces the list by the selection from it if it is too long |
| GraphEdges.TqGraphBuildState.AddNeighbor | src/tqgraph.c:843-862 | the nodes afterwards: unchanged, one neighbour more, or one more and one pruned |
| GraphEdges.LinkedBackIs | src/tqgraph.c:1044-1046 | each selected node has had the new one added to its list at that level, once |
| GraphEdges.GreedySearch | src/tqgraph.c:864-902 | terminates at a node none of whose eligible neighbours is nearer, and which is the entry or nearer than it |
| GraphEdges.TqGraphBuildState.LinkLevel | src/tqgraph.c:1021-1050 | the node's list is the selection from what such a search found, every selected node has been linked back, lists stay proper, and the next entry is the nearest found |
| GraphEdges.TqGraphBuildState.Descend | src/tqgraph.c:1009-1020 | a greedy search of each level from the top down to the node's, each from where the one above ended to a local minimum that is not further |
| GraphEdges.TqGraphBuildState.InsertNode | src/tqgraph.c:1000-1060 | an insertion is the descent and then a link step at every level shared with the entry, each from the nearest found above; lists stay proper, the entry stays at the maximum level, the node gets neighbours at all those levels, and no list becomes empty |
| GraphEdges.TqGraphBuildState.BuildEdges | src/tqgraph.c:972-1074 | each state of the build is the one before with the next node of the order inserted; after it every list is proper and within 2m or m, the entry node's level is the maximum of all levels, and every node but the first has neighbours |
| ElkanKmeans.HalfDistanceRules | src/ivfkmeans.c:410-425 | a centre at least twice as far from the assigned one as the sample is cannot be nearer to the sample |
| ElkanKmeans.AssignSample | src/ivfkmeans.c:386-452 | bounds stay sound and the assigned centre is a nearest one, despite all skipped distances |
| ElkanKmeans.HalveDistances | src/ivfkmeans.c:345-358 | half the distance of every two different centres |
| ElkanKmeans.Separate | src/ivfkmeans.c:360-378 | half the distance of every centre to its nearest other one |
| ElkanKmeans.AssignSamples | src/ivfkmeans.c:342-452 | after steps 1 to 3 every sample has a nearest centre and has moved only to a strictly nearer one; no changes are counted exactly when the assignment is as before |
| ElkanKmeans.ComputeNewCenters | src/ivfkmeans.c:193-250 | every centre with samples is their normalised mean |
| ElkanKmeans.MeanIsBest | src/ivfkmeans.c:193-250 | before normalisation, any other point than the mean has a greater sum of squared distances to the samples of the cluster, in each dimension where it differs |
| ElkanKmeans.MoveKeepsSound | src/ivfkmeans.c:458-482 | moving centres and widening bounds by the movement keeps the bounds sound |
| ElkanKmeans.MoveBounds | src/ivfkmeans.c:458-482 | all bounds are sound for the new centres, and no lower bound falls by more than its centre moved, nor below zero |
| ElkanKmeans.InitCenters | src/ivfkmeans.c:23-80 | initial centres are samples, and the bounds are the exact distances |
| ElkanKmeans.AssignInitial | src/ivfkmeans.c:318-340 | the initial assignment is to a nearest centre with exact upper bounds |
| ElkanKmeans.Iterate | src/ivfkmeans.c:342-495 | in each iteration every sample ends at a centre nearest among those the iteration began with, moving only to strictly nearer ones; the run stops exactly when a later iteration moves none |
| ElkanKmeans.Elkan | src/ivfkmeans.c:260-495 | the run is Lloyd's algorithm from centres among the samples: nearest assignments, then means, each pass but the first changing some assignment until it stops or 500 passes are done; stopping with no empty cluster leaves means with every sample at a nearest one |
| HybridFusion.ScoreCompareIsAnOrder | src/tqhybrid.c:556-585 | the comparison is a weak order in both directions that ties only items of one node; its direction is that of `BetterRanksBefore` |
| HybridFusion.BetterRanksBefore | src/tqhybrid.c:556-580 | the order spelled out: higher scores, then items with both parts, then smaller dense ranks, smaller BM25 ranks and smaller nodes |
| HybridFusion.FindMergeSlot | src/tqhybrid.c:603-622 | probing ends, at the slot of the node or the first unused one on its way |
| HybridFusion.NextPowerOfTwo | src/tqhybrid.c:587-595 | a power of two that is large enough, for all values a 32-bit shift can reach |
| HybridFusion.ShiftReaches | src/tqhybrid.c:587-595 | the shift ever reaches a 32-bit value exactly when it is at most half of the range, so the loop ends for no other |
| HybridFusion.FillTable | src/tqhybrid.c:999-1025 | the table is a power of two at least twice the candidates, and stores exactly one item per node |
| HybridFusion.HashMerge | src/tqhybrid.c:999-1046 | one item per node of either input with both parts, or per BM25 match |
| HybridFusion.SortMerge | src/tqhybrid.c:1067-1117 | the same merge, whichever way the sort orders the items of one node |
| HybridFusion.ScoreResults | src/tqhybrid.c:879-929 | fused scores from the extremes of all results |
| HybridFusion.ScoresAreShares | src/tqhybrid.c:879-929 | a score is the weighted sum of the two parts: the reciprocal of rank plus constant, or the proportion between the extremes of the list, and 0 for an absent part |
| HybridFusion.SmallerRankScoresHigher | src/tqhybrid.c:921-928 | by rank, under a positive weight a smaller rank in one list scores higher with nothing else changed |
| HybridFusion.ExtremesOfWeighted | src/tqhybrid.c:860-920 | by weight, the extremes of a list score its whole weight and nothing |
| HybridFusion.ScoredByMembers | src/tqhybrid.c:879-929 | scores depend on which results there are, not on their order |
| HybridFusion.SelectTopN | src/tqhybrid.c:792-826 | the bounded heap gives the first target items of the full sort |
| HybridFusion.OutcomeIsRanking | src/tqhybrid.c:752-826 | the results are merged items with their scores in ranking order, as many as the smallest limit allows, before all that are left out |
| HybridFusion.MergesAgree | src/tqhybrid.c:992-1127 | every merge of the same inputs has the same outcome |
| HybridFusion.FuseByHash | src/tqhybrid.c:997-1065 | the outcome of a merge, through the table and the bounded heap |
| HybridFusion.FuseBySort | src/tqhybrid.c:1066-1127 | the outcome of a merge, through two sorts |
| HybridFusion.CollectScanResults | src/tqhybrid.c:992-1127 | one result for all inputs, whatever the threshold between the two: the ranking of the merge, or the error exactly when exact rescoring is asked for and a BM25 match is outside the dense candidates; only the hash branch bounds the candidates |
| HybridFusion.RescoreNeeded | src/tqhybrid.c:868-890 | the error is due exactly when a BM25 match is outside the dense candidates |
| Rotation.ButterflyDoubles | src/hnswutils.c:800-811 | a butterfly doubles the inner product of its block |
| Rotation.HadamardBlock | src/hnswutils.c:800-811 | the block becomes its butterfly in place, and nothing else changes |
| Rotation.LevelDoubles | src/hnswutils.c:884-912 | a level of butterflies doubles the inner product |
| Rotation.HadamardPreserves | src/hnswutils.c:880-917 | all levels and the scaling preserve the inner product of a chunk |
| Walsh.HadamardIsWalsh | src/hnswutils.c:880-917 | entry i of a transformed chunk is the sum of all its values, each with the sign of the parity of the bits its position shares with i, times the scaling |
| Rotation.ChunksPreserve | src/hnswutils.c:865-923 | chunks of powers of two cover the vector and preserve its inner product |
| Walsh.ChunksAreWalsh | src/hnswutils.c:865-923 | the first chunk is the largest power of two that fits, it is transformed so, and the rest goes the same way |
| Rotation.RotateHadamardChunks | src/hnswutils.c:865-923 | the code computes that transform in place |
| Rotation.ShuffleIsPermutation | src/hnswutils.c:757-787 | a shuffle is one permutation for each dimension and seed, whatever the values |
| Rotation.ShufflesDiffer | src/hnswutils.c:770-787 | different swap targets shuffle distinct values differently, so every order comes from one choice of targets |
| Rotation.StepsBack | src/hnswutils.c:756-761 | the generator's step can be undone, so no two states have the same successor |
| Rotation.RotatePermute | src/hnswutils.c:770-787 | the code computes that shuffle in place |
| Rotation.RotateVector | src/hnswutils.c:926-938 | the code computes the whole rotation of the cleaned input |
| Rotation.RotatedIs | src/hnswutils.c:926-938 | the rotation is the transform, followed by a shuffle and a transform for each of the three seeds in turn |
| Rotation.RotationPreserves | src/hnswutils.c:926-938 | the rotation preserves inner products and norms in every dimension |
| ExactSlab.ExactStore.WriteExactPages | src/tqgraph_exact.c:78-140 | every vector is stored where its node records it |
| ExactSlab.ExactStore.AppendInsertedExact | src/tqgraph_exact.c:255-416 | one more vector is stored, all earlier ones stay where they are, from the remembered tail or the start |
| ExactSlab.ExactStore.ReadExactVector | src/tqgraph_exact.c:143-236 | a recorded place reads back its bytes, over as many pages as they span |
| ExactSlab.GrowthKeepsStored | src/tqgraph_exact.c:255-416 | growth at the end of the chain disturbs no stored vector |
| ExactSlab.ReadStep | src/tqgraph_exact.c:165-205 | each page read continues the same vector |
| CodePages.RoomUntilFull | src/tqgraph.h:427-434 | the free-space test fits exactly as many tuples as the computed number per page |
| CodePages.PageCountMeans | src/tqgraph.h:436-443 | a page is counted exactly when its first node exists |
| CodePages.GuessIsRight | src/tqgraph_storage.c:93-104 | as long as every guessed block is a code page, page p is block start + p |
| CodePages.NodeIsOnPage | src/tqgraph.c:1313-1362 | node i's tuple is on chain page i / tuplesPerPage |
| CodePages.CodeStore.WriteCodePages | src/tqgraph.c:1313-1362 | the build packs all tuples by node id with growing block numbers |
| CodePages.CodeStore.AddTuple | src/tqgraph_storage.c:156-272 | the next tuple goes to the last page, or to a new linked one exactly when that is full |
| CodePages.CodeStore.AppendInsertedCode | src/tqgraph_insert.c:656-727 | an insert appends its node's tuple, from the cursor or the start, and keeps the packing |
| CodePages.EnsureBlockMap | src/tqgraph_storage.c:27-66 | a walk of the chain maps every counted page |
| CodePages.FindBlock | src/tqgraph_scan_cache.c:113-146 | the guess, the map or the fallback gives the chain's page |
| CodePages.LoadCodePage | src/tqgraph_scan_cache.c:94-193 | the page's tuples are loaded for their own nodes |
| CodePages.BuildCache | src/tqgraph_scan_cache.c:537-539 | the load in page order gives every node its own tuple |
| BuildWorkers.InvStep | src/hnswbuild.c:435-598 | every step of every worker keeps mutual exclusion, one place per TID and what is known of the entry point |
| BuildWorkers.FlushIsAlone | src/hnswbuild.c:536-573 | in no run does an in-memory insert overlap the flush |
| BuildWorkers.FlushedGraphIsFinal | src/hnswbuild.c:325-336 | in no run does one follow it: the flushed graph never changes |
| BuildWorkers.WrittenAtMostOnce | src/hnswbuild.c:554-573 | in no run do two steps write the graph, whichever workers run out of memory together |
| BuildWorkers.FlushedWasWritten | src/hnswbuild.c:325-336 | a graph that counts as flushed was written by an earlier step of the run |
| BuildWorkers.EveryTidIsPlacedOnce | src/hnswbuild.c:435-598 | once workers are idle every accepted TID is in one element, one duplicate slot or one on-disk insert |
| BuildWorkers.FlushedEntryIsTop | src/hnswbuild.c:458-501 | when the graph is written its entry point has the maximum level |
| GraphReorder.NumberNodes | src/tqgraph.c:1102-1131 | the queue numbers every node once, those reachable from the entry first and among them in the order of their distance from it in steps |
| GraphReorder.SpreadIsComplete | src/tqgraph.c:1113-1126 | an exhausted queue holds exactly the reachable nodes |
| GraphReorder.ReorderForLocality | src/tqgraph.c:1076-1174 | both maps are inverse bijections, all data and edges are carried over, the entry maps along, unreachable nodes are kept |
| GraphReorder.EdgesCarryOver | src/tqgraph.c:1149-1167 | an edge exists between two nodes exactly when it exists between their new numbers |
| Sparsevec.Compare | src/sparsevec.c:1139-1175 | the lexicographic order of the dense expansions, then the dimension |
| Sparsevec.FirstDifference | src/sparsevec.c:1139-1175 | the vector with the smaller value at the first difference comes first |
| Sparsevec.NoDifference | src/sparsevec.c:1163-1172 | without a difference the vector with fewer dimensions comes first |
| Sparsevec.AtElement | src/sparsevec.c:1139-1175 | the dense expansion has each stored value at its index |
| Sparsevec.CompareIsAntisymmetric | src/halfvec.c:980-1002 | the dense comparison is antisymmetric and zero only for equal vectors |
| Sparsevec.CompareIsTransitive | src/halfvec.c:980-1002 | the dense comparison is transitive |
| Sparsevec.DenseIsInjective | src/sparsevec.c:1139-1175 | different valid sparse vectors expand differently |
| Sparsevec.CompareIsTotalOrder | src/sparsevec.c:1139-1175 | the comparison is a total order of all valid sparse vectors: antisymmetric, zero only for equal vectors, and transitive |
| Sparsevec.Distance | src/sparsevec.c:813-856 | the two-pointer loop is the sum over all dimensions, each element of b consumed once |
| Sparsevec.L2SquaredDistance | src/sparsevec.c:813-856 | the dense sum of squared differences |
| Sparsevec.SquaresArePolar | src/sparsevec.c:813-856 | the squared distance is the two squared norms less twice the inner product |
| Sparsevec.L1Distance | src/sparsevec.c:1016-1044 | the dense sum of absolute differences |
| Sparsevec.AbsolutesAreMetric | src/sparsevec.c:1016-1044 | the sum of absolute differences is a metric: symmetric, zero exactly for vectors alike in every dimension, and within the triangle inequality |
| Sparsevec.InnerProduct | src/sparsevec.c:892-923 | the dense sum of products |
| Sparsevec.ProductIsBilinear | src/sparsevec.c:892-923 | each term of the inner product is symmetric and additive, and one for two ones |
| Sparsevec.ChecksMeanAscending | src/sparsevec.c:102-125 | all index checks pass exactly for ascending indices within the dimension |
| Sparsevec.FromDense | src/sparsevec.c:655-678 | the valid sparse vector that expands to the dense one |
| BitPlanes.DecodesBack | src/hnswutils.c:1340-1345 | the weighted bits of a value in two's complement are that value |
| BitPlanes.EncodePlanes | src/hnswutils.c:1317-1366 | the planes hold the bits of every quantised value, and padding bits are zero |
| BitPlanes.SupportedBits | src/hnswutils.c:1266-1273 | the smallest supported width that holds the setting, or the widest |
| BitPlanes.QScaleIs | src/hnswutils.c:1316-1338 | the quantisation maps the largest absolute value to 127, 2047 or 32767 |
| BitPlanes.RoundsToNearest | src/hnswutils.c:1339-1346 | rounding gives a nearest integer, and of two the one further from zero |
| BitPlanes.PrepareQuery | src/hnswutils.c:1275-1370 | values are quantised within half a step and encoded with their sum |
| BitPlanes.CountsAreValues | src/hnswutils.c:1240-1249 | weighted popcounts plane by plane are query values position by position |
| BitPlanes.RawScore | src/tqgraph_score.c:3001-3060 | the score is the scale times the integer dot product of the code, as plus and minus ones, with the query |
| BitPlanes.DotIsNear | src/hnswutils.c:1329-1352 | that integer dot product is within half a step for each dimension of the scaled real one |
| BitPlanes.Score | src/hnswutils.c:1275-1370 | preparing a query and scoring a code with it is off from the inner product of the decoded code with the query by at most half a quantisation step for each dimension |

## Left out

- PostgreSQL plumbing: buffers, write-ahead log, memory contexts, settings, reloptions, costs, statistics, catalog lookups.
- SIMD kernels, CPU dispatch, prefetching and the stack-scratch variant of the frontier.
- Float rounding, NaN and infinity outside the rotation's cleaning of NaN, and recall quality.
- Resumed scan batches across a running vacuum, and tuple versions that wrap after 15 frees.
- VacuumSafety.SkippedRepairIsUnsafe: the list of the entry point is taken to have room, so that links back to it evict nothing.
- VacuumSafety.FreedSlotsAreUnreachable: holds for runs in which no needed repair of the highest point is skipped; without that condition it is false, as `FreedSlotCanBeNamed` shows.
- The choice of neighbours inside the vacuum protocol: a search may load any live elements and choose any of them.
- In the vacuum protocol an element's neighbour lists over all layers are one set of names.
- NeighborArrays.HnswNeighborArray.UpdateConnection: candidates are copied into a work array for a shrink, so the aliasing of list cells and neighbour items is not captured.
- BM25 storage and scoring: its output is any list with distinct nodes and positive ranks.
- HybridFusion.CollectScanResults: more than 2^30 candidates in all, in the hash branch only.
- HybridFusion.FuseByHash: more than 2^30 candidates in all; and the error for BM25-only candidates does not say which node it names, because that depends on the order of the merge.
- HybridFusion.NextPowerOfTwo: values above half of the 32-bit range are outside its precondition, because the shift never reaches them and the loop does not end, as `ShiftReaches` proves.
- HybridFusion.FillTable: more than 2^30 candidates in all, whose table size `NextPowerOfTwo` never reaches; allocations are limited to one gigabyte, so that many cannot be held.
- HybridFusion.HashMerge: more than 2^30 candidates in all, as for `FillTable`.
- ElkanKmeans.InitCenters: the weighted random choice of the next centre is any sample; the memory and index-overflow errors before it are not modelled.
- ElkanKmeans.Elkan: distances between samples are assumed not to exceed the largest float.
- GraphEdges.TqGraphBuildState.BuildEdges: the build order is any order of all nodes instead of the sort by a mixed key.
- ExactSlab.ExactStore.ReadExactVector: legacy tuple pages and cached copies of vectors.
- CodePages.LoadCodePage: loads out of page order, for which a guess may hit a later code page, and adjacency pages.
- Sparsevec.L2SquaredDistance: the parsing, casts and typmods of sparse vectors, and the norms.
- HnswScans.HnswScan.GetScanItems: the exact rescoring of the batch and the choice of its size.
- HnswScans.HnswScan.ResumeScanItems: the exact rescoring of the batch.
- Scans in the other index types, the P-square estimator, IVFFlat page chains and half-precision conversions.
