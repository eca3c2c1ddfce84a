# Verified models of the storage, inference and deduplication core

Dafny models, with proofs, of five parts of the system. `dafny verify dfyconfig.toml` checks everything.

**Buffer manager** (`BufferTypes`, `PageOrder`, `Pool*`, `BufferManager`). A fixed pool of RAM frames over table files and
one temporary file, with counted handles, pinning, lazy loading, write-back and an LRU kept in a set ordered by a mutable
time tick. `BufferManager.dfy` holds the classes with the source's fields and methods; each method is proved to have
exactly the effect of the function of the same name in `PoolModel`, and what the manager promises is proved about these
functions, over every sequence of calls (`PoolRuns`): it refines a map from slots to contents, no frame is lost or shared,
tick-keyed lookups always hit the intended page, the temporary file is no longer than needed, and eviction is nearly LRU
in spite of the fast path in `access` (`PoolEviction`), and a pinned page keeps its frame (`PoolPins`). `PoolEffects` says
what single calls do to handles, disk, positions and ticks. Clients may keep the pointer `getBytes` gives and store through
it, with any calls in between, as long as they call `wroteBytes` before the page is evicted. Next to the source's fields
the model keeps ghost state: the page objects that exist, the handles, the pinned pages, the temporary pages never
written, the pages with stores not yet announced, and the tick of each page's last access.

**Blocked neural-network inference** (`Matrix*`, `DenseNetwork`, `TileLoader`). Matrix product as a join on block indices
and a sum by block key, then bias and ReLU. Over `real`, for every tiling (uneven block sizes included), every order and
grouping of the aggregation and zero-padded inputs, the blocks produced are those of ordinary matrix algebra; two layers
of `inference_compute` together equal the dense network on the cells that are not padding.

**Model deduplication** (`WeightBlocks`, `BlockOrder`, `BlockIndex`, `Indexer`, `Dedup*`, `Deduplicator`, `ExactMatch`).
Weights are padded and cut into blocks; each block is replaced by a similar indexed block or added to the index. The ids
`generate_detector_output` predicts are the ids `update_index` creates, over a whole chain of models, whatever the
accuracies, candidates and early stops. `DedupStops` says when the model is evaluated, when the loop stops and which rows
are kept, without reference to the loop's counters. Exact matching never changes a weight.

**Partitioned loader** (`PartitionedLoader`). The row and block counters of the csv loader: for every placement of
out-of-space failures the partitions together receive exactly the first lines of the file, once each and in order.

**Pipeline construction** (`PlanGraph`, `PipelineBuilder`). The backtracking search through the consumers of a plan finds
a path exactly when there is one, and both ways to build a pipeline agree unless the path is shadowed.

Some things a reader of the source should know:

- The header says that `getPinnedPage` returns a null pointer when the buffer is full of pinned pages. The code does not
  get that far: `kickOutPage` dereferences `lastUsed.begin()` before it looks at the size. The model follows the code
  and requires `HasRoom`; `PoolEviction.NoRoomMeansAllPinned` says exactly when that fails, and
  `PoolEviction.PinningFillsThePool` leads every pool into such a state.
- The fast path of `access` compares unsigned numbers: a tick of -1 counts as the largest, and before the clock reaches
  half the number of pages the right-hand side wraps around, so that no positive tick takes the fast path. The model keeps
  this arithmetic; `PoolLru.FastPathMeaning` states it plainly.
- `build_index` returns a finder meant "to avoid self deduplication", but the comparison it is meant for
  (`b1_index == b2_index` in the search loops) compares a tuple with a number and never holds; the model leaves it out.
- When deduplication stops with too large a loss, the rows are cut back to the last evaluation but the overwritten blocks
  stay. The prediction is right all the same (`DedupTheorems.TableMatchesStorage`).
- `operator+` of `FFMatrixData` adds biases only if both operands have one, and else keeps the left operand's. The data do
  not depend on the order of aggregation; the bias does, unless all or none of the operands have one
  (`MatrixFold.BiasOrderIrrelevantIff`). The products aggregated in the network have none.
- When `loadMatrixGeneric` runs out of space while storing a block, the row counter still stands at the block's end, and the
  block made in its place is stored unfilled (`TileLoader.LoadedIsPadded`).
- The loops of both `buildPipeline` overloads treat a computation by the same text; both are modelled by `StageFor`. The
  overloads differ in the computations they treat: these are the same exactly on paths without shadowed computations.
- An evaluation advances the step count of `deduplicate_model` itself, so that with an evaluation step above 1 the model is
  evaluated after every `eval_step - 1` updated blocks (`DedupStops.EvaluationsAre`).
- With one-by-one blocks the padding test reads the second side of a vector's shape, which does not exist; the model
  requires (`Comparable`) that this does not arise.
- In ragged tiles `loadMatrixGeneric` computes the row and column it compares with the totals from the ragged size, which is
  wrong as a coordinate but never wrong as a comparison (`TileLoader.NoFalsePadding`).

## Model

| member | source | states |
|---|---|---|
| PageOrder.StringLessOrders | src/bufferMgr/headers/TableCompare.h:21-32 | the name order is strict, and names it does not order are equal |
| PageOrder.StringLessMeans | src/bufferMgr/headers/TableCompare.h:21-32 | names are in dictionary order |
| PageOrder.PageLessOrders | src/bufferMgr/headers/PageCompare.h:22-34 | the order of allPages is strict and transitive, and two keys are equivalent exactly when table and position are the same |
| PageOrder.PageLessMeans | src/bufferMgr/headers/PageCompare.h:22-34 | the temporary file comes first, then tables by name, then pages by position |
| PageOrder.EntriesAreSlots | src/bufferMgr/headers/PageCompare.h:22-34 | two slots share an entry of a map so ordered exactly when they are the same slot |
| BufferManagement.BufferManager.constructor | src/bufferMgr/source/MyDB_BufferManager.cc:282-303 | all frames available, nothing else; the invariant holds |
| BufferManagement.BufferManager.LookupIsMembership | src/bufferMgr/headers/CheckLRU.h:20-22 | lookup in lastUsed by tick finds a page exactly when that page is listed, and never another |
| BufferManagement.BufferManager.LruErase | src/bufferMgr/source/MyDB_BufferManager.cc:103 | erasing by tick removes the intended page and no other |
| BufferManagement.BufferManager.TickAndInsert | src/bufferMgr/source/MyDB_BufferManager.cc:277-280 | the page gets a new largest tick and is really inserted |
| BufferManagement.BufferManager.KickOutPage | src/bufferMgr/source/MyDB_BufferManager.cc:80-112 | the page of the smallest tick is written back if dirty, loses its frame and is killed if it has no handles; the whole new state |
| BufferManagement.BufferManager.KillPage | src/bufferMgr/source/MyDB_BufferManager.cc:125-152 | the three cases and the case with no effect; the whole new state |
| BufferManagement.BufferManager.Access | src/bufferMgr/source/MyDB_BufferManager.cc:154-194 | fast path, new tick, or load with eviction; the whole new state |
| BufferManagement.BufferManager.GetPage | src/bufferMgr/source/MyDB_BufferManager.cc:31-57 | the registered page of the slot or a fresh one, which has that slot, with one handle more; keeps the invariant |
| BufferManagement.BufferManager.GetTempPage | src/bufferMgr/source/MyDB_BufferManager.cc:59-78 | a fresh page on the least recycled position or at the end of the file; keeps the invariant |
| BufferManagement.BufferManager.GetPinnedPage | src/bufferMgr/source/MyDB_BufferManager.cc:196-255 | the page of that slot, pinned, out of the LRU list, in a frame that shows what the slot held; keeps the invariant |
| BufferManagement.BufferManager.GetPinnedTempPage | src/bufferMgr/source/MyDB_BufferManager.cc:257-275 | a fresh temporary page, pinned, out of the LRU list, with a frame whose contents are not read; keeps the invariant |
| BufferManagement.BufferManager.Unpin | src/bufferMgr/source/MyDB_BufferManager.cc:277-280 | the page is pinned no more and joins the LRU list with a new largest tick; keeps the invariant |
| BufferManagement.BufferManager.Flush | src/bufferMgr/source/MyDB_BufferManager.cc:115-123 | a buffered table page is clean and equal to its slot on disk, unless it was clean and holds a store nobody announced; keeps the invariant |
| BufferManagement.BufferManager.DecRefCount | src/bufferMgr/headers/MyDB_Page.h:56-61 | one handle less; the last one kills the page |
| BufferManagement.BufferManager.Destroy | src/bufferMgr/source/MyDB_BufferManager.cc:305-320 | the disk holds the current contents of every table slot, provided stores were announced |
| BufferManagement.PageHandle.constructor | src/bufferMgr/headers/MyDB_PageHandle.h:62-65 | a handle counts once |
| BufferManagement.PageHandle.GetBytes | src/bufferMgr/source/MyDB_Page.cc:20-23 | the page has a frame, which shows the contents the page had before, evicted or not; a resident page inside the window of ticks does not move, a listed one outside it gets the next tick |
| BufferManagement.PageHandle.Store | src/bufferMgr/source/MyDB_Page.cc:20-23 | a store through a pointer kept from an earlier getBytes is seen at once, whatever was called in between while the page stayed resident; keeps the invariant |
| BufferManagement.PageHandle.WroteBytes | src/bufferMgr/source/MyDB_Page.cc:29-31 | announcing the stores marks the page dirty and changes nothing that is seen; keeps the invariant |
| BufferManagement.PageHandle.Write | src/bufferMgr/headers/MyDB_PageHandle.h:35-45 | after getBytes, a store and wroteBytes in one go the page shows what was stored; keeps the invariant |
| BufferManagement.PageHandle.Drop | src/bufferMgr/headers/MyDB_PageHandle.h:57-59 | a handle's end keeps the invariant |
| PoolInvariant.InitialInv | src/bufferMgr/source/MyDB_BufferManager.cc:282-303 | a new manager meets the invariant |
| PoolLru.FastPathMeaning | src/bufferMgr/source/MyDB_BufferManager.cc:156-159 | the unsigned comparison in plain terms: tick -1, or a clock of at least numPages / 2 and a tick within that window |
| PoolEffects.ResidentAccess | src/bufferMgr/source/MyDB_BufferManager.cc:154-172 | getBytes on a resident page changes nothing if its tick is within the window or the page is not in the list, and otherwise its tick alone |
| PoolRam.EvictRam | src/bufferMgr/source/MyDB_BufferManager.cc:95-107 | eviction conserves frames and leaves every clean page equal to disk |
| PoolRam.LoadRam | src/bufferMgr/source/MyDB_BufferManager.cc:173-189 | loading, with or without eviction, conserves frames and leaves every clean page equal to disk |
| PoolSteps.StepRam | src/bufferMgr/source/MyDB_BufferManager.cc:31-280 | every call conserves frames: available and owned frames are the constructor's, each in one place |
| PoolSteps.StepLru | src/bufferMgr/source/MyDB_BufferManager.cc:31-280 | after every call lastUsed is the resident unpinned pages, ticks are unique, refCount is the number of handles and pages without handles are listed |
| PoolSteps.StepSlots | src/bufferMgr/source/MyDB_BufferManager.cc:31-280 | after every call allPages indexes the live table pages, and live temporary pages and recycled positions share out the temporary file, which grows only past its peak |
| PoolSteps.StepKeepsInv | src/bufferMgr/source/MyDB_BufferManager.cc:31-280 | every allowed call is possible and keeps the invariant |
| PoolSteps.WriteIsThreeCalls | src/bufferMgr/headers/MyDB_PageHandle.h:35-45 | the write in one go is getBytes, a store and wroteBytes one after the other |
| PoolRefinement.KickOutUnseen | src/bufferMgr/source/MyDB_BufferManager.cc:80-112 | eviction changes nothing a client can see |
| PoolRefinement.StepRefines | src/bufferMgr/source/MyDB_BufferManager.cc:31-280 | a call changes what is seen of a slot or page only if it writes there, and then to what it writes |
| PoolRuns.RunKeepsInv | src/bufferMgr/source/MyDB_BufferManager.cc:31-303 | the invariant holds after any sequence of calls |
| PoolRuns.RunRefinesMap | src/bufferMgr/source/MyDB_BufferManager.cc:31-275 | at any time of any run every table slot holds what was last written to it |
| PoolRuns.HandlesShowTheMap | src/bufferMgr/headers/MyDB_PageHandle.h:34-45 | through any handle on a table page the client sees what was last written to its slot |
| PoolRuns.WritesLast | src/bufferMgr/headers/MyDB_PageHandle.h:39-45 | any page, also a temporary one, shows its last write for as long as it lives |
| PoolRuns.RunIsDurable | src/bufferMgr/headers/MyDB_BufferManager.h:69-71 | after any run and the destructor the disk holds the last write of every table slot |
| PoolRuns.TempFileIsPeak | src/bufferMgr/source/MyDB_BufferManager.cc:67-76 | lastTempPos is the largest number of temporary pages that ever lived at once |
| PoolEffects.RunCountsHandles | src/bufferMgr/headers/MyDB_Page.h:56-66 | over any run refCount is the number of handles given out and not yet gone, and a page lives as long as there are any |
| PoolEffects.FirstFreePosition | src/bufferMgr/source/MyDB_BufferManager.cc:67-76 | a new temporary page takes the first position no live temporary page uses |
| PoolEffects.OnlyDirtyPagesAreWritten | src/bufferMgr/source/MyDB_BufferManager.cc:95-123 | the disk changes only by the contents of a dirty page written to its slot, on a flush of a table page or when a listed page is evicted |
| PoolPins.PinLasts | src/bufferMgr/headers/MyDB_BufferManager.h:47-58 | over any run a page pinned by either call keeps its frame until it is unpinned or its last handle goes |
| PoolEviction.VictimIsOldest | src/bufferMgr/source/MyDB_BufferManager.cc:80-152 | a page loses its RAM only if none is available and the page is the oldest in the list, or if it is a temporary page whose last handle goes |
| PoolEviction.EvictionsAreNearlyLru | src/bufferMgr/source/MyDB_BufferManager.cc:80-84 | over any run: of k listed pages at least k - max(1, numPages / 2) others were promoted since any call that accessed the page a later call evicts |
| PoolEviction.NoRoomMeansAllPinned | src/bufferMgr/headers/MyDB_BufferManager.h:47-52 | there is nothing to evict and no free frame exactly when every frame is held by a pinned page |
| PoolEviction.PinningFillsThePool | src/bufferMgr/headers/MyDB_BufferManager.h:47-52 | a run of getPinnedPage calls ends without room exactly when there were as many as there are frames, for any number of frames |
| MatrixBlocks.FlatIndex | src/FF/headers/FFReluBiasSum.h:68-71 | row-major addressing is one-to-one |
| MatrixLaws.ProductOfSingles | src/FF/headers/FFInputLayerJoin.h:86 | matrices with one entry multiply to the product of the two numbers, at the place and under the condition of the matrix product |
| MatrixLaws.ProductIsAdditive | src/FF/headers/FFInputLayerJoin.h:86 | the product is additive in each argument |
| MatrixLaws.ProductIsHomogeneous | src/FF/headers/FFInputLayerJoin.h:86 | a factor can be taken out of either argument |
| MatrixLaws.UnitIsUnit | src/FF/headers/FFInputLayerJoin.h:86 | the unit matrix is the unit on both sides, on the cells in range |
| MatrixAggregation.MatrixData.Add | src/FF/headers/FFMatrixData.h:38-57 | adds into the left operand, bias too when both have one, and leaves the right operand unchanged |
| MatrixAggregation.AggregateSums | src/FF/headers/FFAggMatrix.h:20-34 | each key ends with the sum of the data of the records of that key, and no key is lost or added |
| MatrixAggregation.AggregateAll | src/FF/headers/FFAggMatrix.h:20-34 | taking up the records one by one, each added to its key's value cell by cell, gives the table of these sums |
| MatrixAggregation.AggregationOrderDoesNotMatter | src/FF/headers/FFMatrixMeta.h:34-41 | any permutation of the records gives the same table |
| MatrixAggregation.AggregationGroupingDoesNotMatter | src/FF/headers/FFMatrixData.h:38-57 | aggregating two parts and merging the tables gives the table of the whole |
| MatrixFold.AddAll | src/FF/headers/FFMatrixData.h:38-57 | operator+ applied in place to one operand after the other leaves in the first the sum of all data, which is the aggregated value of the key, and the fold of the biases; the other operands are unchanged |
| MatrixFold.FoldBiasIsSum | src/FF/headers/FFMatrixData.h:38-57 | the fold has a bias exactly when the first operand has, and then it is the sum of all biases |
| MatrixFold.BiasOrders | src/FF/headers/FFMatrixData.h:38-57 | two orders give the same bias exactly when both or neither begin with an operand that has one |
| MatrixFold.BiasOrderIrrelevantIff | src/FF/headers/FFMatrixData.h:38-57 | no order matters to the bias exactly when all or none of the operands have one |
| MatrixFold.BiasGroups | src/FF/headers/FFMatrixData.h:38-57 | partial folds add up to the fold of the whole exactly when the first part has no bias, the second begins with one, or the biases lost are zero |
| MatrixJoin.Project | src/FF/headers/FFInputLayerJoin.h:34-106 | the block product with the bias row added to every row, or the mismatch exit; for a column times a row every cell is the product of two numbers plus the bias of its column |
| MatrixJoin.MultiplyCell | src/FF/headers/FFInputLayerJoin.h:86-98 | a cell of the product block is the inner product plus the bias of its column |
| MatrixJoin.JoinMembers | src/FF/headers/FFInputLayerJoin.h:22-32 | the join yields exactly the products of pairs with equal inner block index |
| MatrixJoin.JoinedCell | src/FF/headers/FFInputLayerJoin.h:30-98 | the records of one key sum to the cells of the matrix product plus, if there is a bias, its value once for every inner block |
| MatrixJoin.JoinAggregateIsProduct | src/FF/headers/FFInputLayerJoin.h:22-86 | for every conforming tiling without bias and every order of the records, join and aggregation give a tiling of the product |
| MatrixNetwork.ProjectTransposed | src/FF/headers/FFTransposeMult.h:43-97 | the block product with the transpose, or the mismatch exit; for two columns every cell is the product of two numbers |
| MatrixNetwork.MultiplyTransposedIs | src/FF/headers/FFTransposeMult.h:89 | it is the block product with the transposed block |
| MatrixNetwork.TransposeJoinAggregateIsProduct | src/FF/headers/FFTransposeMult.h:22-89 | for every conforming tiling and order, join and aggregation give a tiling of the product with the transpose |
| MatrixNetwork.TilingPermutes | src/FF/source/SimpleFF.cc:176-184 | a tiling is one in whatever order its blocks are stored |
| MatrixNetwork.ProjectRelu | src/FF/headers/FFReluBiasSum.h:39-90 | every cell is the cell plus the bias of its row where that is not negative, and 0 elsewhere, or the mismatch exit |
| MatrixNetwork.ReluMatrixCells | src/FF/headers/FFReluBiasSum.h:71 | the same of a cell of the whole activated matrix |
| MatrixNetwork.ReluJoinTiles | src/FF/headers/FFReluBiasSum.h:26-84 | joined with a tiled bias column, a tiling becomes a tiling of the activated matrix |
| DenseNetwork.FirstStage | src/FF/source/SimpleFF.cc:150-184 | stage 1 writes a tiling of relu(W1 X^T + b1) |
| DenseNetwork.SecondStage | src/FF/source/SimpleFF.cc:215-248 | stage 2 writes a tiling of relu(W2 Y1 + b2) |
| DenseNetwork.PaddedFirstLayer | src/FF/source/FFMatrixUtil.cc:766-794 | on zero-padded inputs the first layer is right on true rows and zero on padded ones |
| DenseNetwork.PaddedNextLayer | src/FF/source/SimpleFF.cc:215-241 | zero rows add nothing to the next layer whatever weights they meet |
| DenseNetwork.BlockedNetworkIsDense | src/FF/source/SimpleFF.cc:150-248 | both stages, any tilings, any order: relu(W2 relu(W1 X^T + b1) + b2) on the true cells, zero padded rows in y1 |
| TileLoader.CutsPartition | src/FF/source/FFMatrixUtil.cc:755-768 | the blocks partition each dimension, all of the block height but for the last one where padding is off |
| TileLoader.NoFalsePadding | src/FF/source/FFMatrixUtil.cc:781-791 | the loop's coordinate is beyond the total exactly when the true one is |
| TileLoader.FillRow | src/FF/source/FFMatrixUtil.cc:780-797 | one row of a block, or the exit exactly when its condition is met |
| TileLoader.LoadMatrixGeneric | src/FF/source/FFMatrixUtil.cc:729-829 | wherever space runs out, the blocks sent tile the matrix loaded, each once: the zero-padded matrix (or the matrix itself where padding is off), but for blocks whose storing failed; the exit in the loop is not taken |
| TileLoader.LoadedIsPadded | src/FF/source/FFMatrixUtil.cc:801-829 | what is loaded is right exactly when the memory of every block whose storing failed happened to hold its part of the matrix, for the loops do not fill it again |
| TileLoader.RightIffNothingFailedToStore | src/FF/source/FFMatrixUtil.cc:742-829 | over zeroed memory that is: exactly when no block failed to be stored |
| WeightBlocks.CropUndoesPad | model-inference/deduplication/indexing/blocker.py:106-133 | cropping after padding gives back vectors and tables |
| WeightBlocks.CellInOneBlock | model-inference/deduplication/indexing/blocker.py:119-123 | every cell of a padded layer is in exactly one block, which holds it at the remainders |
| WeightBlocks.BlocksHoldWeights | model-inference/deduplication/indexing/blocker.py:119-133 | every cell of every block is the weight at its place, or zero where the block reaches beyond the layer |
| WeightBlocks.SetBlockThenGet | model-inference/deduplication/indexing/blocker.py:229-231 | overwriting a block changes that block, to what was written, and no other |
| WeightBlocks.CropAfterSetBlock | model-inference/deduplication/indexing/blocker.py:202-212 | overwriting a block and cropping changes exactly that block's cells inside the original shape |
| WeightBlocks.BlocksDetermineLayer | model-inference/deduplication/indexing/blocker.py:229-231 | layers with equal blocks are equal |
| WeightBlocks.ReconstructUndoesBlock | model-inference/deduplication/indexing/blocker.py:136-212 | reconstructing a blocked model gives the model |
| WeightBlocks.BlockModel2d | model-inference/deduplication/indexing/blocker.py:156-190 | the padded layers, shapes and counts, or failure exactly when a weight is empty or has another rank |
| WeightBlocks.ModelStorage.Reconstruct | model-inference/deduplication/indexing/blocker.py:193-212 | every layer cropped to its shape |
| WeightBlocks.ModelStorage.SetBlock | model-inference/deduplication/indexing/deduplicator.py:308-309 | the storage with one block replaced |
| BlockOrder.AllCoordsListsEachOnce | model-inference/deduplication/indexing/deduplicator.py:395-401 | the nested loops visit every block of a model exactly once, in row-major order |
| Indexing.Indexer.BuildIndex | model-inference/deduplication/indexing/indexer.py:70-104 | appends every block in order and returns their indices, or refuses a known name and changes nothing |
| Indexing.BuiltIndexResolves | model-inference/deduplication/indexing/indexer.py:86-104 | the finder leads from every coordinate to that block of the list |
| Indexing.Indexer.UpdateIndex | model-inference/deduplication/indexing/indexer.py:106-134 | appends, in order, exactly the blocks not marked deduplicated |
| Indexing.GenerateDetectorOutput | model-inference/deduplication/indexing/deduplicator.py:428-471 | the mapping from rows and numbering, the number of different indices the coordinates lead to, and the new total |
| BlockIndex.RowsMapDuplicates | model-inference/deduplication/indexing/deduplicator.py:446-451 | the rows map exactly the duplicates, each to an equal indexed block |
| BlockIndex.NumberingPredicts | model-inference/deduplication/indexing/deduplicator.py:453-461 | at every point of the walk the next index is the length the list will have, and every block numbered is found in it |
| BlockIndex.PredictedIdsAreCreatedIds | model-inference/deduplication/indexing/indexer.py:113-134 | each coordinate leads to its block in the list update_index makes, and the count returned is that list's length |
| DedupModel.ComparesTrueCells | model-inference/deduplication/indexing/deduplicator.py:181-188 | the cells compared are the block's cells inside the original shape |
| DedupModel.PaddedMeans | model-inference/deduplication/indexing/deduplicator.py:181-188 | a block counts as padded when it is a vector's or some cell of it lies outside the original shape |
| DedupModel.SimilarityIsShare | model-inference/deduplication/indexing/deduplicator.py:251-262 | for every tolerance the similarity is the share of the true cells that differ by at most the tolerance |
| DedupModel.SimilarityIsFull | model-inference/deduplication/indexing/deduplicator.py:251-262 | it is 1 exactly when all of them do |
| DedupModel.BestMatchIsMostSimilar | model-inference/deduplication/indexing/deduplicator.py:251-302 | the first of the most similar candidates above zero and not below the threshold, and none exactly when there is none |
| DedupModel.SearchFinds | model-inference/deduplication/indexing/deduplicator.py:193-302 | something is found for a block exactly when its layer has several blocks and some candidate is above zero and not below the threshold |
| Deduplicator.FindMostSimilar | model-inference/deduplication/indexing/deduplicator.py:251-302 | the candidate loop computes that choice |
| Deduplicator.DeduplicateBlock | model-inference/deduplication/indexing/deduplicator.py:157-359 | one turn of the main loop: the whole new state of storage, model, lists and counters |
| Deduplicator.FillRemaining | model-inference/deduplication/indexing/deduplicator.py:395-414 | blank rows for the blocks without one |
| Deduplicator.DeduplicateModel | model-inference/deduplication/indexing/deduplicator.py:60-426 | the table, the storage and the model of the specified run, or the exception when there is no row |
| Deduplicator.AddModel | model-inference/deduplication/indexing/run_hetero_model_exp4.py:68-90 | deduplicate, predict, then update: the mapping resolves in the updated index, the count is its size, and the index only grows, by blocks of its size |
| DedupTheorems.VisitStores | model-inference/deduplication/indexing/deduplicator.py:193-309 | a turn sees the block as it was at first and changes no other block |
| DedupTheorems.SweepResult | model-inference/deduplication/indexing/deduplicator.py:157-367 | after the loop the first blocks in order are visited and recorded, and every block is its match or unchanged |
| DedupTheorems.SettleKeepsRows | model-inference/deduplication/indexing/deduplicator.py:372-393 | after the final evaluation all rows are left if the loss is within stop_acc_drop, and those up to the last evaluation if not |
| DedupTheorems.TableIsPermutation | model-inference/deduplication/indexing/deduplicator.py:325-414 | one row for every block and columns of equal length, the kept rows saying what was found and the others blank; no table exactly without blocks and without a loss |
| DedupStops.StopRule | model-inference/deduplication/indexing/deduplicator.py:326-393 | blocks are visited until the accuracy last measured is below the original by more than stop_acc_drop, and no further; the accuracies recorded; and exactly the rows that stay |
| DedupStops.EvaluationsAre | model-inference/deduplication/indexing/deduplicator.py:316-334 | the model is evaluated after every replacement if the step is 1, and otherwise after every eval_step - 1 updates |
| DedupTheorems.TableMatchesStorage | model-inference/deduplication/indexing/deduplicator.py:306-393 | a deduplicated row names an indexed block equal to the stored one, also after cutting back |
| DedupTheorems.ChainResolves | model-inference/deduplication/indexing/deduplicator.py:440-471 | over any chain of models, from any index of the same block size, every stage runs, its mapping leads to its model's blocks in the index after that model and after all later ones, and its count is the size of the index |
| DedupTheorems.ChainRuns | model-inference/deduplication/indexing/indexer.py:106-134 | the index keeps its block size, so that the next model can be deduplicated against it |
| DedupTheorems.ServedModelIsStored | model-inference/deduplication/indexing/deduplicator.py:467-471 | a model put together from shared blocks is the model deduplication left |
| DedupTheorems.ModelFollowsStorage | model-inference/deduplication/indexing/deduplicator.py:307-312 | the model always holds what its storage holds |
| DedupTheorems.ZeroToleranceIsLossless | model-inference/deduplication/indexing/deduplicator.py:257-302 | with tolerance 0 and threshold 1 no weight of the model changes |
| ExactMatch.EntryIsLast | model-inference/deduplication/indexing/baseline.py:51-57 | an entry is the last block with its hash, and every hash has one |
| ExactMatch.HitIff | model-inference/deduplication/indexing/baseline.py:84-105 | a block is deduplicated exactly when its layer has several blocks and the last indexed block with its hash is equal |
| ExactMatch.NoCollisionFindsAll | model-inference/deduplication/indexing/baseline.py:93-105 | without collisions that is: exactly when it is in the index |
| ExactMatch.CollisionHides | model-inference/deduplication/indexing/baseline.py:55-56 | a collision can hide an indexed block |
| ExactMatch.MistiqueExactMatch | model-inference/deduplication/indexing/baseline.py:8-178 | no weight changes whatever the collisions, no early stop unless the threshold is negative, one row for every block with the hit found |
| PartitionedLoader.Loader.AllocateMyData | src/FF/source/FFMatrixUtil.cc:236-264 | an empty block of the right height; nothing stored is lost when space runs out |
| PartitionedLoader.Loader.PushBackMyData | src/FF/source/FFMatrixUtil.cc:316-334 | the block follows everything stored before, space or not |
| PartitionedLoader.LineTaken | src/FF/source/FFMatrixUtil.cc:684-706 | a line goes to the next row; a full block is the block expected |
| PartitionedLoader.Loader.LoadPartition | src/FF/source/FFMatrixUtil.cc:659-716 | the partition's set receives exactly its blocks, the file is read that far, and other sets are untouched |
| PartitionedLoader.Loader.LoadMatrixGenericFromFile | src/FF/source/FFMatrixUtil.cc:629-717 | every partition's set receives its blocks and no other set any, the rows received in partition and dispatch order are the first totalX lines, and the file is read no further |
| PartitionedLoader.SizesAddUp | src/FF/source/FFMatrixUtil.cc:631-646 | partition sizes are never negative and add up to the total |
| PartitionedLoader.RowsAreConserved | src/FF/source/FFMatrixUtil.cc:643-717 | the blocks the partitions should receive hold the first totalX lines of the file, once each and in order |
| PartitionedLoader.PartitionsAreShaped | src/FF/source/FFMatrixUtil.cc:241-246 | with enough lines, blocks are filled, numbered and of full height but for a final remainder, and heights add up to the partition's size |
| PlanGraph.AtomicComputationList.AddAtomicComputation | src/logicalPlan/source/AtomicComputationList.cc:38-60 | the index agrees with the list of computations added |
| PlanGraph.AtomicComputationList.GetProducingAtomicComputation | src/logicalPlan/source/AtomicComputationList.cc:10-19 | the last computation added that produces the name |
| PlanGraph.AtomicComputationList.GetConsumingAtomicComputations | src/logicalPlan/source/AtomicComputationList.cc:22-29 | the computations that consume the name, in order of addition |
| PlanGraph.ConsumersConsume | src/logicalPlan/source/AtomicComputationList.cc:45-56 | a computation is listed under a name exactly when the name is its input or, for a join, its right input |
| PlanGraph.ConsumersInOrder | src/logicalPlan/source/AtomicComputationList.cc:45-56 | consumers are listed in the order in which they were added |
| PlanGraph.ProducerIsLast | src/logicalPlan/source/AtomicComputationList.cc:10-19 | the producer of a name is the last computation added that produces it |
| PlanGraph.SearchIsExact | src/builtInPDBObjects/headers/ComputePlan.cc:64-96 | a path found is a path to the target, and none is found exactly when there is none |
| PlanGraph.PathSearch.Recurse | src/builtInPDBObjects/headers/ComputePlan.cc:64-96 | ends on every acyclic plan; true extends the list by the path, false restores it |
| PlanGraph.PathSearch.FindPath | src/builtInPDBObjects/headers/ComputePlan.cc:616-636 | the list is a chain of consumers from the source to the target that takes at every step the first consumer leading there, or empty when the target is unreachable |
| PipelineBuilder.StagesAreWired | src/builtInPDBObjects/headers/ComputePlan.cc:706-859 | one stage for each computation, in order, on the previous output, reading the side of that name, with the parameter given for its own output name |
| PipelineBuilder.PathIsChained | src/builtInPDBObjects/headers/ComputePlan.cc:706-859 | along a path every stage reads the set the one before it produces |
| PipelineBuilder.OthersGetNoStage | src/builtInPDBObjects/headers/ComputePlan.cc:706-859 | scans, aggregations, writes and partitions get no stage, all other computations one |
| PipelineBuilder.BuildBySearch | src/builtInPDBObjects/headers/ComputePlan.cc:586-862 | the process ends exactly when the target is unreachable; otherwise the wired stages of the first path to it |
| PipelineBuilder.BuildFromList | src/builtInPDBObjects/headers/ComputePlan.cc:306-584 | the wired stages of the producers of the names; the null pointer exactly for an empty list or a missing producer |
| PipelineBuilder.ListStandsForPath | src/builtInPDBObjects/headers/ComputePlan.cc:415-578 | the source and a path's output names stand for the computations of the path exactly when none of them is shadowed by a later producer of its output, and then build the same stages |
| PipelineBuilder.BuildBothWays | src/builtInPDBObjects/headers/ComputePlan.cc:306-862 | for the list of the path the search finds, both overloads build a pipeline; the list stands for that path exactly when it is not shadowed, and then the results are equal |
| PipelineBuilder.OverloadsAgree | src/builtInPDBObjects/headers/ComputePlan.cc:415-578 | in particular, with one producer for each name nothing is shadowed and the stages agree on every path |
| PipelineBuilder.TwoProducersDiffer | src/logicalPlan/source/AtomicComputationList.cc:44 | when a computation of the path is shadowed, the stages can differ |

## Left out

- BufferManagement.BufferManager.GetPinnedPage: requires HasRoom where the source would read past the end of an empty set; the null result after a failed eviction is therefore not modelled.
- BufferManagement.BufferManager.GetPage: requires that the tick is not at the end of its range; a null table, which ends the process, and the opening of files are not modelled.
- BufferManagement.BufferManager.Unpin: requires a pinned page, as its callers provide; inserting a page that is already listed would change the key of a set member.
- BufferManagement.BufferManager.Destroy: frees and closes nothing; it states what the loop over allPages leaves on disk.
- BufferManagement.PageHandle.Store: allowed while the page is resident; that wroteBytes precedes an eviction is required of the client, as the header demands, and stores through a pointer to a frame that has changed hands are not modelled.
- BufferManagement.PageHandle.GetBytes: says nothing about the contents of a pinned temporary page before its first write, which the source does not read from disk.
- PoolRuns.HandlesShowTheMap: the disk is a total map from slots to contents, so short reads past the end of a file are not modelled.
- MatrixAggregation.MatrixData.Add: exact real arithmetic instead of float.
- MatrixAggregation.AggregateSums: the values of the table are the data; what becomes of the bias is stated in MatrixFold.
- MatrixJoin.Project: the library product of two blocks is taken to be the product of the matrices; totals kept in block metadata are not modelled.
- MatrixNetwork.ProjectRelu: dropout rate 0 only.
- DenseNetwork.BlockedNetworkIsDense: every inner dimension has at least one block; the output layer and its softmax are not modelled, their flat index having the wrong stride for blocks that are not square.
- TileLoader.LoadMatrixGeneric: an allocation that fails again in a fresh allocation block is not modelled, nor is a dispatcher that refuses the data; random draws are a parameter.
- WeightBlocks.BlockModel2d: block magnitudes and discretised weights are not computed; the order by magnitude is an arbitrary order of all blocks.
- Indexing.Indexer.BuildIndex: indexed blocks are values, while the source keeps views of the model's arrays; the scripts do not change a model's arrays once its blocks are in the index.
- Indexing.Indexer.UpdateIndex: coordinates are compared as coordinates, not as the strings printed from them.
- Deduplicator.DeduplicateBlock: the fine-tuning of the model within the loop is not modelled.
- Deduplicator.AddModel: the method that fine-tunes, one of the three the script can call, is not covered.
- Deduplicator.DeduplicateModel: without fine-tuning; candidate search (pairwise, LSH or from an earlier run) and accuracy are parameters, timings are left out, and no accuracy is guaranteed for the weights left behind.
- ExactMatch.MistiqueExactMatch: equal blocks have equal bytes, so signed zeros and NaN are not modelled.
- PartitionedLoader.Loader.LoadMatrixGenericFromFile: csv only; a line is an opaque row, and an allocation that fails again in a fresh allocation block is not modelled.
- PlanGraph.PathSearch.Recurse: the plan is acyclic, as a search on a cyclic plan need not end.
- PipelineBuilder.BuildFromList: computations and executors are records of what they are made of; sources, sinks and the projections the overloads compute for them are not modelled.
- PipelineBuilder.BuildBySearch: the sink lookup is not modelled; it also writes the consumer's projection over the output of the target computation, which the stages do not read but for its name.
- Approximate matching and LSH, the LSTM, the fully connected network, the reinforcement-learning server, catalog, messages and storage services are not part of this model.
- Sparse and svm loading, and the block types whose `operator+` enlarges blocks, are not part of this model.
