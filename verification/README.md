# Models of ELDR and vLLM algorithms in Dafny

ELDR routes decode requests by the experts their prefill used. This project models the algorithms
behind it, and self-contained algorithms of the serving engine it extends, and proves properties
of the models.

| file | component |
|---|---|
| `SignatureCounts.dfy`, `SignatureRuns.dfy` | expert counts per KV block, the batch of a step, and the signatures it sends |
| `PrefixCaching.dfy` | whole runs: prefix cache, block pool, scheduler steps, chunked prefill and signatures together |
| `BalancedKMeans.dfy`, `CentroidUpdate.dfy`, `LocalityRouting.dfy` | clustering, background refits and locality-band routing |
| `PrefixHash.dfy`, `Proxy.dfy` | prefill routing, and the request path of the proxy |
| `FreeBlockQueue.dfy`, `BlockPool.dfy`, `PoolQueue.dfy` | the KV-cache block pool: linked free list, reference counts, prefix-cache table |
| `CuMemChunks.dfy`, `CuMemAllocator.dfy` | the chunked GPU memory allocator (ROCm branch), with a driver whose calls may fail at any time |
| `PartitionSignature.dfy`, `MemoryPlan.dfy` | graph partition signatures and memory planning of bracketed subgraphs |
| `FlatLogprobs.dfy` | flattened log-probabilities |
| `OutputMerge.dfy`, `RequestOutput.dfy` | merging of streamed outputs |
| `BadWords.dfy` | masking of bad words |
| `Int8Quant.dfy`, `GatherIndex.dfy` | per-token int8 quantization and the index arithmetic of the cache gather |
| `Spans.dfy`, `NinjaReport.dfy`, `NinjaLog.dfy` | the weighted-time report over a ninja build log |
| `IndexRanges.dfy` | range notation for layer indices |
| `Common.dfy`, `Vectors.dfy` | shared notions and linear algebra |

Conventions. Times, scores, log-probabilities, scales and vectors are exact reals. A logit is a
real or minus infinity. Fixed-width integers wrap explicitly. A Python dictionary whose order
matters is a sequence of entries with distinct keys. Raised exceptions and failed assertions are
results. Objects the source updates in place are classes, and loops stay loops, each proved against
a specification. What threads, workers, drivers and clients do is chosen freely.

What the main results say:

- **Signatures are exact.** Over every run of the scheduler's lookups, allocations, chunked prefill
  rows, removals and evictions, a step sends a signature for exactly the requests whose prompt it
  completes, and every number is the exact count of the gate's choices for the prompt. A request may
  start on blocks of earlier requests, or on blocks that another row of the same batch is only about
  to write. The batch may hold its rows in any order, the kernel may execute its programs in any
  order, and the 8-bit and 16-bit cells never overflow.
- **The prefix cache is truthful.** The scheduler caches blocks before their tokens are computed. At
  every moment a block found under a key holds that token prefix, or a row in flight is about to
  write it. The priority policy may withdraw a scheduled row and leave its hashes; the exact condition
  under which everything stays in order is stated, and runs may withdraw every row that meets it. Without
  prefix caching every row does.
- **Clustering.** The replicated assignment problem solves the capacity-constrained one optimally,
  the moved centroids are the best for their clusters, an iteration never lowers the total
  similarity, and a fit ends at the first iteration that hardly moves the centroids.
- **Refits and routing.** Over every run the window is exact, at most one fit is pending, fits are
  an interval apart, and a finished fit was made for the centroids it replaces, improves on them and
  leaves every decoder its own.
  A request goes to the least loaded worker of its band.
- **Proxy.** Over every interleaving and every prefill answer the in-flight counters are exact, no KV
  transfer is resolved twice, and one is resolved exactly when its answer does not crash the unpacking.
  A request goes to a decoder exactly when its answer says that the completion goes on, a transfer is
  released only if no decoder can have it, and a request is answered exactly if nothing failed.
- **Block pool.** The linked free list refines a sequence, and the pool on top of it keeps the list
  equal to the unreferenced blocks and the hash table equal to the blocks' hashes. Over every run a
  block is referenced exactly by the requests that use it.
- **Allocator.** The chunk plan is right exactly when no 64-bit sum wraps. Each outcome has an exact
  series of driver calls, arguments included. Over every run of wakes and sleeps the reservation holds nothing but its
  own tiles, which partition the range.
- **Partition signatures and planning.** Running the partitions forward never misses a buffer that is
  read, written or returned, and every listed input is there exactly when no partition frees an
  unallocated buffer of another. The planning loop refines a plan over the
  tree of subgraphs.
- **Weighted time.** One pass with one accumulator gives every task exactly its declarative share.
  The shares do not depend on ties or on the order of entries, and add up to the busy time.
- **Log-probabilities, outputs, bad words.** The flat structure reads as the plain list does. Every
  grouping of deltas that succeeds gives the same response, and the streams of which every grouping
  succeeds are characterized. A sequence of tokens can be generated exactly when it contains no bad
  word.

Properties that do not hold of the code on all inputs are stated with their exact condition:
`CuMemChunks.PlanChunks`, `CuMemAllocator.Driver.CreateAndMap`, `NinjaReport.CollectEvents`,
`PartitionSignature.SignaturesSound` (with `PartitionSignature.FreedNoneLayoutIsUnsound`),
`MemoryPlan.Wrapper.MemoryPlanReuse` (with `MemoryPlan.UnbalancedAccepted`),
`PrefixCaching.WithdrawKeeps` (with `PrefixCaching.WithdrawnRowLies` and `PrefixCaching.WithdrawnSignatureWrong`),
`BalancedKMeans.Fit` (with `BalancedKMeans.LongSeedWins`),
`BlockPool.BlockPool.FreeBlocks`, `Spans.ParallelismAtLeastOne` (with `Spans.IdleParallelismBelowOne`),
`FlatLogprobs.BackwardSlice`, `OutputMerge.EveryGroupingSucceeds`,
`Proxy.Drained` (with `Proxy.TransferLost` and `Proxy.LosingAnswer`), `GatherIndex.LocateToken`,
`GatherIndex.ColumnsInTable`, `GatherIndex.ScaleOffset`.

Where the code and its documentation differ, the model follows the code:

- vllm/_xpu_ops.py: the docstring (563-566) places the scales after all keys of a block, line 616 after
  one row; line 590 reads the block table with a 1-based position.
- vllm/env_override.py: the comment at 251-252 excludes weak dependencies from a partition's inputs,
  the code keeps them.
- tools/report_build_time_ninja.py: the docstring at 105 promises targets sorted by duration, line 148
  returns them by first appearance; the comment at 258 says half a second, line 259 compares seconds
  with 500.

## Model

| member | source | states |
|---|---|---|
| `SignatureCounts.Histogram` | vllm/eldr/counts.py:29-38 | the valid picks of a block's first program are exactly the experts of the block's tokens in the batch |
| `SignatureCounts.Program` | vllm/eldr/counts.py:23-44 | the program of a block's first token counts the batch's tokens of its block and layer, on top of the old counts unless offset 0 is written, as 8 bits; every other program changes nothing |
| `SignatureCounts.RunCounts` | vllm/eldr/counts.py:28-44 | counting a block's tokens at once, on top of the old count unless offset 0 is written, equals writing them one by one |
| `SignatureCounts.ReduceCounts` | vllm/eldr/counts.py:47-74 | for every order of the programs each cell ends with the count of the batch's tokens of its block |
| `SignatureCounts.UsesAreChoices` | vllm/eldr/counts.py:29-38 | a count is the number of choices, one for every token and every rank at which the token chose the expert |
| `SignatureCounts.UsesTotal` | vllm/eldr/counts.py:29-38 | no choice is missed: the counts of a row add up to the number of choices its tokens made |
| `SignatureCounts.CountedIsWritten` | vllm/eldr/counts.py:43-44 | that is what writing the tokens one by one gives, a block forgetting its tokens when offset 0 is written |
| `SignatureCounts.SumRow` | vllm/eldr/batch_sum.py:26-45 | the tiled sum over a request's blocks is the sum of their cells as 16 bits; a discarded row is zero |
| `SignatureCounts.UsesBound` | vllm/eldr/counts.py:58-59 | an expert is counted at most once per token, so a block count never exceeds the tokens of the block |
| `SignatureCounts.StoredExactly` | vllm/eldr/transport.py:45-48 | 8 bits hold a count exactly when it is at most 127, 16 bits exactly when it is at most 32767 |
| `SignatureRuns.SlotParts` | vllm/v1/worker/block_table.py:361-379 | the slot of a position lies in the table's block for it, at the position's offset |
| `SignatureRuns.OwnStep` | vllm/eldr/counts.py:43-44 | a further token of a request is stored behind what the request stored in that block, and the block never grows past its size |
| `SignatureRuns.OrderIrrelevant` | vllm/eldr/transport.py:128-135 | rows that write no common block leave the same contents in every order of the batch |
| `SignatureRuns.TidyBatch` | vllm/eldr/counts.py:47-48 | such a batch has the contiguity the kernel relies on: tokens of one block are neighbours in consecutive slots |
| `SignatureRuns.BlocksAreHistory` | vllm/eldr/batch_sum.py:28-45 | the blocks of a request, the last one partly filled, count exactly the tokens of its computed prompt |
| `SignatureRuns.CellsAreExact` | vllm/eldr/batch_sum.py:33-45 | with blocks below 128 tokens the stored cells add up to the exact counts |
| `SignatureRuns.FinishingRows` | vllm/eldr/transport.py:51-64 | selects exactly the rows whose last prompt token is computed; fails exactly when a token after a prompt is scheduled |
| `SignatureRuns.TableComplete` | vllm/eldr/transport.py:145-148 | the check for an incomplete block table never fails: a row that completes its prompt has all blocks of the prompt |
| `SignatureRuns.SentExact` | vllm/eldr/batch_sum.py:26-45 | what is sent for a computed prompt equals the exact count per layer and expert |
| `SignatureRuns.Prepare` | vllm/eldr/transport.py:115-158 | the step's tokens are counted and the block sums sent for every request it completes and for no other; a scheduled decode token is refused before anything is counted |
| `PrefixCaching.EnteredStored` | vllm/v1/core/kv_cache_manager.py:202-213 | a request that starts on blocks found under the hashes of its prompt finds its prefix in them |
| `PrefixCaching.EnterKeeps` | vllm/v1/core/kv_cache_manager.py:380-391 | looking up and touching cached blocks keeps the invariant, also for blocks that a row in flight has yet to write |
| `PrefixCaching.NewAllocatable` | vllm/v1/core/single_type_kv_cache_manager.py:260-269 | blocks handed out by the pool are in no request's table |
| `PrefixCaching.AllocateKeeps` | vllm/v1/core/single_type_kv_cache_manager.py:242-269 | giving a request blocks from the pool keeps the invariant |
| `PrefixCaching.ComputeKeeps` | vllm/v1/core/kv_cache_manager.py:405-414 | scheduling tokens and caching the blocks they complete keeps the invariant: every cached block holds its prefix once the scheduled rows are computed |
| `PrefixCaching.NeverCachedTwice` | vllm/v1/core/block_pool.py:237-264 | the assertions of cache_full_blocks never fail: the blocks to cache differ and have no hash, and there are enough hashes |
| `PrefixCaching.ReleaseKeeps` | vllm/v1/core/single_type_kv_cache_manager.py:303-318 | giving back a request's blocks is always allowed and keeps every reference count the number of requests using the block |
| `PrefixCaching.ForgetKeeps` | vllm/v1/core/block_pool.py:424-476 | evicting blocks or resetting the cache keeps the invariant |
| `PrefixCaching.NewRowApart` | vllm/v1/core/sched/scheduler.py:426-484 | a row scheduled in a step writes no block that an earlier row of the step writes |
| `PrefixCaching.TraceKeeps` | vllm/v1/core/sched/scheduler.py:426-787 | at every moment of a step, whatever is looked up, scheduled, given back or evicted, the invariant holds and the rows write no block twice |
| `PrefixCaching.CachedHolds` | vllm/v1/core/kv_cache_manager.py:405-414 | a cached block holds its prefix or a row in flight is about to write it, and holds it once the rows are computed |
| `PrefixCaching.BatchReady` | vllm/eldr/transport.py:115-135 | the batch of a step, in every order of its rows, meets what the transport and its kernel need and computes what the scheduler reckoned with |
| `PrefixCaching.StepKeeps` | vllm/eldr/transport.py:115-158 | a whole step keeps the invariant and the cells that count their blocks |
| `PrefixCaching.RunKeeps` | vllm/eldr/transport.py:115-158 | the invariant holds after every step of every run: exact references, truthful cache, stored prompts, exact cells |
| `PrefixCaching.RunCached` | vllm/v1/core/block_pool.py:184-209 | over every run and at every moment a block found under a key holds that prefix, or a row in flight is about to write it |
| `PrefixCaching.SignaturesExact` | vllm/eldr/transport.py:115-158 | over every run, whatever prefix was reused, from earlier requests or from rows of the same batch, and however prompts were chunked: a step sends for exactly the requests whose last prompt token it computes; every sent number is the number of positions and ranks at which the gate chose the expert, and a row adds up to the choices per token times the length of the prompt |
| `PrefixCaching.CompletedSent` | vllm/eldr/transport.py:51-64 | a request whose prompt becomes complete in a step is sent for in that step |
| `PrefixCaching.RunSnug` | vllm/v1/core/single_type_kv_cache_manager.py:260-269 | over every run a request holds exactly the blocks of its computed tokens |
| `PrefixCaching.ContinuationEvictedFirst` | vllm/v1/core/single_type_kv_cache_manager.py:311-317 | of the blocks a leaving request gives back, one that continues another is evicted before it |
| `PrefixCaching.SameStepReuse` | vllm/v1/core/sched/scheduler.py:576-580 | two prompts with a common first block in one batch: the second starts on a block that the first has yet to write |
| `PrefixCaching.WithdrawTruthful` | vllm/v1/core/sched/scheduler.py:441-468 | when a request scheduled in a step is preempted in the same step, cached blocks stay truthful exactly when each cached block it was to write already held its prefix |
| `PrefixCaching.WithdrawHarmless` | vllm/v1/core/sched/scheduler.py:914-933 | a row that completes no block meets the condition of WithdrawKeeps |
| `PrefixCaching.WithdrawKeeps` | vllm/v1/core/sched/scheduler.py:441-468 | withdrawing a scheduled row keeps the whole invariant exactly when each block it was to write, if cached or used by another request, already held those tokens; runs may withdraw every such row |
| `PrefixCaching.UncachedRunWithdraws` | vllm/v1/core/sched/scheduler.py:441-468 | over every run without prefix caching, at every moment, every scheduled row meets the condition |
| `PrefixCaching.WithdrawnRowLies` | vllm/v1/core/sched/scheduler.py:441-468 | a case where the condition fails: a block stays cached for a token it never received |
| `PrefixCaching.WithdrawnSignatureWrong` | vllm/eldr/transport.py:115-158 | in that case the next request with the same prompt starts on the block, and whatever is sent for it is not the gate's count for the prompt |
| `BalancedKMeans.ColumnsBalanced` | eldr/serving/clustering.py:40-53 | distinct slots put at most cap points into each cluster |
| `BalancedKMeans.BalancedHasColumns` | eldr/serving/clustering.py:41-53 | every assignment with at most cap points per cluster is one of distinct slots |
| `BalancedKMeans.BalancedOptimal` | eldr/serving/clustering.py:24-32 | the cluster assignment read from a cheapest slot assignment has the largest total similarity among all assignments with at most cap points per cluster |
| `BalancedKMeans.PlainOptimal` | eldr/serving/clustering.py:88 | taking the best centroid for each point gives the largest total similarity of all assignments |
| `BalancedKMeans.Regroup` | eldr/serving/clustering.py:54-56 | the total similarity is the sum over clusters of the summed points times the centroid |
| `BalancedKMeans.SumSquare` | eldr/serving/clustering.py:54-59 | for non-negative unit points the squared length of a cluster's sum is at least its size |
| `BalancedKMeans.CenterImproves` | eldr/serving/clustering.py:54-59 | the normalized mean of non-negative points is never short enough to be clipped; it is a unit vector, and no vector of length at most 1 is more similar to the points; the centroid of an empty cluster becomes at most unit length |
| `BalancedKMeans.UpdateImproves` | eldr/serving/clustering.py:54-63 | whatever the old centroids, the moved ones are at most unit length, and no centroids of length at most 1 are more similar to the clusters; a centroid without points keeps its direction |
| `BalancedKMeans.IterationKeeps` | eldr/serving/clustering.py:44-63 | after the first, one whole iteration never lowers the total similarity; the first does not fall behind the seeds unless the positive components of one are longer than 1 |
| `BalancedKMeans.Cap` | eldr/serving/clustering.py:40 | the capacity is the least one with room for all points |
| `BalancedKMeans.PreparedShort` | eldr/serving/clustering.py:42-43 | the balanced fit divides its seeds to length at most 1, unit vectors unless clipped; the plain fit starts from short vectors exactly if its seeds are; unit seeds are left as they are |
| `BalancedKMeans.Fit` | eldr/serving/clustering.py:39-64 | the fit is a series of iterations from the prepared seeds, ending at the first that hardly moves the centroids or after the given number; from any seeds the centroids are at most unit length after one iteration, unit if those started from are, and the best ones for the last clustering; that clustering is at least as similar as any competing one around the centroids started from, for the plain fit if the positive components of every seed have length at most 1 |
| `BalancedKMeans.TrailImproves` | eldr/serving/clustering.py:44-63 | over the iterations of a fit the total similarity never falls |
| `BalancedKMeans.LongSeedWins` | eldr/serving/clustering.py:84-99 | the condition is exact: against any other seeds there is a point that no plain fit clusters as well as the seeds do |
| `CentroidUpdate.MatchingOnto` | eldr/serving/centroid_update.py:60-64 | every fitted centroid goes to exactly one decoder |
| `CentroidUpdate.AlignmentKeepsIdentity` | eldr/serving/centroid_update.py:53-64 | when a fit only reorders the centroids, alignment returns each to its decoder |
| `CentroidUpdate.AlignKeeps` | eldr/serving/centroid_update.py:53-64 | alignment keeps unit centroids and, after relabelling, their improvement and balance |
| `CentroidUpdate.AlignedInOrder` | eldr/serving/centroid_update.py:60-64 | after alignment no other order of the centroids is more similar to the old ones |
| `CentroidUpdate.ReorderedIsSame` | eldr/serving/centroid_update.py:53-64 | unit centroids in that order that only reorder the old ones are the old ones |
| `CentroidUpdate.RunRefit` | eldr/serving/centroid_update.py:27-50 | a fit, iteration by iteration, followed by an alignment that only reorders: unit centroids, best for a clustering of the window that is at least as similar as any competing one around the old centroids, in the order most similar to the old ones; a fit that only reorders the old centroids returns them as they were |
| `CentroidUpdate.CentroidUpdater.Create` | eldr/serving/centroid_update.py:74-118 | succeeds exactly for positive times and non-zero seeds; starts valid with the seeds divided by their lengths, no history and no fit |
| `CentroidUpdate.CentroidUpdater.PollRefit` | eldr/serving/centroid_update.py:188-205 | a finished fit is installed and counted unless it failed or the updater is closed, and a failure is reported until the next success; every fit stays accounted for; for proper signatures the installed centroids are unit vectors, improve on the replaced ones, and leave every decoder its own |
| `CentroidUpdate.CentroidUpdater.ExpireSignatures` | eldr/serving/centroid_update.py:152-155 | popping from the left leaves exactly the accepted signatures of the window |
| `CentroidUpdate.CentroidUpdater.MaybeStartRefit` | eldr/serving/centroid_update.py:157-186 | a fit starts exactly when open, none is pending, one signature per decoder is there, a whole window was seen and the interval has passed |
| `CentroidUpdate.CentroidUpdater.Accept` | eldr/serving/centroid_update.py:134-137 | a signature joins the window and the history |
| `CentroidUpdate.CentroidUpdater.Update` | eldr/serving/centroid_update.py:125-139 | keeps over every run: the window is exact, fits are an interval apart and used exactly their window, at most one is pending and it works on the centroids still in use; a fit of the window is started exactly when due; with proper signatures the centroids are always unit vectors, and each installed fit improves on the one before and keeps its order; returns the current centroids |
| `CentroidUpdate.CentroidUpdater.Close` | eldr/serving/centroid_update.py:207-214 | the updater is closed and keeps its invariants; a pending fit that has not started is cancelled and can then only be reported as raised; by Update no later fit is started or installed |
| `CentroidUpdate.RouteOwned` | eldr/serving/centroid_update.py:266-273 | performs the update, then routes to the least loaded worker of the band around the current centroids; a wrong number of loads is refused before any change |
| `LocalityRouting.LocalityCandidates` | eldr/serving/routing.py:10-12 | exactly the workers within tau of every score, ascending |
| `LocalityRouting.Route` | eldr/serving/routing.py:15-30 | the chosen worker is in the band, least loaded there and the first such; fails exactly on a negative tau or mismatched sizes |
| `LocalityRouting.RoutedUnique` | eldr/serving/routing.py:29-30 | the choice is determined |
| `LocalityRouting.WiderBand` | eldr/serving/routing.py:10-12 | a wider band never leads to a busier worker, and the similarity lost is at most tau |
| `LocalityRouting.BandExtremes` | eldr/serving/routing.py:10-12 | tau 0 picks a best match; a band holding all workers picks by load alone |
| `PrefixHash.BisectLeft` | eldr/serving/prefix_hash.py:116 | splits the sorted ring into positions below and not below the hash |
| `PrefixHash.RingLookup` | eldr/serving/prefix_hash.py:114-119 | finds the first entry met going round from the hash |
| `PrefixHash.Consistent` | eldr/serving/prefix_hash.py:69-76 | adding workers moves keys only to the added workers |
| `PrefixHash.FirstUnique` | eldr/serving/prefix_hash.py:69-76 | the owner depends on the entries alone, not on their order |
| `PrefixHash.LeastBelowThreshold` | eldr/serving/prefix_hash.py:103-112 | the least loaded worker always passes the load gate |
| `PrefixHash.PassesIff` | eldr/serving/prefix_hash.py:103-108 | the gate lets a worker pass exactly when its load times the number of workers is at most the factor times all loads and the incoming request |
| `PrefixHash.Select` | eldr/serving/prefix_hash.py:78-112 | the ring owner when it passes the gate, else the least loaded worker; the chosen worker always passes the gate; exact error cases, an empty ring among them |
| `Proxy.FinalizeFollows` | eldr/serving/proxy.py:273-281 | the finally block gives the decoder back and releases exactly what was not submitted |
| `Proxy.ProceedFollows` | eldr/serving/proxy.py:217-248 | after the first token the counters follow the request: a decoder is counted exactly while the request is at it |
| `Proxy.ProceedOutcome` | eldr/serving/proxy.py:217-248 | an answer that does not continue ends here and is released; one that continues goes to the chosen decoder unless it lacks its creation time |
| `Proxy.HandoffUnpacked` | eldr/serving/prefill_first.py:39-55 | an answer with one choice, the announced first token and the announced prompt length is unpacked |
| `Proxy.UnpackedHandoff` | eldr/serving/prefill_first.py:39-55 | only such answers are unpacked, and the result is what they say of going on |
| `Proxy.UnresolvableIff` | eldr/serving/prefill_first.py:39-55 | unpacking a pending answer raises something other than the gateway error exactly when its choices have no length or hold one thing that is no dictionary at index 0 |
| `Proxy.NextKeeps` | eldr/serving/proxy.py:173-281 | every step between two awaits, for every prefill answer, keeps counters exact and transfers unresolved or resolved once |
| `Proxy.NextOutcomes` | eldr/serving/proxy.py:173-281 | every step keeps how requests end: posted only if the answer continues, released only if no decoder can have the transfer and through the first other decoder, answered exactly if nothing failed |
| `Proxy.RunSafe` | eldr/serving/proxy.py:173-281 | over every interleaving each in-flight counter is the number of requests using the worker; no transfer is released twice or while a decoder may have it; no stream reaches a decoder before its first token; a request is posted to a decoder only if its answer continues, and one that is over or closed as complete was handed to a decoder exactly if its answer continues |
| `Proxy.Drained` | eldr/serving/proxy.py:173-281 | when all requests are over every counter is zero; a request was answered exactly if nothing failed, and a decoder has its transfer exactly if the request was posted to one that could be reached; a transfer is at a decoder or released, exactly one of the two and once, exactly when its prefill answer does not crash the unpacking; otherwise it is neither |
| `Proxy.TransferLost` | eldr/serving/proxy.py:204-210 | after every answer that crashes the unpacking with a transfer pending, that transfer is neither fetched nor released |
| `Proxy.LosingAnswer` | eldr/serving/prefill_first.py:42-46 | choices that are null or hold null are such answers |
| `Proxy.ReleaseElsewhere` | eldr/serving/proxy.py:277-281 | a release avoids the request's decoder whenever there is another |
| `Spans.GridIndependence` | tools/report_build_time_ninja.py:223-255 | any two grids of time points that contain all starts and ends give a task the same weighted time |
| `Spans.WeightedOrder` | tools/report_build_time_ninja.py:212-219 | listing the same tasks in another order changes no task's weighted time |
| `Spans.WeightedBounds` | tools/report_build_time_ninja.py:74-89 | the weighted time of a forward task is between 0 and its own duration |
| `Spans.Conservation` | tools/report_build_time_ninja.py:251-253 | the weighted times of all tasks add up to the time during which some task runs |
| `Spans.BusyIndependent` | tools/report_build_time_ninja.py:238-255 | the busy time is the same on every grid |
| `Spans.BusyBounds` | tools/report_build_time_ninja.py:220-259 | the busy time is at most latest end minus earliest start, with equality exactly when no instant in between is idle |
| `Spans.ParallelismAtLeastOne` | tools/report_build_time_ninja.py:284-287 | the printed parallelism, CPU time over latest minus earliest, is at least one exactly when the time during which tasks overlap makes up for the idle time, in particular when no instant is idle |
| `Spans.IdleParallelismBelowOne` | tools/report_build_time_ninja.py:220-287 | with an idle stretch the printed parallelism can be below one: two one-second tasks at the ends of eleven seconds |
| `NinjaReport.CollectEvents` | tools/report_build_time_ninja.py:209-221 | the events are each task's start and stop; CPU time is the sum of durations; latest is the greatest of 0 and all ends; earliest is the least start exactly when no start is negative or the last entry starts first |
| `NinjaReport.SortEvents` | tools/report_build_time_ninja.py:223-224 | the sorted events are in key order and a permutation of the input |
| `NinjaReport.AdvanceShares` | tools/report_build_time_ninja.py:240-244 | moving to the next event gives each running task exactly its share of the elapsed segment and every other task nothing |
| `NinjaReport.StopBeforeStart` | tools/report_build_time_ninja.py:248-251 | a stop of a task that is not running belongs to a task that ends before it starts |
| `NinjaReport.SweepDone` | tools/report_build_time_ninja.py:255-256 | after the last event no task is running, every task has its weighted time, and the total is the busy time |
| `NinjaReport.Sweep` | tools/report_build_time_ninja.py:230-256 | for every tie order: succeeds exactly when no task ends before it starts, sets each task's weighted time and returns the busy time |
| `NinjaReport.SummarizeEntries` | tools/report_build_time_ninja.py:198-256 | succeeds exactly on a non-empty list of forward tasks, with all weighted durations and totals as declared; the reported extent is right exactly when the earliest start is found and some end is not negative |
| `NinjaReport.ReportDurations` | tools/report_build_time_ninja.py:272-284 | after a successful summary the assertion of WeightedDuration never fails and every duration is the declared share |
| `NinjaLog.WindowIsBuild` | tools/report_build_time_ninja.py:112-148 | the kept records are a suffix of the well-formed ones, with non-decreasing ends and one start/end pair per command |
| `NinjaLog.WindowStartsAtReset` | tools/report_build_time_ninja.py:124-143 | the suffix starts at a record that did not fit the build kept before it |
| `NinjaLog.FitsIsConsistent` | tools/report_build_time_ninja.py:124-143 | the reader's two tests detect exactly the records that do not fit |
| `NinjaLog.AddRecord` | tools/report_build_time_ninja.py:132-147 | a record adds its output to the target of its command, creating it on first appearance |
| `NinjaLog.RecordsConcat` | tools/report_build_time_ninja.py:112-118 | the records are those of the well-formed lines, in order |
| `NinjaLog.NamesConcat` | tools/report_build_time_ninja.py:144-147 | the outputs of a command are listed in log order |
| `NinjaLog.FirstKeysInOrder` | tools/report_build_time_ninja.py:132-148 | the commands are listed as they first appear |
| `NinjaLog.ReadTargets` | tools/report_build_time_ninja.py:104-148 | the result is one fresh target per command of the kept records, in first-appearance order, with all its outputs |
| `NinjaLog.Report` | tools/report_build_time_ninja.py:315-318 | reading and summarizing succeeds exactly when there is a record and no record of the last build ends before it starts; then weighted durations, busy time and CPU time are as declared, and the extent is right exactly when the earliest start is found and some end is not negative |
| `CuMemChunks.GetMemcreateChunkSize` | csrc/cumem_allocator.cpp:24-42 | the configured megabytes in bytes when positive and representable in 64 bits, else the default; always a positive multiple of 1 MB |
| `CuMemChunks.AlignUpExact` | csrc/cumem_allocator.cpp:319 | the rounded size is the least multiple of the granularity holding the request exactly when the sum does not wrap; otherwise it is 0 |
| `CuMemChunks.ChunkIs` | csrc/cumem_allocator.cpp:366-368 | without wrap-around no subtraction underflows, and each chunk is a positive multiple of the granularity, full except possibly the last |
| `CuMemChunks.PlanChunks` | csrc/cumem_allocator.cpp:344-369 | the plan is good exactly when no 64-bit sum wraps; when the chunk size wraps it divides by zero, and when another sum wraps it plans no chunk |
| `CuMemAllocator.TilesPartition` | csrc/cumem_allocator.cpp:160-179 | chunks placed one after the other cover the range without gap or overlap |
| `CuMemAllocator.AskedAt` | csrc/cumem_allocator.cpp:150-179 | the driver calls one by one: every chunk is created, mapped and unmapped with its own size, at the sum of the sizes before it |
| `CuMemAllocator.Driver.ReleaseAll` | csrc/cumem_allocator.cpp:228-233 | one release call per handle, whatever fails, and the first error; without an error exactly what was there before is left |
| `CuMemAllocator.Driver.UnmapAll` | csrc/cumem_allocator.cpp:216-226 | one unmap call per chunk, whatever fails, and the first error; without an error exactly what was there before is left |
| `CuMemAllocator.Driver.UndoCreates` | csrc/cumem_allocator.cpp:154-156 | the handles created before are released in order |
| `CuMemAllocator.Driver.UndoMaps` | csrc/cumem_allocator.cpp:165-177 | the chunks mapped before are unmapped where they were mapped, then every handle is released; when no call fails all is as before |
| `CuMemAllocator.Driver.CreateAll` | csrc/cumem_allocator.cpp:150-159 | one fresh handle per chunk, or one release call per earlier handle, after which nothing is left over, except the first handle when an error was already pending |
| `CuMemAllocator.Driver.MapAll` | csrc/cumem_allocator.cpp:160-179 | all chunks mapped in order, or one undo call per mapped chunk and per handle, after which all is as before |
| `CuMemAllocator.Driver.CreateAndMap` | csrc/cumem_allocator.cpp:95-193 | exact series of driver calls for each outcome; success exactly with no error set; when the undo calls succeed a failed mapping restores the driver, and a failed creation does so exactly when the create call itself failed, as it must have when no error was pending; an access failure undoes nothing |
| `CuMemAllocator.Driver.UnmapAndRelease` | csrc/cumem_allocator.cpp:195-239 | every chunk is unmapped and every handle released whatever fails; when all calls succeed the driver is back as before the chunks, otherwise the first error is remembered |
| `CuMemAllocator.Driver.PythonCreateAndMap` | csrc/cumem_allocator.cpp:664-729 | raises exactly when the mapping failed, always leaves no error pending, and is one step of the reservation's life |
| `CuMemAllocator.Driver.PythonUnmapAndRelease` | csrc/cumem_allocator.cpp:566-662 | raises exactly on a failed call or an error left pending before, always leaves none pending, and is one step of the reservation's life |
| `CuMemAllocator.Driver.Reserve` | csrc/cumem_allocator.cpp:313-331 | reserves a new range of the aligned size, or fails with the refusing call's error or the pending one |
| `CuMemAllocator.Driver.MapReserved` | csrc/cumem_allocator.cpp:403-424 | a failed final mapping gives the range back and remembers the last error |
| `CuMemAllocator.Driver.MyMalloc` | csrc/cumem_allocator.cpp:299-427 | a pending error fails at once and stays; success holds the planned chunks at the reserved address; giving up between reserving and mapping keeps the range, for exactly the stated reasons; exact calls and leftovers of each failure |
| `CuMemAllocator.Driver.MyFree` | csrc/cumem_allocator.cpp:430-538 | undoes my_malloc when every call succeeds, which needs the caller's size to be the reserved one; otherwise which error is remembered and what is kept |
| `CuMemAllocator.RunKeepsReservation` | csrc/cumem_allocator.cpp:95-239 | over every run of wakes and sleeps the driver holds the initial state while asleep, that plus the reservation's tiles while awake, and at least the initial state even after a failed undo |
| `PartitionSignature.SignPartition` | vllm/env_override.py:238-334 | one partition's inputs, deallocations, outputs, constants and the names unmet before it; a returned name without a node is a key error |
| `PartitionSignature.GetSignatures` | vllm/env_override.py:198-336 | the signatures of the backward pass in partition order; fails exactly when some returned name has no node |
| `PartitionSignature.SignaturesSound` | vllm/env_override.py:210-336 | every partition finds its inputs and all graph outputs exist at the end, exactly when no partition frees an unallocated buffer of another |
| `PartitionSignature.FreedNoneLayoutIsUnsound` | vllm/env_override.py:275-280 | a two-partition graph on which an input is missing |
| `PartitionSignature.ReadsAvailable` | vllm/env_override.py:245-262 | in every scheduled graph, whatever a partition reads or writes is its own or available when it runs |
| `PartitionSignature.InputAvailable` | vllm/env_override.py:268-286 | a listed input is available exactly if it is allocated; another one is listed only because the partition frees it |
| `PartitionSignature.OutputsAvailable` | vllm/env_override.py:243-312 | in every scheduled graph every graph output is available at the end |
| `PartitionSignature.FreedOrReturned` | vllm/env_override.py:287-303 | each input is either freed or returned, never both |
| `PartitionSignature.OutputsNeeded` | vllm/env_override.py:243-312 | nothing is returned in vain: an output is not freed by its partition, and is a kept input or the real name of an own output that is a graph output or an input of a later partition |
| `PartitionSignature.InputsTouched` | vllm/env_override.py:245-291 | the inputs are exactly the known buffers the partition frees, reads or writes but does not produce; for each of them and no other the signature says whether it is freed |
| `PartitionSignature.NoneLayoutIs` | vllm/env_override.py:215-233 | a mutation is unallocated exactly if the buffer it updates is |
| `PartitionSignature.ConstantsAreUsed` | vllm/env_override.py:315-317 | the constants of a partition are exactly the constants it reads, writes or frees |
| `PartitionSignature.NoKeyError` | vllm/env_override.py:309-313 | with well-formed tables every returned name has a node |
| `MemoryPlan.TrimmedIs` | vllm/env_override.py:166-172 | trimming removes exactly the trailing planning lines that are not outputs |
| `MemoryPlan.TreeOf` | vllm/env_override.py:177-184 | every balanced sequence of lines is the flattening of a tree of subgraphs |
| `MemoryPlan.TreeBalanced` | vllm/env_override.py:177-184 | the flattening of every tree is balanced |
| `MemoryPlan.SweepRefinesTree` | vllm/env_override.py:175-186 | on balanced lines the loop computes the tree plan, each line with the state of its innermost subgraph, and ends with one state |
| `MemoryPlan.PlanJoin` | vllm/env_override.py:177-184 | lines are planned in order, each part with the state the part before left |
| `MemoryPlan.SubgraphAlone` | vllm/env_override.py:181-184 | a subgraph is planned alike wherever it stands and leaves the state around it as it was |
| `MemoryPlan.SweepSucceeds` | vllm/env_override.py:177-184 | the loop fails exactly when an exit or a planning line finds the stack empty; the final stack height is the initial one plus the depth |
| `MemoryPlan.TrimmedBalanced` | vllm/env_override.py:166-186 | balanced lines stay balanced under trimming and never fail |
| `MemoryPlan.UnbalancedAccepted` | vllm/env_override.py:185-186 | an exit before its enter passes the final assertion although the lines are not balanced |
| `MemoryPlan.Wrapper.MemoryPlanReuse` | vllm/env_override.py:130-186 | succeeds exactly when the trimmed brackets close and the stack is never found empty, and fails by the assertion exactly when some bracket stays open; the lines become the planned lines and the popped states are returned |
| `FreeBlockQueue.FreeKVCacheBlockQueue.constructor` | vllm/v1/core/kv_cache_utils.py:184-212 | all blocks are linked in list order |
| `FreeBlockQueue.FreeKVCacheBlockQueue.Popleft` | vllm/v1/core/kv_cache_utils.py:214-249 | removes and returns the first block, or fails on an empty list |
| `FreeBlockQueue.FreeKVCacheBlockQueue.PopleftN` | vllm/v1/core/kv_cache_utils.py:251-282 | removes and returns the first n blocks and clears their links; more than there are is an assertion failure that changes nothing |
| `FreeBlockQueue.FreeKVCacheBlockQueue.Remove` | vllm/v1/core/kv_cache_utils.py:284-302 | removes a block from any place, exactly when it is in the list |
| `FreeBlockQueue.FreeKVCacheBlockQueue.Append` | vllm/v1/core/kv_cache_utils.py:304-325 | adds a block at the end |
| `FreeBlockQueue.FreeKVCacheBlockQueue.AppendN` | vllm/v1/core/kv_cache_utils.py:327-350 | adds blocks at the end in order |
| `FreeBlockQueue.FreeKVCacheBlockQueue.GetAllFreeBlocks` | vllm/v1/core/kv_cache_utils.py:352-370 | walking the links visits exactly the free blocks in order |
| `BlockPool.InsertIs` | vllm/v1/core/block_pool.py:75-91 | a block is added after the others of its key, once; other keys keep theirs |
| `BlockPool.PopIs` | vllm/v1/core/block_pool.py:93-121 | a block is removed from its key exactly if present; other keys keep theirs |
| `BlockPool.Conserved` | vllm/v1/core/block_pool.py:478-484 | free blocks plus blocks in use plus the null block are all blocks |
| `BlockPool.BlockPool.constructor` | vllm/v1/core/block_pool.py:149-182 | all blocks but the null block are free, in id order, and nothing is cached |
| `BlockPool.BlockPool.GetCachedBlock` | vllm/v1/core/block_pool.py:184-209 | per group the first block cached under the hash, or nothing exactly when some group has none |
| `BlockPool.BlockPool.FindLongestCacheHit` | vllm/v1/core/single_type_kv_cache_manager.py:466-494 | the blocks of the longest chain of cached hashes within the allowed length: each has its hash, and the next hash is cached nowhere |
| `BlockPool.BlockPool.CacheFullBlocks` | vllm/v1/core/block_pool.py:237-272 | the blocks from cached to full become findable under the request's hashes, others keep theirs; fails exactly on too few hashes, which changes nothing, or on a block that already has a hash, with the blocks before it cached |
| `BlockPool.BlockPool.GetNewBlocks` | vllm/v1/core/block_pool.py:322-352 | the least recently freed blocks, none in use, evicted from the cache and referenced once; all others unchanged; fails exactly when there are too few |
| `BlockPool.BlockPool.MaybeEvict` | vllm/v1/core/block_pool.py:354-389 | the block loses its hash and its table entry, exactly if it had one |
| `BlockPool.BlockPool.Touch` | vllm/v1/core/block_pool.py:391-406 | each occurrence adds a reference; blocks that had none leave the queue, the rest keep their order |
| `BlockPool.FreeKeepsQueue` | vllm/v1/core/block_pool.py:416-422 | the queue stays exact, exactly when each given block keeps a reference, or gives back the only one it has once |
| `BlockPool.ReleasedInOrder` | vllm/v1/core/block_pool.py:417-422 | blocks left without a reference join the queue in the order in which they were given back |
| `BlockPool.BlockPool.FreeBlocks` | vllm/v1/core/block_pool.py:408-422 | each occurrence drops a reference; unreferenced blocks join the queue in order; consistent exactly under that condition |
| `BlockPool.BlockPool.EvictBlocks` | vllm/v1/core/block_pool.py:424-441 | exactly the given blocks lose their hash, up to an id that is out of range, which fails |
| `BlockPool.BlockPool.ResetPrefixCache` | vllm/v1/core/block_pool.py:443-476 | clears all hashes exactly when no block is referenced, else changes nothing |
| `BlockPool.BlockPool.GetNumFreeBlocks` | vllm/v1/core/block_pool.py:478-484 | the count of blocks that are not in use, the null block aside |
| `PoolQueue.LinkedPool.GetNewBlocks` | vllm/v1/core/block_pool.py:322-352 | the linked list yields exactly the blocks the pool hands out, and stays the list of its free blocks |
| `PoolQueue.LinkedPool.Touch` | vllm/v1/core/block_pool.py:391-406 | exactly the touched blocks without reference leave the linked list, which stays the list of the pool's free blocks |
| `PoolQueue.LinkedPool.FreeBlocks` | vllm/v1/core/block_pool.py:408-422 | the blocks left without reference join the linked list, which stays the list of the pool's free blocks |
| `FlatLogprobs.DictOfIs` | vllm/logprobs.py:113-120 | building a dictionary from entries keeps, per token, the last one |
| `FlatLogprobs.PutKnown` | vllm/logprobs.py:113-120 | a token that is set again keeps its place |
| `FlatLogprobs.DictOfDict` | vllm/logprobs.py:66-71 | the entries of a dictionary read back as that dictionary, in order |
| `FlatLogprobs.AppendRowsContents` | vllm/logprobs.py:63-93 | appending adds one readable dictionary and changes no other position |
| `FlatLogprobs.ReadIsContents` | vllm/logprobs.py:110-120 | on a valid structure a position reads back as its dictionary |
| `FlatLogprobs.SliceContents` | vllm/logprobs.py:121-133 | a slice of increasing positions is valid and holds exactly those positions |
| `FlatLogprobs.BackwardSlice` | vllm/logprobs.py:121-133 | a slice of several decreasing positions reads back right exactly when all of them are empty |
| `FlatLogprobs.RunRepresents` | vllm/logprobs.py:63-133 | over every run of appends, fast appends, extends and forward slices the flat structure reads as the plain list |
| `FlatLogprobs.FlatLogprobs.Append` | vllm/logprobs.py:63-72 | adds one position with the dictionary's entries; an absent dictionary adds an empty one |
| `FlatLogprobs.FlatLogprobs.AppendFast` | vllm/logprobs.py:74-93 | adds one position with the zipped entries, as many as the shortest input |
| `FlatLogprobs.FlatLogprobs.Extend` | vllm/logprobs.py:95-98 | appends the positions one by one |
| `FlatLogprobs.FlatLogprobs.GetItem` | vllm/logprobs.py:110-120 | the dictionary of a position, negative indices from the end, or an index error |
| `FlatLogprobs.FlatLogprobs.GetSlice` | vllm/logprobs.py:121-133 | a new structure for the selected positions, or an index error for none |
| `FlatLogprobs.FlatLogprobs.Iterate` | vllm/logprobs.py:146-152 | yields the dictionaries of all positions in order |
| `FlatLogprobs.AppendLogprobsForNextPosition` | vllm/logprobs.py:175-206 | a reader sees the same new dictionary in the flat and in the list container: the given lists side by side as far as all reach, the sampled token with its rank and the others ranked from 1, repeated tokens keeping the last entry |
| `OutputMerge.AggregateSnoc` | vllm/outputs.py:155-177 | merging one more piece extends the aggregate of the stream, failing exactly when it brings log-probabilities and the first piece of its index has none |
| `OutputMerge.MergeStream` | vllm/outputs.py:155-177 | merging a list of pieces gives the aggregate of the longer stream, exactly under that condition for each piece |
| `OutputMerge.AggregateNested` | vllm/outputs.py:157-171 | aggregating a part of a stream first makes no difference |
| `OutputMerge.GroupingIrrelevant` | vllm/outputs.py:147-177 | every grouping of deltas that succeeds gives per-index concatenation, last reasons, first-appearance order and the merged request fields |
| `OutputMerge.ConcatFacts` | vllm/outputs.py:159-167 | texts, tokens and log-probabilities of a stream are concatenated in stream order |
| `OutputMerge.AggregateEnds` | vllm/outputs.py:159-171 | every output has the untouched fields of the first piece of its index, and the reasons and cumulative log-probability of the last one |
| `OutputMerge.AggregateOrder` | vllm/outputs.py:155-177 | the outputs come in the order in which their indices first appeared |
| `OutputMerge.WholeFields` | vllm/outputs.py:150-153 | a request is finished when any delta says so, has the transfer parameters of the last delta and the experts of the last delta with any |
| `OutputMerge.AddFields` | vllm/outputs.py:150-177 | what is not an output is merged alike in both modes; without aggregation nothing fails |
| `OutputMerge.SteadySucceeds` | vllm/outputs.py:147-177 | when no piece brings log-probabilities to an index of which an earlier piece has none, every grouping succeeds with that result |
| `OutputMerge.UnsteadyFails` | vllm/outputs.py:164-166 | for two pieces that break this, the grouping that starts merging at the earlier one's delta fails |
| `OutputMerge.EveryGroupingSucceeds` | vllm/outputs.py:147-177 | for every stream of deltas: all groupings succeed, and then agree, exactly when no piece brings log-probabilities to an index of which an earlier piece has none |
| `OutputMerge.MixedModesMatter` | vllm/outputs.py:164-166 | the smallest instance: for three single deltas of one index exactly one of the two groupings fails exactly when only the middle one lacks log-probabilities and the last one brings some |
| `OutputMerge.ReplaceKeepsLast` | vllm/outputs.py:172-177 | without aggregation each index keeps its place and holds what arrived last |
| `OutputMerge.LastOfAt` | vllm/outputs.py:172-174 | what is kept for an index is its last piece |
| `RequestOutput.CompletionOutput.AbsorbInPlace` | vllm/outputs.py:158-171 | the completion absorbs the piece, failing exactly on the asserted clash, with only text and tokens extended by then |
| `RequestOutput.RequestOutput.MergeCompletion` | vllm/outputs.py:156-177 | the outputs become the merge with one completion |
| `RequestOutput.RequestOutput.Add` | vllm/outputs.py:147-177 | the response becomes the merge of both values, failing exactly when the merge fails; after a failure the fields set first are overwritten and the completions merged before the failing one stay merged |
| `BadWords.NoBadWordsLogitsProcessor.CheckTokenIdsBounds` | vllm/logits_process.py:106-121 | lists exactly the out-of-range ids in order |
| `BadWords.InvalidIdsInOrder` | vllm/logits_process.py:106-112 | the offending ids are listed word by word in the order in which they stand |
| `BadWords.NoBadWordsLogitsProcessor.InitWordBias` | vllm/logits_process.py:89-104 | the bias is minus infinity exactly at one-token words; out-of-range ids are a value error |
| `BadWords.NoBadWordsLogitsProcessor.LastTokenBias` | vllm/logits_process.py:64-83 | the bias is minus infinity exactly at tokens completing a longer word; an empty word is an index error; the length assertion never fails |
| `BadWords.NoBadWordsLogitsProcessor.Call` | vllm/logits_process.py:56-87 | exactly the tokens completing a bad word become minus infinity, all others keep their logit; exact error cases |
| `BadWords.UnmaskedIffClean` | vllm/logits_process.py:66-85 | tokens never pick a masked token exactly when they contain no bad word |
| `BadWords.GenerationIsClean` | vllm/logits_process.py:56-87 | no generation that avoids minus infinity contains a bad word |
| `BadWords.CleanIsGeneration` | vllm/logits_process.py:56-87 | from finite logits any tokens without a bad word can be generated |
| `Int8Quant.HalfStepError` | vllm/_xpu_ops.py:314-331 | dequantized values are within half a step of the input and levels are in range, in both modes |
| `Int8Quant.RoundIs` | vllm/_xpu_ops.py:325-328 | rounding goes to the nearest integer, and to the even one of two equally near |
| `Int8Quant.LevelCount` | vllm/_xpu_ops.py:314-315 | there are two to the bits levels, the symmetric ones around zero with one more below |
| `Int8Quant.ExtremeIsExact` | vllm/_xpu_ops.py:318-322 | in symmetric mode the largest magnitude uses the outermost level and is stored without error, unless the row is tiny |
| `Int8Quant.AsymmetricWidth` | vllm/_xpu_ops.py:323-325 | in asymmetric mode the levels span the row exactly, unless its width is tiny |
| `Int8Quant.StoredExactly` | vllm/_xpu_ops.py:327-331 | the levels fit int8 or uint8 exactly when there are at most 8 bits |
| `GatherIndex.SearchSorted` | vllm/_xpu_ops.py:580-583 | the first index whose entry is at least the value |
| `GatherIndex.LocateToken` | vllm/_xpu_ops.py:580-594 | the owning sequence and the block offset are right for every token; the table column is right except exactly at the last slot of a block, where it is one too far |
| `GatherIndex.MisplacedCount` | vllm/_xpu_ops.py:590 | one token per full block is looked up in the wrong column |
| `GatherIndex.ColumnsInTable` | vllm/_xpu_ops.py:590-591 | all columns read exist in the table row exactly when the last block is not full |
| `GatherIndex.ScaleOffset` | vllm/_xpu_ops.py:563-616 | the scale offset agrees with the documented layout exactly for one-token blocks |
| `IndexRanges.FormatIndexRanges` | vllm/model_inspection.py:44-58 | expanding the ranges gives back the sorted indices, duplicates included, and no range could be joined to the next; for distinct indices the ranges are separated by gaps; no index is an index error |

## Left out

- The scheduler's choice of what to run (queues, budgets, priorities), KV-cache groups and managers other than one full-attention group, KV received from elsewhere, speculative tokens, model execution, experiments and plots.
- The gate-probability variant of signatures, which sums floats; device and layout checks of tensors; asynchronous copies to the host.
- PrefixCaching.SignaturesExact: the gate's choice is a function of the token's prefix. A request scheduled in a step stays until the step is computed, as under the first-come-first-served policy, or is withdrawn under the exact condition of `PrefixCaching.WithdrawKeeps`; `PrefixCaching.WithdrawnSignatureWrong` shows a wrong signature without it.
- PrefixCaching: a block hash is the token prefix it is computed from, so different prefixes never collide; extra keys (adapters, images, salts) are not part of it. The operations of a run are relations that the methods of `BlockPool.dfy` and `SignatureRuns.dfy` ensure; the run itself is not executable.
- BalancedKMeans.Fit: at most 10^18 points, and unit non-negative signatures as the transform delivers them; the solver, vector lengths and the convergence test are parameters. k-means++ seeding and centroid files are not modelled.
- CentroidUpdate: checks for finite numbers and array types, logging and the executor; a signature too short to be normalized is accepted as it is, and the guarantees about centroids are then not claimed; the clock never goes back, as `time.monotonic` promises.
- CentroidUpdate.CentroidUpdater.Close: the executor is not modelled, so its shutdown is not either.
- PrefixHash: hashing of keys and urls, and the sort that builds the ring, which is given sorted.
- Proxy: NaN in answers, the contents of other messages, validation of requests, and whether a decoder that may have received a transfer did.
- Floating-point rounding, NaN, infinite input logits and the narrowing of scales to the input dtype.
- Ninja log: a line is either skipped or already split into two integers, a name and a hash; the header check, `int()` failures, the report's printing (with its division by a zero build length) and the grouping by extension are not modelled.
- Allocator: CUDA contexts, the GIL, reference counts, the non-ROCm branch, the parsing of Python arguments and host buffers. The chunk counter is unbounded although the source counts in `int`. A failed driver call changes nothing, and a range is freed only under its reserved size.
- Partition signatures: the order inside the ordered sets and symbol inputs. Real names are final, so `is_none_layout` recurses at most once.
- Memory planning: what one planning line does to its state is a parameter; lines of other kinds carry only their text.
- Block pool: KV events, metrics, block sizes that differ from the hash block size, and the request object (hashes are given). Blocks are named by id; `PoolQueue.dfy` ties the ids to the linked blocks.
- FreeBlockQueue.FreeKVCacheBlockQueue.Remove: rules out a block that has both links and is not in this list, which the source would unlink from wherever it is.
- FreeBlockQueue.FreeKVCacheBlockQueue.Append: requires a block that is not in the list; the source does not look.
- FreeBlockQueue.FreeKVCacheBlockQueue.AppendN: requires distinct blocks that are not in the list; when the pool's calls satisfy this is stated by `BlockPool.FreeKeepsQueue`.
- PoolQueue.LinkedPool.FreeBlocks: requires the exact condition of `BlockPool.FreeKeepsQueue`; without it the source damages its list.
- FlatLogprobs: slices are given by the positions they select, increasing for a positive step and decreasing for a negative one.
- RequestOutput.RequestOutput.Add: the two responses share no completion object; afterwards the response holds the delta's objects for new indices, as in the source.
- BadWords: `get_bad_words_logits_processors`, which tokenizes the words. The vocabulary size is the same for all calls of one processor.
- Int8Quant.HalfStepError: the zero point is an unbounded integer; its conversion to 32 bits is not modelled.
- GatherIndex: the copying of bytes, and a write-then-gather round trip, whose two layouts differ.
- IndexRanges: the ranges are not turned into text; the module tree and its grouping are not modelled.
