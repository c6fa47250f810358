# Verified model of verl's schedulers, layouts and protocols

Dafny models of the parts of verl whose correctness rests on counting, ordering and layout, with
proofs of what those parts are for. `dafny verify dfyconfig.toml` checks everything.

| files | what they model |
|---|---|
| `OffloadWindow`, `ActivationOffload`, `OffloadRuns` | double-buffered activation offload: the window table, the handler and its steps, whole training runs compared with a plain dictionary |
| `VerifyTree`, `LosslessDecoding` | the accept walk over draft trees, and speculative decoding compared with plain greedy decoding |
| `Partitions`, `Differencing`, `BalancedPartitions`, `GreedyPartition` | splitting sequence lengths into balanced partitions |
| `MicroBatches`, `DynamicBatch` | how many micro-batches a batch is cut into, what each may hold, and putting results back in order |
| `PipelineShards`, `LayerOffset` | the search for a pipeline split and the placement of layers on stages and model chunks |
| `Tensors`, `QkvSplit`, `Ulysses` | fused attention weights under tensor parallelism, sequence-parallel exchanges |
| `SqlInteraction`, `SqlInFlight`, `SqlRecency` | the pool of database environments between await points, what can happen to it while a step runs, and its order told from the events |
| `RowPlaces`, `BatchProtocol` | which rows slices and chunks take; padding, chunking, dispatching and joining batches |
| `MemoryBuffers` | the layout of parameters in flat buffers |
| `Arithmetic`, `Options` | shared helpers |

How the models are built:

* Objects that are updated in place are classes (`ActivationOffload.Handler`, `BalancedPartitions.State`,
  `SqlInteraction.Interaction`, `MemoryBuffers.MemoryBuffer` and `Parameter`), loops are methods with
  invariants, and each method is proved against a function of the old state or against the property itself.
  Expressions stay functions.
* A tensor distributed over ranks is a sequence with one entry per rank. A device copy is the identity.
* The offload handler's dictionary is a map with its insertion order. A reloaded tensor is identified with
  the storage key it was offloaded under: only which tensors share storage matters.
* A training run saves tensors and ends layers in order, re-enters them in reverse and fetches each saved tensor once.
  Tensors that share storage must agree on their flat contents only within groups that leave the device.
* The target model is an arbitrary function from token sequences to a token; a draft tree comes with a ranking
  of its nodes that shows its links have no cycle. Sibling indices need not increase.
* An environment's `step` may raise or come back with any reward, flag and content.
* The heap of the differencing method is a sequence from which any two states may be taken: what is proved
  does not depend on the order in which the heap gives them out.

Findings. Each comes with its exact condition, stated as an if-and-only-if theorem, except for the limit of a
micro-batch, where the exact condition is given for rows of one length and a sufficient one in general:

* Saved tensors that share storage within a group come back as they left exactly when they agree on their flat
  contents (`GroupRoundTripsIffKeysAgree`). A matrix saved together with its transpose does not.
* Once a group's window has closed, nothing of it is on the device, in the dictionary or in the buffers, on every
  run, exactly when there are fewer groups than layers or a single layer (`FreesIffFewerGroups`). Until then a group
  that was copied out is on the device as well, held by the buffers (`StateAlongRun`). With as many groups as
  layers only the first group ever leaves.
* The accept walk takes the first sibling that matches. It covers every accepted path exactly when it never has to
  choose between matching siblings (`WalkCoversIffNoChoice`), and does so whatever is predicted exactly when
  siblings carry distinct tokens wherever a path from the root leads (`AlwaysCoversIffDistinct`). It is the longest
  accepted path whatever is predicted exactly when, there, a child that repeats an earlier sibling's token has no
  children (`AlwaysLongestIffRepeatsAreLeaves`).
* The documented limit of a micro-batch (`verl/utils/seqlen_balancing.py:264`) is not kept: lengths 2, 2, 2
  under limit 3 give a batch of 4. What is kept is the limit plus the longest row. For rows of one length the
  limit is kept exactly when the fullest micro-batch's rows fit in it (`EqualRowsKeepLimitIff`).
* The interleaved uneven layer placement is defined and a tiling exactly when there are middle stages and,
  unless they are empty, the first stage's size is set (`UnevenTilesIffFirstIsSet`). Otherwise stage 1 divides
  by zero, or starts at the same layer as stage 0.
* The pipeline split search finds a result exactly under its closed-form condition; it finds none for some
  inputs it does not reject, such as 5 layers on 4 stages.
* Every environment of the interaction is retained or closed exactly once if and only if no id is started while
  it is still pooled; such a start leaves the first environment open and out of reach.
* An environment can be closed while a step runs on it, exactly when its id is ended meanwhile or another id is
  started while its entry is the oldest of a full pool (`HeldIsClosedIff`). When the id was started again, the
  step's return releases the new environment (`ReleasedOnReturn`).
* `greedy_partition` names its list sorted but does not sort it; none of its bounds need it to.

## Model

| member | source | states |
|---|---|---|
| OffloadWindow.BuildWindowMap | verl/utils/activation_offload.py:248-257 | the loop that carries the extra layers fills the table with the closed form |
| OffloadWindow.StandardIsValid | verl/utils/activation_offload.py:248-257 | for all 1 <= groups <= layers the windows close in strictly increasing layers, the last at the last layer, window `i` not before layer `i`; with one group fewer than layers window `i` closes at layer `i + 1` |
| OffloadWindow.WindowSpans | verl/utils/activation_offload.py:248-257 | the layers are dealt out evenly among the windows, the first of them taking one of those left over each |
| OffloadWindow.Config.PassedUp | verl/utils/activation_offload.py:330-345 | moving one layer on closes a window exactly when the next open one is due there |
| OffloadWindow.Config.PassedBelow | verl/utils/activation_offload.py:330-345 | the groups whose window has closed lie below the layer computed, and all are closed at the end |
| ActivationOffload.Handler.constructor | verl/utils/activation_offload.py:228-257 | a new handler is empty, with the standard table |
| ActivationOffload.Handler.TensorPush | verl/utils/activation_offload.py:263-283 | a tensor not offloaded is handed back itself; otherwise it is stored under a fresh tag of the current group, and buffered while its group is one to offload |
| ActivationOffload.Handler.TensorPop | verl/utils/activation_offload.py:285-296 | returns what the tag holds and forgets it in both dictionaries, keeping the others' order |
| ActivationOffload.Handler.BulkOffloadGroup | verl/utils/activation_offload.py:298-317 | the loop over the dictionary replaces the group's tensors by key and shape and copies each key once |
| ActivationOffload.Handler.SynchronizeOnGroupCommitForward | verl/utils/activation_offload.py:319-345 | kick-start at the first layer; when a window closes, its buffers are dropped and the next group leaves |
| ActivationOffload.Handler.OnGroupCommitForward | verl/utils/activation_offload.py:347-352 | the whole new state after a forward commit |
| ActivationOffload.Handler.BulkReloadGroup | verl/utils/activation_offload.py:354-371 | the loop turns each key of the group into a view of the host copy and drops the copies |
| ActivationOffload.Handler.OnGroupCommitBackward | verl/utils/activation_offload.py:373-395 | the whole new state after a backward commit, the counter's floor and reset included |
| ActivationOffload.CopiesSound | verl/utils/activation_offload.py:303-311 | every host copy is the contents of a tensor of the group with that key |
| ActivationOffload.CopiesTotal | verl/utils/activation_offload.py:303-311 | every tensor of the group has a host copy under its key |
| ActivationOffload.GroupRoundTripsIffKeysAgree | verl/utils/activation_offload.py:298-371 | offloading and reloading a group gives back its tensors if and only if those sharing storage have equal flat contents |
| ActivationOffload.TransposeComesBackWrong | verl/utils/activation_offload.py:307-311 | a matrix and its transpose in one group: the transpose comes back with the matrix's contents |
| OffloadRuns.StepKeeps | verl/utils/activation_offload.py:263-395 | under the invariant every enabled step is safe, answers as the dictionary does and keeps the invariant |
| OffloadRuns.OffloadIsTransparent | verl/utils/activation_offload.py:221-395 | over any run of any number of passes no assertion fails, no lookup misses, and every answer is the plain dictionary's |
| OffloadRuns.StateAlongRun | verl/utils/activation_offload.py:263-395 | at every point of every run the whole state is determined by the plain run: what each tag leads to; which tensors the buffers still hold, namely every one of a group to offload whose window has not closed in the forward pass; which groups have host copies; the counters and the moves made |
| OffloadRuns.PassesRestoreHandler | verl/utils/activation_offload.py:221-395 | after `n` full passes the handler is as created and has made exactly the moves of `n` passes |
| OffloadRuns.PassMovesEachGroupOnce | verl/utils/activation_offload.py:298-395 | in one pass group `g` leaves as the `g`-th move and returns as the `g`-th from the end, once each |
| OffloadRuns.FullPassExists | verl/utils/activation_offload.py:221-395 | a full pass that saves in every layer, in order, is among the runs these theorems speak of |
| OffloadRuns.AtMostTwoResident | verl/utils/activation_offload.py:500-543 | with one group fewer than layers, at most two groups are on the device at every point of a run |
| OffloadRuns.ResidentExactly | verl/utils/activation_offload.py:319-395 | at every point of every run exactly these groups are on the device: of those that leave, the ones whose window has not closed, and all others, as far as they have saved tensors |
| OffloadRuns.ResidentInWindowAlongRun | verl/utils/activation_offload.py:319-395 | for all fewer groups than layers, at every point of a run what is on the device lies between the first open window and the layer computed |
| OffloadRuns.FreesIffFewerGroups | verl/utils/activation_offload.py:319-345 | along every run nothing of a group whose window has closed is on the device, buffers included, if and only if there are fewer groups than layers or one layer; the same condition decides whether the dictionary lets go of every tensor of a group with host copies |
| OffloadRuns.KeptAfterClosing | verl/utils/activation_offload.py:330-345 | with as many groups as layers, a tensor saved in layer 1 is still on the device after its group was copied out and its window has closed |
| OffloadRuns.OnlyFirstGroupLeaves | verl/utils/activation_offload.py:319-345 | with as many groups as layers every tensor of a group but the first stays on the device |
| OffloadRuns.Drive | verl/utils/activation_offload.py:221-395 | the handler object itself, driven through a legal run, answers as the dictionary does |
| VerifyTree.FindChild | scripts/check_verify_tree_greedy.py:65-71 | the sibling loop ends and finds the first child carrying the prediction, or none |
| VerifyTree.Row.ChildrenFollowLinks | scripts/check_verify_tree_greedy.py:65-71 | the children of a node are its first child and, one after the other, the next siblings, up to the one that has none |
| VerifyTree.WalkRow | scripts/check_verify_tree_greedy.py:59-75 | the walk ends; its slots are the accepted path and, with distinct slots, hold its predictions; no other slot is written |
| VerifyTree.VerifyTreeGreedy | scripts/check_verify_tree_greedy.py:49-78 | for every row the path, its length less one, and its predictions; slots off all paths keep -1; no row disturbs another |
| VerifyTree.Row.WalkIsAccepted | scripts/check_verify_tree_greedy.py:61-75 | the path follows child links that match the parent's prediction, and no child of its end matches |
| VerifyTree.Row.WalkCoversIffNoChoice | scripts/check_verify_tree_greedy.py:61-75 | every accepted path from a node is a prefix of the walk if and only if at no node of the walk two different children match its prediction |
| VerifyTree.Row.AlwaysCoversIffDistinct | scripts/check_verify_tree_greedy.py:61-75 | that holds whatever is predicted if and only if siblings carry distinct tokens at every node a path from the root reaches |
| VerifyTree.Row.AlwaysLongestIffRepeatsAreLeaves | scripts/check_verify_tree_greedy.py:61-75 | whatever is predicted the walk is the longest accepted path, if and only if at every node a path from the root reaches a child that repeats an earlier sibling's token has no children |
| VerifyTree.Row.WalkIsDeepest | scripts/check_verify_tree_greedy.py:61-75 | with distinct sibling tokens every accepted path from the root is a prefix of the walk |
| VerifyTree.DuplicateSiblingsLoseDepth | scripts/check_verify_tree_greedy.py:66-71 | a tree on which the walk stops beside a deeper accepted path |
| LosslessDecoding.FaithfulExists | scripts/check_verify_tree_greedy.py:58-64 | every target can be evaluated on every tree, each node on its own context: the premise of losslessness can be met |
| LosslessDecoding.WalkIsGreedy | scripts/check_verify_tree_greedy.py:58-78 | from every node on, the walk's predictions are the greedy continuation of the node's context |
| LosslessDecoding.RoundIsGreedy | scripts/check_verify_tree_greedy.py:58-78 | a round emits at least one token, all greedy, and all but the last are accepted draft tokens |
| LosslessDecoding.SpeculativeDecodingIsLossless | scripts/compare_runs_bitwise.py:4-11 | any target, any number of rounds, any draft trees: the tokens emitted are those of plain greedy decoding, at least one a round |
| LosslessDecoding.BatchOutputsAreGreedy | scripts/check_verify_tree_greedy.py:49-78 | read from the accepted slots, the outputs of a row are its greedy continuation |
| LosslessDecoding.VerifyRound | README.md:39 | one call of the verifier serves every row of a batch losslessly |
| Differencing.MergeKeepsSpread | verl/utils/seqlen_balancing.py:68-71 | merging by reversed pairing never spreads wider than the wider of the two states |
| Differencing.MergedNonEmpty | verl/utils/seqlen_balancing.py:42-47 | merged, two states have `min(k, a + b)` non-empty sets, zero lengths included |
| Differencing.MergeStateOk | verl/utils/seqlen_balancing.py:68-71 | merging and sorting keep the order, the spread, the items and the count of non-empty sets |
| BalancedPartitions.State.Merge | verl/utils/seqlen_balancing.py:68-71 | the in-place merge is the pairing of the old sets in reverse, sorted downwards |
| BalancedPartitions.KarmarkarKarp | verl/utils/seqlen_balancing.py:99-127 | an exact cover within the spread, equal sizes where asked, none empty with enough items, and no assertion left to fail, whatever states are taken from the queue; it fails exactly on no partition, no items or indivisible counts |
| BalancedPartitions.GetSeqlenBalancedPartitions | verl/utils/seqlen_balancing.py:150-191 | the same with each partition sorted; the final checks fail on no input that passes the first |
| BalancedPartitions.SplitSpread | verl/utils/seqlen_balancing.py:99-127 | that spread is at most the longest length, and at most longest less shortest for equal sizes |
| GreedyPartition.GreedyPartition | verl/utils/seqlen_balancing.py:130-147 | an exact cover; without bias sums differ by at most the longest length; with it all counts are equal; it fails exactly when items find no partition or equal counts cannot be |
| GreedyPartition.BiasComparesCountsFirst | verl/utils/seqlen_balancing.py:131-139 | biased sums compare as pairs of count and true sum |
| GreedyPartition.SizesChecked | verl/utils/seqlen_balancing.py:142-146 | the final size check passes if and only if the count divides |
| Arithmetic.CeilDivLeast | verl/utils/seqlen_balancing.py:242-243 | the floored negative division is the least quotient that reaches the dividend |
| MicroBatches.RoundupDivisible | verl/utils/seqlen_balancing.py:246-247 | the least multiple that reaches the value |
| MicroBatches.CountIsEnough | verl/utils/seqlen_balancing.py:282-292 | the batch size never limits the count: the rows are at least as many as the micro-batches the tokens need |
| MicroBatches.CountIsLeast | verl/utils/seqlen_balancing.py:282-292 | the count is the least number that has room for all tokens, reaches the minimum and the other ranks' counts, and is a multiple of the divisor, as far as these are given |
| MicroBatches.LoadAgainstAverage | verl/utils/seqlen_balancing.py:297-297 | `k` times a load is at most the total plus `k - 1` longest rows |
| MicroBatches.LoadWithinLimits | verl/utils/seqlen_balancing.py:276-297 | every micro-batch holds at most the limit plus the longest row, and less than twice the limit |
| MicroBatches.LimitKeptWithRoom | verl/utils/seqlen_balancing.py:264-264 | the documented limit is kept when total and longest row leave room for it |
| MicroBatches.EqualRowsKeepLimitIff | verl/utils/seqlen_balancing.py:264-297 | for rows of one length the limit is kept if and only if the average number of rows, rounded up, fits in it |
| MicroBatches.LimitCanBeExceeded | verl/utils/seqlen_balancing.py:264-264 | rows 2, 2, 2 and limit 3: every split into the count computed breaks the documented limit |
| MicroBatches.RearrangeMicroBatches | verl/utils/seqlen_balancing.py:250-319 | it fails exactly on a limit below the rows' width, a zero limit or divisor, or when the least count that meets all that is asked is zero or above the number of rows; otherwise it makes that many non-empty micro-batches, a cover within the limits, heaviest first when balancing, each holding its rows |
| MicroBatches.SortHeaviestFirst | verl/utils/seqlen_balancing.py:299-307 | sorted, the sums of squared lengths never rise, and among equal ones the least index never rises |
| DynamicBatch.GetReverseIdx | verl/utils/seqlen_balancing.py:322-337 | entry `x` ends as the last place that maps to `x`, counted from the end for negative indices, or as the map's own entry when none does; it fails exactly on an index out of range |
| DynamicBatch.ReverseInverts | verl/utils/seqlen_balancing.py:322-337 | for a permutation that is the inverse, from both sides |
| DynamicBatch.RestoreDynamicBatch | verl/utils/seqlen_balancing.py:362-375 | result `i` goes to the place its index names |
| DynamicBatch.DynamicBatchRoundTrip | verl/utils/seqlen_balancing.py:309-375 | micro-batch results, restored, are the row-wise results in the original order |
| DynamicBatch.WorkInMicroBatches | verl/utils/seqlen_balancing.py:309-375 | gathering, working and restoring as one program, for every cover |
| PipelineShards.AcceptsIff | verl/model_merger/megatron_model_merger.py:76-79 | a middle size is accepted if and only if it is at least the average and leaves a layer for each end |
| PipelineShards.GapIncreases | verl/model_merger/megatron_model_merger.py:83-88 | among accepted sizes a larger one has a larger gap |
| PipelineShards.GetDynamicPipelineShards | verl/model_merger/megatron_model_merger.py:49-90 | a result exists if and only if the closed-form condition holds; it is positive, adds up, has the average rounded up in the middle, first and last equal or the last one more, and the least gap of all accepted sizes |
| PipelineShards.FiveLayersFourStages | verl/model_merger/megatron_model_merger.py:88-88 | 5 layers on 4 stages have no split |
| LayerOffset.GetTransformerLayerOffset | verl/utils/megatron_utils.py:971-1097 | it fails exactly when interleaving lacks a chunk, has none, or has both end sizes set on two stages and is asked for the second |
| LayerOffset.AllStagesHaveOffsets | verl/utils/megatron_utils.py:1010-1047 | every stage has an offset if and only if the number of chunks is positive and, interleaved and uneven, there are middle stages |
| LayerOffset.TilesPlaceOnce | verl/model_merger/megatron_model_merger.py:352-376 | in a tiling every layer number is in one run and no other |
| LayerOffset.TilesStayInside | verl/model_merger/megatron_model_merger.py:352-376 | and no run reaches outside the layers |
| LayerOffset.PlacementAgrees | verl/utils/megatron_utils.py:1048-1061 | for every split the search can give, the offset of a stage is the prefix sum the merger renumbers from, and stages tile the layers |
| LayerOffset.SearchGivesSplits | verl/model_merger/megatron_model_merger.py:225-231 | results of the search are such splits |
| LayerOffset.EvenChunksTile | verl/utils/megatron_utils.py:1062-1094 | the even placement, interleaved or not, with embedding and loss counted or not, tiles the layers |
| LayerOffset.UnevenTilesIffFirstIsSet | verl/utils/megatron_utils.py:1010-1047 | the interleaved uneven placement is defined and tiles the layers if and only if there are middle stages and they are empty or the first stage's size is set |
| LayerOffset.FirstStagesCollide | verl/utils/megatron_utils.py:1039-1047 | with non-empty middle stages and no first size, stages 0 and 1 start at the same layer |
| LayerOffset.UnevenStagesTile | verl/utils/megatron_utils.py:1048-1061 | the uneven placement without interleaving tiles the layers, whichever sizes are set |
| Tensors.ChunkFlat | verl/utils/megatron_utils.py:765-765 | a weight made of equal pieces is chunked into those pieces |
| Tensors.SplitByJoins | verl/utils/megatron_utils.py:765-765 | cutting rows into pieces of one size loses nothing, and all pieces but the last are full |
| QkvSplit.SplitLosesNothing | verl/utils/megatron_utils.py:765-777 | re-interleaving q, k and v gives back the fused weight: every row lands exactly once |
| QkvSplit.ShardwiseSplit | verl/utils/megatron_utils.py:763-777 | splitting shard by shard and joining is splitting the joined weight |
| QkvSplit.ChunksFitIff | verl/model_merger/megatron_model_merger.py:331-341 | the split sizes, computed by rounded divisions, fit all chunks of a weight if and only if the key rows divide among the groups |
| QkvSplit.SplitTensors | verl/model_merger/megatron_model_merger.py:321-345 | the merger's loop computes the split of a whole weight of any shape; it fails exactly when the heads do not divide or the rows are not whole groups |
| QkvSplit.DefaultTpConcat | verl/utils/megatron_utils.py:745-778 | the loop over shards of one shape computes the split of the joined weight; it fails exactly when the heads do not divide, there are fewer key-value heads than ranks, or the rows of a shard are not whole groups |
| QkvSplit.ConvertQkvShard | verl/utils/megatron_utils.py:532-565 | cutting the gathered weight by position gives the same q, k and v; it fails exactly with fewer key-value heads than ranks |
| Ulysses.ExchangeInverts | verl/utils/ulysses.py:133-191 | on all ranks jointly, exchanging back undoes an exchange: the backward pass is the inverse |
| Ulysses.SeqShardsToHeadShards | verl/utils/ulysses.py:133-152 | an exchange turns sequence shards of a tensor into its head shards |
| Ulysses.HeadShardsToSeqShards | verl/utils/ulysses.py:133-152 | and head shards into sequence shards |
| Ulysses.AttentionRoundTrip | verl/utils/ulysses.py:62-101 | for every length and number of ranks, ranks gather exactly the true positions of their heads before attention, and afterwards get back their shards of the padded sequence |
| Ulysses.WholeRoundTrip | verl/utils/ulysses.py:62-101 | called without a true length, ranks gather all positions of their heads, and get back their shards |
| Ulysses.ShardedAttention | verl/utils/ulysses.py:62-101 | ranks that exchange, attend with their own heads over all positions and exchange back end with their shards of the unsharded result, for every length, number of ranks and per-head work |
| Ulysses.ShardedWholeAttention | verl/utils/ulysses.py:62-101 | called without a true length, the ranks end with their shards of the unsharded result as well, for every length that divides among them |
| Arithmetic.PaddedDivides | verl/utils/ulysses.py:98-100 | the padding completes the length to a multiple, with a row for every rank unless it is empty |
| Ulysses.PadSizesAgree | verl/utils/ulysses.py:285-285 | the two ways the padding is computed agree |
| Ulysses.PaddedShardAt | verl/utils/ulysses.py:104-130 | shard `r` holds the positions from `r` times its length on, and zeros beyond the end |
| Ulysses.GatherJoins | verl/utils/ulysses.py:194-234 | gathering joins along either dimension, with or without rows, and the backward split, where there are rows, hands each rank its own part |
| Ulysses.PaddedWorkRoundTrip | verl/utils/ulysses.py:243-321 | for every number of tokens, none included, pad, slice, work token by token, gather and unpad is working on the unsharded tokens |
| SqlInteraction.Interaction.Remember | verl/interactions/sql_interaction.py:123-136 | the entry becomes the youngest; the eviction loop closes exactly the oldest entries beyond the budget |
| SqlInteraction.Interaction.Release | verl/interactions/sql_interaction.py:147-150 | a pooled entry is removed and closed, an absent id changes nothing |
| SqlInteraction.Interaction.FinishStart | verl/interactions/sql_interaction.py:174-177 | the part of a start after its await |
| SqlInteraction.Interaction.BeginResponse | verl/interactions/sql_interaction.py:182-189 | an entry looked up becomes the youngest |
| SqlInteraction.Interaction.FinishResponse | verl/interactions/sql_interaction.py:209-232 | a failed, finished or silent step, and no other, releases the id and reports the end; otherwise nothing changes |
| SqlInteraction.Interaction.FinalizeInteraction | verl/interactions/sql_interaction.py:238-239 | finalizing releases the id |
| SqlInteraction.RunKeeps | verl/interactions/sql_interaction.py:123-239 | over every interleaving the budget holds, ids and environments are distinct, and every environment is pooled, closed once, or lost to a restart |
| SqlInteraction.LostIffRestarted | verl/interactions/sql_interaction.py:131-132 | an environment is lost if and only if some start hits a pooled id |
| SqlInteraction.ClosedExactlyOnceIffNotRestarted | verl/interactions/sql_interaction.py:123-239 | every environment is retained or closed exactly once if and only if no pooled id is restarted; none is ever closed twice |
| SqlInteraction.RestartLosesEnvironment | verl/interactions/sql_interaction.py:131-131 | start, start and finalize one id: the first environment is never closed |
| SqlRecency.RunStaysOrdered | verl/interactions/sql_interaction.py:131-187 | along every run the pool is ordered by the last event at which an entry's id was started, or asked for while pooled |
| SqlRecency.EvictsLeastRecentlyUsed | verl/interactions/sql_interaction.py:131-187 | a start evicts a pooled entry if and only if its id is new, the pool is full and that entry's last such event is the oldest |
| SqlInteraction.NewestIsKeptIffBudget | verl/interactions/sql_interaction.py:185-186 | the lookup after a start succeeds if and only if the budget is not zero |
| SqlInFlight.SlotFate | verl/interactions/sql_interaction.py:131-150 | what one run of the loop does to a pooled entry: closed by an end of its id, or as the oldest of a full pool when a new id starts; overwritten by a start of its id; kept otherwise |
| SqlInFlight.HeldIsClosedIff | verl/interactions/sql_interaction.py:209-210 | the environment a running step holds is closed before it returns if and only if some run of the loop does so, and is otherwise still under its id or overwritten |
| SqlInFlight.ReleasedOnReturn | verl/interactions/sql_interaction.py:211-230 | a step that ends its episode releases its own environment if still pooled, another one if the id was started again, and nothing otherwise |
| SqlInFlight.ReturnCanReleaseAnother | verl/interactions/sql_interaction.py:209-230 | finalizing and restarting an id during its step: the step's environment is closed under it, and its return closes the new one |
| SqlInteraction.TruncateAtStopTag | verl/interactions/sql_interaction.py:84-95 | the two parts are the action; what is kept has no stop tag but one at its end, and ends in one when there is any |
| BatchProtocol.ConsistentIffAligned | verl/protocol.py:384-407 | with tensors present the check passes if and only if all columns have one length |
| BatchProtocol.LengthIsUnique | verl/protocol.py:384-407 | an aligned batch has one length |
| RowPlaces.StepsTake | verl/protocol.py:564-608 | a slice takes a place if and only if it lies between the clipped bounds, a whole number of steps from the first |
| RowPlaces.StepsDownTake | verl/protocol.py:564-608 | downwards it takes a place if and only if it lies above the second bound, a whole number of steps below the first |
| RowPlaces.StepsAt | verl/protocol.py:564-608 | place `i` of a slice is `i` steps from its first bound |
| RowPlaces.ForwardsTakes | verl/protocol.py:592-605 | a slice forwards takes a place if and only if it is a row, not before the start, before the stop, and a whole number of steps from the first place; negative bounds count from the end |
| RowPlaces.BackwardsTakes | verl/protocol.py:592-605 | a slice backwards takes a place if and only if it is a row, not after the start, after the stop, and a whole number of steps from the first place |
| RowPlaces.PlacesInOrder | verl/protocol.py:592-605 | any two places taken are as many steps apart as their positions, in the direction of the step |
| RowPlaces.PickBetween | verl/protocol.py:592-605 | with bounds `a <= b` from the start a slice takes the rows from `a` to before `b`, as far as there are any |
| RowPlaces.NegativeBounds | verl/protocol.py:592-605 | a bound `-k` is the place `k` rows before the end, or the start where there are fewer |
| RowPlaces.PickSlice | verl/protocol.py:564-608 | in single steps it takes the stretch between the bounds, which may be negative or beyond the end |
| RowPlaces.PickReversed | verl/protocol.py:564-608 | the slice without bounds in steps of -1 reverses the rows |
| BatchProtocol.PickedRows | verl/protocol.py:524-562 | rows taken by their places come whole, tensor and other columns alike |
| BatchProtocol.Slice | verl/protocol.py:564-608 | slicing a batch slices its rows, for all bounds and steps in both directions, and between two bounds gives the stretch of rows between them; it fails exactly on a step backwards through tensors or a step of zero |
| BatchProtocol.Split | verl/protocol.py:794-804 | piece `i` holds the rows from `i * size` on, `size` of them or what is left, and there are as many pieces as that takes |
| BatchProtocol.Concat | verl/protocol.py:806-826 | joining batches joins their rows |
| BatchProtocol.PadToDivisor | verl/protocol.py:70-95 | row `i` of the padded batch is row `i` modulo the length, for every length and divisor |
| BatchProtocol.Unpad | verl/protocol.py:98-102 | the last rows, as many as asked for, are dropped, or all when there are fewer |
| BatchProtocol.Chunk | verl/protocol.py:753-792 | all columns are cut at the same rows, by the sizes given for tensors and for other data; it fails exactly when the chunks are to be equal and cannot be, or the tensors give too few pieces |
| RowPlaces.ChunkSizesAddUp | verl/protocol.py:768-785 | the sizes add up to the rows, and tensors give the rows over the chunk size, rounded up, pieces |
| RowPlaces.TensorSizeAt | verl/protocol.py:768-785 | pieces of tensors are of one size, the last one of what is left |
| RowPlaces.ArraySizeAt | verl/protocol.py:768-785 | pieces of other columns are even, the first ones taking one of the rows left over each |
| RowPlaces.PiecesJoin | verl/protocol.py:768-785 | no row is lost: the pieces have their sizes and, laid end to end, are the rows |
| RowPlaces.EvenChunkSizes | verl/protocol.py:762-766 | where the number of chunks divides the rows, both ways of cutting are even |
| BatchProtocol.Dispatch | verl/protocol.py:70-102 | pad, chunk over the workers, work row by row, join and unpad is the map over the original rows, for every size and number of workers |
| BatchProtocol.IdentityIsRowWise | verl/protocol.py:70-102 | the premise of the dispatch theorem is met by a worker that changes nothing |
| MemoryBuffers.PaddedIsLeast | verl/utils/memory_buffer.py:55-59 | the padded size is the least aligned one that holds the elements |
| MemoryBuffers.TensorsInRange | verl/utils/memory_buffer.py:133-139 | every tensor starts aligned and lies, padding included, inside its buffer |
| MemoryBuffers.TensorsDisjoint | verl/utils/memory_buffer.py:133-139 | tensors of one type do not overlap |
| MemoryBuffers.TensorsFillBuffer | verl/utils/memory_buffer.py:81-98 | a place is inside the buffer if and only if it belongs to a padded tensor, and then to one only |
| MemoryBuffers.BuildMemoryBuffer | verl/utils/memory_buffer.py:72-98 | one zeroed buffer for each type, exactly as long as its tensors need |
| MemoryBuffers.BuildMemoryReference | verl/utils/memory_buffer.py:117-141 | the views are at the computed places; it fails exactly when a tensor finds no buffer or no room |
| MemoryBuffers.FittingBuffersHaveRoom | verl/utils/memory_buffer.py:49-49 | with buffers built for the tensors the range assertion never fails |
| MemoryBuffers.CopyToPlace | verl/utils/memory_buffer.py:112-113 | writing a tensor at its place leaves all other places alone |
| MemoryBuffers.PlacesApart | verl/utils/memory_buffer.py:107-114 | the places of two tensors never overlap, whatever the sizes of the buffers |
| MemoryBuffers.OthersApart | verl/utils/memory_buffer.py:107-114 | what is moved and what is still to be moved stays clear of the place being written |
| MemoryBuffers.BuildMemoryReferenceFromModule | verl/utils/memory_buffer.py:101-114 | parameters are moved to their places in order until one finds no buffer or no room; moved or not, all hold their own weights, wherever they lay as long as none is overwritten before it is moved; without `maintain_weight` nothing is written |
| MemoryBuffers.WrapModule | verl/utils/memory_buffer.py:150-155 | building the buffers and moving a module's parameters in puts every parameter at its place and changes no weight |

## Left out

- MicroBatches.LimitKeptWithRoom: states a condition under which the documented limit is kept, in one direction, because the other asks whether the split that is computed keeps it, which no guard on the lengths decides. For rows of one length `EqualRowsKeepLimitIff` is exact, and the bound that always holds is `LoadWithinLimits`.
- BatchProtocol.Slice: a tensor batch without columns is taken to accept steps backwards.
- BatchProtocol.Chunk: what the tensor library makes of an empty batch is taken to be empty chunks.
- MemoryBuffers.BuildMemoryReferenceFromModule: does not say what becomes of parameters that lie over their own place or one written before them; copying between overlapping views is up to the tensor library.
- BalancedPartitions.State.Merge: the sets are values inside a state, so sharing of a set between two states is not modelled; the code never shares one.
- Ulysses.AttentionRoundTrip: tensors have a sequence and a head dimension only; batch and trailing dimensions carry along unchanged. The gradient scaling of the gather is not modelled.
- SqlInteraction.NewestIsKeptIffBudget: a negative `max_instances` is not modelled; it makes the eviction loop fail on the empty pool.
- LayerOffset.GetTransformerLayerOffset: an explicit pipeline layout and the decoder's start rank are not modelled.
- SynchronizedGroupOffloadHandler's own push and pop, streams, events, pinned memory, autograd hooks, module wrapping and activation checkpointing: foreign runtime.
- The order in which the heap gives out states: the theorems hold for every order.
- The CUDA verify kernel, and loading and comparing dumps: unseen code and file access. Only the reference walk is modelled.
- Model forward passes, losses, log-probabilities, schedulers and FLOPs estimates: floating point and unseen libraries.
- Collectives, Ray, process groups, checkpoints, tokenizers, trackers and trainers: plumbing. Where ranks agree on a maximum it is a parameter.
- `SQLEnv`, SQLite, rewards, turn counters and the warning about trailing text: outside the pool.
- Parameter renaming by substrings, the gate and up projections, `log_seqlen_unbalance`, `prepare_dynamic_batch`, `select`, `pop`, `rename`, `repeat`, `reorder` and pickling of batches: they would only add easy members.
- `MegatronMemoryBufferForRollout`: repeats the layout once for each pipeline stage.
