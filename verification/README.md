# Verification of vllm-sail kernels, porting pipeline and tooling

A Dafny 4.11 model of the algorithms in this repository whose correctness is hard to see from their text, with proofs
of what they promise. `dafny verify dfyconfig.toml` checks everything. Every claim below holds for all inputs that its
precondition admits and, where threads, warps, programs or copies run concurrently, for every order of their steps: the
scheduler of a model method picks any step that is possible next.

**The BF16 top-k prefill kernels** (`csrc/plugin/sampler_bf16.h`). `Rows` defines the reference selection `Chosen(row, k)`:
the `k` indices that fewer than `k` others beat, by bin, then score, then lower index. `WarpOps`, `Threshold`,
`Histogram`, `Pipeline`, `Scatter`, `WorkSteal`, `Ties`, `TieOutcome`, `Registers` and `Block` model the phases between
barriers, thread by thread and atomic by atomic; `StreamKernel` and `RegisterKernel` compose them into the two kernels; and
`TopK` says exactly when each kernel selects `Chosen`: in one run, and in every run. `Arrival` states the order in which ties
can reach the buffer, and `WithheldLane`, `WithheldThread` and `Overflow` construct the failing runs that make the second
condition exact. A score is an ordered number with a coarse bin (`Elem`); `CoarseBin` proves that the bins the kernels
compute from half-precision keys meet what the rest assumes. Warp width, bins per thread, stages, vector sizes and buffer
capacity are parameters; only the warp width must be a power of two.

Five facts about these kernels are not in their documentation:

- The streaming kernel leaves `-1` in the output when no tiebreak is needed but the threshold bin holds more than
  `kBF16MaxTies` elements, because it sends those ties through the buffer all the same (lines 228-236). The register
  kernel writes them to the output directly and is not affected. `TopK.CrowdedFails` gives such a row for every buffer
  size.
- When a tiebreak is needed and the buffer overflows, both kernels leave `-1` in every run if more ties are wanted than the
  buffer holds: with `topK` 2048 and 1024 entries, more than 1024 wanted ties suffice. `TopK.StreamSelects` and
  `TopK.RegisterSelects` say for every long row when a slot stays at `-1`.
- When fewer are wanted, the output is `topK` distinct indices of highest bins (`TopK.AlwaysHighestBins`), and whether they are
  the top k is a matter of arrival. Every run selects the top k if and only if, for each wanted tie, fewer ties than the buffer
  holds are not behind it on its own thread: in its lane's part of one tile for the streaming kernel, in all its vectors for
  the register kernel (`TopK.AssuredSelects`, `TopK.AssuredRegisterSelects`). For every other row some run fails
  (`Overflow.FailingStreamRun`, `Overflow.FailingRegisterRun`), such as a row of rising scores with one tie more than the
  buffer holds (`Overflow.RisingFails`); with equal scores in its place no run of the streaming kernel fails
  (`Overflow.EqualRowSelects`).
- With 33 to 63 ties (for 32 lanes) unused lanes hold a padding entry of score `-FLT_MAX`, which outranks a tie of a lower
  score, such as `-inf`. `TopK.MaskedFails` gives a row that both kernels leave at `-1`; `TieOutcome.RanksExact` is the
  exact condition, which finite scores always meet (`TopK.FiniteRanks`).
- A row with no more than `topK` scores is written one slot per thread, so slots at or beyond the block size keep what the
  output held before (`StreamKernel.ShortOutput`).

**Data transformations.** `MixedRadix`, `MarlinPermutation`, `Words` and `MarlinRepack` model the Marlin weight repack on
signed 32-bit words and prove it lossless. `IndexerCache` models the INT8 indexer cache, `MergeAttn` the merge of partial
attention states over exact reals, `Routing` the reconstruction of a token routing from expert counts, and `TuningTable` the
choice of tuned configurations and the pruning of their table.

**The porting pipeline.** `IncludeClosure` models the worklist over `#include` lines, `BindingPruner` the line-driven machine
that drops op registrations, `PrunedBindings` what its result guarantees, and `Statements`, over `StringLiterals` and `Texts`,
how string literals and semicolons delimit statements and name ops.

**Stateful tooling.** `Selection` models the CI test selector and its router, `SelectionMeaning` says what a selection
holds and why, `SelectionCheck` the validator and its agreement with them; `Warmup` the prediction of warmup iterations
and the cached passes that perform them; `LazyResolver` the double-checked lock around the optional decode kernels.

Two deviations of the code from what one would read out of its documentation, both harmless and modelled as they are: for
tokens without context the attention merge copies the suffix state unchanged, so an empty one keeps its `+inf` marker and
its scratch values; and the ranks of a node together warm up fewer values than predicted whenever a list of M values is
not a multiple of their number.

## Model

| member | source | states |
|---|---|---|
| Rows.RanksArePermutation | csrc/plugin/sampler_bf16.h:222-224 | ranks by the kernels' tie order (score, then lower index) within any set of indices are a permutation of 0 .. size |
| Rows.ChosenIsTopK | csrc/plugin/sampler_bf16.h:815-855 | the reference selection has exactly k in-range indices and no index left out has a higher score than a selected one |
| Rows.ChosenAtThreshold | csrc/plugin/sampler_bf16.h:206-296 | with the threshold bin found, the top k are all elements above it and the best ones of the bin itself |
| WarpOps.WarpInclusiveSum | csrc/plugin/sampler_bf16.h:142-150 | the log-step shuffle scan leaves in each lane the sequential sum of the lanes up to it, for any number of lanes |
| WarpOps.WarpReduceSum | csrc/plugin/sampler_bf16.h:152-158 | the butterfly leaves the total of all lanes in every lane, for any power-of-two warp |
| WarpOps.ButterflyStep | csrc/plugin/sampler_bf16.h:154-156 | partners of a butterfly round are lanes of the warp, and the round turns sums over residue classes modulo 2m into sums modulo m |
| Threshold.OneBinMeets | csrc/plugin/sampler_bf16.h:192-193 | for 1 <= topK <= length exactly one bin passes the threshold test |
| Threshold.ScanIsPrefix | csrc/plugin/sampler_bf16.h:178-181 | the exclusive scan of a warp counts the entries before each lane's bins; subtracting the own sum never goes below zero |
| Threshold.WarpBase | csrc/plugin/sampler_bf16.h:184-186 | the masked reduction over warp totals is the number of entries before the warp |
| Threshold.TestBins | csrc/plugin/sampler_bf16.h:188-198 | a thread writes the record exactly when the threshold bin is one of its own, with exact counts; `length - prefixSum` never wraps |
| Threshold.FindThreshold | csrc/plugin/sampler_bf16.h:164-200 | with warps and threads in any order, the record ends with the one bin that passes the test, the entries above it and in it |
| Histogram.CountOne | csrc/plugin/sampler_bf16.h:383 | an atomic increment keeps every bin equal to the number of elements counted into it |
| Histogram.HistogramMeaning | csrc/plugin/sampler_bf16.h:164-200 | a full histogram adds up to the row length, its tail counts the elements above a bin, its entry those in the bin |
| Tiling.OnePlace | csrc/plugin/sampler_bf16.h:361-364 | an index belongs to one stage or tile, one thread and one element only |
| Tiling.TileInRange | csrc/plugin/sampler_bf16.h:138-140 | the rounded-up number of stages or tiles covers every index of the row |
| Pipeline.StreamPass.Fill | csrc/plugin/sampler_bf16.h:310-339 | issuing a stage stages that thread's elements and disturbs no stage of the window that is not consumed yet |
| Pipeline.StreamPass.Land | csrc/plugin/sampler_bf16.h:317-320 | an asynchronous copy may land at any moment between its issue and the wait without breaking the buffers |
| Pipeline.StreamPass.Issue | csrc/plugin/sampler_bf16.h:310-341 | the asynchronous copy of a stage belongs to the group that its thread commits next; partial vectors are copied at once |
| Pipeline.StreamPass.IssueRound | csrc/plugin/sampler_bf16.h:343-348 | threads issue and commit in any order until each has committed one group for every stage of the window, empty ones included |
| Pipeline.StreamPass.WaitPrior | csrc/plugin/sampler_bf16.h:352-355 | afterwards only the last `prior` groups that a thread has committed may be in flight |
| Pipeline.StreamPass.StageLanded | csrc/plugin/sampler_bf16.h:352-354 | so waiting for all but the last `stages - 1` groups has landed the stage about to be read, and waiting for all empties the pipeline |
| Pipeline.StreamPass.Count | csrc/plugin/sampler_bf16.h:360-384 | a thread counts the row's element at its place, which nobody has counted before, or leaves at the end of the row |
| Pipeline.StreamPass.Release | csrc/plugin/sampler_bf16.h:386-391 | a stage buffer is reused only after all threads have consumed it |
| Pipeline.StreamPass.Run | csrc/plugin/sampler_bf16.h:302-398 | for every order of threads and landings the pass ends, every bin counts exactly the row's elements in it, and nothing is in flight |
| Scatter.ScatterState.CountersExact | csrc/plugin/sampler_bf16.h:441-452 | at all times the two counters equal the scattered elements above and in the threshold bin |
| Scatter.ScatterState.Claim | csrc/plugin/sampler_bf16.h:438-452 | taking a position keeps the state valid: positions above the bin stay below their number, no position is given out twice |
| Scatter.ScatterState.Store | csrc/plugin/sampler_bf16.h:443-451 | a delayed store goes to the position its thread was given and to no other thread's |
| Scatter.ScatterState.Outcome | csrc/plugin/sampler_bf16.h:404-483 | after the scatter the first slots list each element above the bin once; ties are in the buffer up to its capacity, or directly behind |
| WorkSteal.Stealer.ClaimStep | csrc/plugin/sampler_bf16.h:424-474 | a lane scatters an element of its warp's tile that no lane has scattered before |
| WorkSteal.Stealer.ClaimedInOrder | csrc/plugin/sampler_bf16.h:435-452 | a lane takes the positions of its ties in a tile in the order of their indices |
| WorkSteal.Stealer.StealStep | csrc/plugin/sampler_bf16.h:477-480 | the shared counter hands each tile to one warp only |
| WorkSteal.Stealer.BroadcastStep | csrc/plugin/sampler_bf16.h:481 | moving on to the stolen tile forgets no element of the finished one |
| WorkSteal.Stealer.Progress | csrc/plugin/sampler_bf16.h:424-483 | while a warp works or a store is outstanding some step is possible |
| WorkSteal.Stealer.AllDone | csrc/plugin/sampler_bf16.h:410-424 | once no warp has a tile of the row every element has been scattered |
| WorkSteal.Stealer.Turn | csrc/plugin/sampler_bf16.h:424-483 | every step of every schedule decreases a well-founded measure, so all warps stop |
| WorkSteal.Stealer.Run | csrc/plugin/sampler_bf16.h:404-483 | every schedule ends with each element of the row scattered exactly once, all stores made, and the ties of each lane and tile in order |
| Ties.PopcBallot | csrc/plugin/sampler_bf16.h:238-248 | a ballot counts the entries that beat the target |
| Ties.RankTwoBallots | csrc/plugin/sampler_bf16.h:249-266 | two padded ballots count the entries that beat the target, plus the unused lanes when its score is below the padding |
| Ties.RankStrided | csrc/plugin/sampler_bf16.h:281-289 | lane-strided counts combined by the butterfly give the same count |
| Ties.RankOf | csrc/plugin/sampler_bf16.h:237-293 | the three forms compute one rank, except for the padded form below the padding score |
| Ties.RankOfEntry | csrc/plugin/sampler_bf16.h:222-224 | the count for a buffered tie is its rank among the buffered elements |
| Ties.ComputedRanksDiffer | csrc/plugin/sampler_bf16.h:244-247 | two ties never compute the same rank, so no two warps store to the same slot, even where padding shifts ranks |
| Ties.StoreRanks | csrc/plugin/sampler_bf16.h:237-294 | for every order of warps exactly the ties of wanted ranks are stored, each at its rank, and no other slot changes |
| TieOutcome.PaddedRanks | csrc/plugin/sampler_bf16.h:249-255 | a tie ranks among those that reach the padding score exactly when it reaches it itself |
| TieOutcome.RankedComplete | csrc/plugin/sampler_bf16.h:206-296 | with enough exact ranks the output lists the elements above the bin and the best of the kept ties |
| TieOutcome.RankedIncomplete | csrc/plugin/sampler_bf16.h:206-296 | otherwise, for every order of warps, some slot keeps its -1 |
| Block.StridedStore | csrc/plugin/sampler_bf16.h:851-854 | the block-strided copy writes every element once, in any order of threads, and nothing beyond |
| Block.ThresholdPhase | csrc/plugin/sampler_bf16.h:164-200 | from the histogram of a row: the bin of its k-th best element with the numbers of elements above and in it |
| Block.StorePlain | csrc/plugin/sampler_bf16.h:228-236 | without a tiebreak the buffered ties follow the elements above, in buffer order |
| Block.PlainComplete | csrc/plugin/sampler_bf16.h:228-236 | that completes the selection when the buffer held all ties |
| Block.PlainIncomplete | csrc/plugin/sampler_bf16.h:228-236 | and leaves -1 when it did not |
| Block.RankTies | csrc/plugin/sampler_bf16.h:237-296 | ranking the buffered ties lists the selection from them, or leaves -1, and says which |
| StreamKernel.HistogramPhase | csrc/plugin/sampler_bf16.h:495-510 | clearing and streaming leave the exact histogram of the row |
| StreamKernel.ScatterPhase | csrc/plugin/sampler_bf16.h:515-527 | the scatter of the streaming kernel finishes with valid output and buffer |
| StreamKernel.TieHandle | csrc/plugin/sampler_bf16.h:206-296 | after the scatter the output lists the elements above and the best kept ties, or keeps a -1, and says exactly when |
| StreamKernel.ShortOutput | csrc/plugin/sampler_bf16.h:837-845 | short rows: all indices then -1, in the slots that a thread exists for |
| StreamKernel.WindowSelected | csrc/plugin/sampler_bf16.h:829-836 | places listed by the reference selection lie in the window from `rowStart` to `rowEnd`, and no score of the window left out is higher than a listed one |
| StreamKernel.StreamingRow | csrc/plugin/sampler_bf16.h:489-528 | the phases of the streaming kernel on a long row, for every schedule |
| StreamKernel.TopKPerRowPrefillBF16Stream | csrc/plugin/sampler_bf16.h:815-855 | the whole streaming kernel on one row, short or long: a list of the reference selection is a top k of the window of the logits itself, and a short, empty or reversed window is listed in order, -1 behind it |
| Registers.RegisterBlock.Load | csrc/plugin/sampler_bf16.h:555-578 | registers hold the first pass of the row and shared memory the second |
| Registers.RegisterBlock.Accumulate | csrc/plugin/sampler_bf16.h:580-604 | every element of one or two passes is counted exactly once, threads in any order |
| Registers.RegisterBlock.Reload | csrc/plugin/sampler_bf16.h:642-645 | reloading a vector brings the second-pass elements of the same thread and touches no other register |
| Registers.RegisterBlock.NextRegister | csrc/plugin/sampler_bf16.h:615-677 | the register a thread looks at in either pass holds the row's element of the index it computes |
| Registers.RegisterBlock.ScatterElement | csrc/plugin/sampler_bf16.h:620-641 | a step scatters an element nobody has scattered, or leaves the loop with none of the row left for the thread |
| Registers.RegisterBlock.Run | csrc/plugin/sampler_bf16.h:615-680 | every schedule of the register scatter, one pass or two, scatters each element once; each unguarded write above the bin is in range |
| Registers.RegisterBlock.ClaimedInOrder | csrc/plugin/sampler_bf16.h:615-677 | a thread takes the positions of all its ties in the order of their indices |
| RegisterKernel.LoadPhase | csrc/plugin/sampler_bf16.h:543-604 | loading and accumulating give the exact histogram of a row of at most two passes |
| RegisterKernel.DirectOutcome | csrc/plugin/sampler_bf16.h:635-640 | without a tiebreak both regions together fill all topK slots with exactly the top k, whatever the number of ties |
| RegisterKernel.RegisterTies | csrc/plugin/sampler_bf16.h:680-753 | the tie phase completes the selection or keeps a -1, and says exactly when |
| RegisterKernel.RegisterRow | csrc/plugin/sampler_bf16.h:534-753 | the phases of the register kernel on a long row, for every schedule |
| RegisterKernel.TopKPerRowPrefillBF16Register | csrc/plugin/sampler_bf16.h:759-809 | the same for the whole register kernel on one row of at most two passes |
| TopK.ThresholdUnique | csrc/plugin/sampler_bf16.h:192-193 | a row has one threshold bin, so both kernels work with the same |
| TopK.KeptDecides | csrc/plugin/sampler_bf16.h:206-296 | if enough ties were kept, the selection from them is the top k if and only if no wanted tie was lost |
| TopK.StreamSelects | csrc/plugin/sampler_bf16.h:815-855 | on every long row: a slot stays at -1 if and only if the ties overflow the buffer without a tiebreak, more are wanted than fit, or their ranks are wrong; other runs list the top k if and only if no wanted tie was lost |
| TopK.RegisterSelects | csrc/plugin/sampler_bf16.h:759-809 | the same for the register kernel, which never fails without a tiebreak |
| TopK.AlwaysHighestBins | csrc/plugin/sampler_bf16.h:447-451 | a run without -1 lists topK distinct indices of the row, and no index left out has a higher bin, lost ties or not |
| TopK.AssuredSelects | csrc/plugin/sampler_bf16.h:404-483 | if no slot stays blank and fewer ties than fit can be ahead of each wanted one, every run of the streaming kernel lists the top k |
| TopK.AssuredRegisterSelects | csrc/plugin/sampler_bf16.h:615-680 | the same for every run of the register kernel |
| Arrival.FirstAreClosed | csrc/plugin/sampler_bf16.h:447-451 | the buffer holds with each tie the lower ones of the same thread |
| Arrival.AlwaysArrives | csrc/plugin/sampler_bf16.h:447-451 | a tie that fewer others than fit can precede is in the buffer after every run |
| WithheldLane.RunElsewhere | csrc/plugin/sampler_bf16.h:424-483 | with two warps or more, one lane can wait in front of an element until everything but that element and those behind it on its lane is scattered |
| WithheldThread.RunElsewhere | csrc/plugin/sampler_bf16.h:615-680 | the same for a thread of the register kernel |
| Overflow.NotAssured | csrc/plugin/sampler_bf16.h:228-296 | a row not covered by TopK.AssuredSelects leaves -1 in every run or has a wanted tie that can be lost |
| Overflow.RegisterNotAssured | csrc/plugin/sampler_bf16.h:615-680 | the same for the register kernel |
| Overflow.FailingStreamRun | csrc/plugin/sampler_bf16.h:815-855 | for every wanted tie that can be lost, a run of the streaming kernel that loses it and does not list the top k |
| Overflow.FailingRegisterRun | csrc/plugin/sampler_bf16.h:759-809 | and one of the register kernel |
| Overflow.RisingFails | csrc/plugin/sampler_bf16.h:447-451 | a row, with one tie more than the buffer holds, on which runs of both kernels miss the highest score |
| Overflow.EqualRowSelects | csrc/plugin/sampler_bf16.h:435-452 | a row with as many ties on which every run of the streaming kernel selects the top one |
| TopK.FiniteRanks | csrc/plugin/sampler_bf16.h:249-251 | scores at or above the padding score always have exact ranks |
| TopK.KernelsAgree | csrc/plugin/sampler_bf16.h:759-855 | for finite scores and ties that fit, every run of either kernel lists the same set: topK distinct in-range indices that no other score exceeds |
| TopK.WindowsAgree | csrc/plugin/sampler_bf16.h:759-855 | for a window of finite scores with no bin fuller than the buffer, every run of either kernel lists a top k of the window, and both the same places |
| TopK.KernelsDifferOnlyByRoom | csrc/plugin/sampler_bf16.h:228-236 | for finite scores the register kernel lists the top k and the streaming kernel lists the same set if and only if the ties fit the buffer |
| TopK.CrowdedFails | csrc/plugin/sampler_bf16.h:228-236 | a valid long row on which every run of the streaming kernel leaves -1 and none of the register kernel does |
| TopK.MaskedFails | csrc/plugin/sampler_bf16.h:249-255 | a valid long row of scores below the padding on which both kernels leave -1 |
| TopK.ShortRowListsAll | csrc/plugin/sampler_bf16.h:780-788 | with topK within the block size a short row lists all its indices, then -1 |
| CoarseBin.KeyMonotone | csrc/plugin/sampler_bf16.h:129-136 | the key orders half-precision numbers, negative zero just below positive zero, and is injective |
| CoarseBin.BinExactly | csrc/plugin/sampler_bf16.h:135 | two numbers share a bin exactly when sign, exponent and the six highest bits of the mantissa agree |
| CoarseBin.BinOnto | csrc/plugin/sampler_bf16.h:135 | every one of the 4096 bins is that of some number |
| CoarseBin.RowsAreValid | csrc/plugin/sampler_bf16.h:129-136 | rows of finite scores have bins below 4096 that never decrease when the score increases, and two scores share one exactly when their roundings agree but for the four lowest bits |
| CoarseBin.ZerosDiffer | csrc/plugin/sampler_bf16.h:129-136 | equal scores may lie in different bins: the two zeros do |
| MixedRadix.DecodeEncode | vllm_sail/native/portable.py:67-79 | an index of a multi-dimensional tensor determines its coordinates |
| MixedRadix.EncodeDecode | vllm_sail/native/portable.py:67-79 | every index in range is the index of its coordinates |
| MarlinPermutation.RawInverse | vllm_sail/native/portable.py:19-36 | the list before interleaving is a permutation of the 1024 positions, with its inverse |
| MarlinPermutation.EntrySlotInverse | vllm_sail/native/portable.py:15-44 | the whole permutation has an inverse on both sides, for both widths and both modes |
| MarlinPermutation.SlotFromDigits | vllm_sail/native/portable.py:19-44 | where a position of the group goes, from its tile, column and row: thread by thread, interleaved within the words as the width and the mode say |
| MarlinPermutation.WeightPermutation | vllm_sail/native/portable.py:15-44 | the nested loops build that permutation, and widths other than 4 and 8 are refused |
| Words.OrAbove | vllm_sail/native/portable.py:82-83 | or-ing bits in above all set ones adds them |
| Words.OrBits | vllm_sail/native/portable.py:82-83 | a bit of a bitwise or is set exactly when it is set in one operand |
| Words.PackedField | vllm_sail/native/portable.py:63-66 | each field of a packed number can be read back |
| Words.SignedField | vllm_sail/native/portable.py:63-66 | arithmetic shift and mask read the same field from a word with its sign bit set |
| Words.FieldsDetermine | vllm_sail/native/portable.py:63-66 | the fields of a 32-bit word determine it, sign included |
| MarlinRepack.TileInverse | vllm_sail/native/portable.py:67-68 | the tile permutation of dimensions is a bijection on codes |
| MarlinRepack.WhereIsBijection | vllm_sail/native/portable.py:67-76 | each source code has exactly one (word, field) in the output and each output field one code |
| MarlinRepack.PlaceOfCode | vllm_sail/native/portable.py:67-76 | word and field of code (k, n) in arithmetic on k and n, for both widths and both modes |
| MarlinRepack.PackWords | vllm_sail/native/portable.py:77-83 | or-ing field after field in place leaves all codes of each word in it |
| MarlinRepack.GptqMarlinRepack | vllm_sail/native/portable.py:47-84 | arguments are accepted exactly when aligned and of matching shape, refused with the first failing check otherwise; code (k, n) of the source is in the field and word of the output computed from k and n |
| MarlinRepack.Lossless | vllm_sail/native/portable.py:47-84 | reading the codes back through the inverse permutation gives every source word, negative ones included |
| MarlinRepack.RepackIsInjective | vllm_sail/native/portable.py:47-84 | different weights are never repacked to the same words |
| MergeAttn.MergeComposes | vllm_sail/attention/ops/merge_attn_states.py:64-87 | merging the states of two key lists gives the state of their concatenation, with either or both empty, marked by +inf or -inf |
| MergeAttn.MergeAssociates | vllm_sail/attention/ops/merge_attn_states.py:64-87 | merging is associative |
| MergeAttn.EmptyIsUnit | vllm_sail/attention/ops/merge_attn_states.py:74-86 | the empty state is a unit on both sides whatever its scratch memory holds |
| MergeAttn.NoContextIsEmptyPrefix | vllm_sail/attention/ops/merge_attn_states.py:64-89 | skipping the merge for a token gives what merging an empty prefix gives if and only if the suffix is not empty, or already is the merged empty state |
| MergeAttn.TokenAttends | vllm_sail/attention/ops/merge_attn_states.py:64-89 | what is stored for a token is the state of the prefix keys, none without context, followed by the suffix keys |
| MergeAttn.MergeKernel | vllm_sail/attention/ops/merge_attn_states.py:34-98 | programs in any order store the merged element of every token, head and dimension and, if asked, the log-sum-exp, and change no other place of either output |
| TuningTable.DroppedIsInside | benchmarks/kernels/fusedmoe_tuning_tools/faster_autotuning_for_vllm_fusedmoe.py:78-92 | a dropped row lies strictly between two kept rows of its own run |
| TuningTable.DroppedExactly | benchmarks/kernels/fusedmoe_tuning_tools/faster_autotuning_for_vllm_fusedmoe.py:78-92 | a row is dropped exactly when it lies strictly inside a stretch of at least `min_consecutive` rows of one configuration |
| TuningTable.NearestPreferred | vllm_sail/utils/deep_gemm.py:87-92 | on a sorted table the lookup returns the nearest key, the smaller of two equally near |
| TuningTable.PruningKeepsLookups | benchmarks/kernels/fusedmoe_tuning_tools/faster_autotuning_for_vllm_fusedmoe.py:57-94 | for every query the pruned table yields the same configuration as the full one |
| TuningTable.BestPairIsMinimal | benchmarks/kernels/fusedmoe_tuning_tools/faster_autotuning_for_vllm_fusedmoe.py:97-147 | the pair chosen for a batch size consists of the first fastest samples of one block size, and no compatible pair is faster in total |
| TuningTable.BestPairIsFirst | benchmarks/kernels/fusedmoe_tuning_tools/faster_autotuning_for_vllm_fusedmoe.py:145-146 | among equally fast pairs it is that of the first block size |
| Routing.EntriesDiffer | benchmarks/kernels/fusedmoe_tuning_tools/run_fusedmoe_target.py:144 | the entries of a token in the transposed view never come from the same expert's run |
| Routing.RecoverTopkIds | benchmarks/kernels/fusedmoe_tuning_tools/run_fusedmoe_target.py:129-151 | a routing results exactly when the assertions hold, one row per token and one entry per choice |
| Routing.ExpertsDiffer | benchmarks/kernels/fusedmoe_tuning_tools/run_fusedmoe_target.py:129-151 | for every choice of shuffles no token is routed to the same expert twice |
| Routing.CountsRecovered | benchmarks/kernels/fusedmoe_tuning_tools/run_fusedmoe_target.py:129-151 | for every choice of shuffles each expert gets exactly its given number of tokens |
| Routing.EntryExactly | benchmarks/kernels/fusedmoe_tuning_tools/run_fusedmoe_target.py:138-150 | which expert a slot holds, from the order of experts, their counts and both shuffles |
| Routing.AcceptsRoutings | benchmarks/kernels/fusedmoe_tuning_tools/run_fusedmoe_target.py:134-136 | the assertions let through exactly the counts for which some routing of different experts per token exists, given an expert at all |
| IndexerCache.PagesFit | vllm_sail/attention/ops/mla_sparse.py:81-86 | the layout that the caller asserts: whole pages of 132 bytes a token, a multiple of four apart, all of them in the cache |
| IndexerCache.InPage | vllm_sail/attention/ops/mla_sparse.py:58-69 | value and scale bytes of a slot lie in its page and in the cache, and the planes do not overlap |
| IndexerCache.OneOwner | vllm_sail/attention/ops/mla_sparse.py:58-69 | no byte belongs to two slots |
| IndexerCache.ScaleAligned | vllm_sail/attention/ops/mla_sparse.py:83-86 | with the asserted alignment every scale is a whole aligned 32-bit number |
| IndexerCache.StoreRow | vllm_sail/attention/ops/mla_sparse.py:54-69 | one program stores its row and touches no other byte; negative and out-of-range slots store nothing |
| IndexerCache.ScatterCache | vllm_sail/attention/ops/mla_sparse.py:44-108 | programs in any order: token t of page p is at `p * stride + 128 t` and its scale at `p * stride + 128 * blockSize + 4 t`, unchanged for every row with its own slot, and all other bytes are untouched |
| IncludeClosure.ReadFile | vllm_sail/native/porting.py:272-289 | one file: new includes are queued once, dangling ones recorded, escaping ones raise |
| IncludeClosure.Completed | vllm_sail/native/porting.py:266-291 | once the queue is empty the files seen are exactly those reachable through resolved includes, cycles or not |
| IncludeClosure.Worklist | vllm_sail/native/porting.py:266-291 | it ends, and fails exactly when a reached file includes one outside csrc |
| IncludeClosure.ClosurePaths | vllm_sail/native/porting.py:253-299 | exactly when it succeeds, and then the sorted headers reached, where an include means the file next to its includer or else the shared one, and the sorted names that reached files include and neither lookup finds |
| IncludeClosure.OneHeaderList | vllm_sail/native/porting.py:266-291 | the header list does not depend on the order in which sources are given and files visited |
| IncludeClosure.ShadowedStaysOut | vllm_sail/native/porting.py:247-248 | a shared file stays out of the closure when every reached file that includes it by name has one of that name next to itself |
| SortedNames.IncreasingIsSorted | vllm_sail/native/porting.py:291 | a set of strings has one increasing listing, the sorted one |
| SortedNames.BeforeExactly | vllm_sail/native/porting.py:291 | strings are ordered by the first character in which they differ, a prefix first |
| BindingPruner.ParsedFile | vllm_sail/native/porting.py:459-507 | reading a file into blocks, directives and statements loses no line and keeps the order |
| BindingPruner.ShapedParses | vllm_sail/native/porting.py:459-507 | units in a legal order are read back from their lines as they were |
| BindingPruner.Pruner.Settle | vllm_sail/native/porting.py:509-543 | a complete statement is emitted with its comments or dropped with them, and recorded when dropped |
| BindingPruner.Pruner.Body | vllm_sail/native/porting.py:479-507 | a block is read up to its closing line; an error means that it has none |
| BindingPruner.Pruner.Prune | vllm_sail/native/porting.py:459-477 | a file is accepted exactly when every block ends; the output is the lines of the kept units, the records those of the dropped |
| PrunedBindings.PrunedIsSubsequence | vllm_sail/native/porting.py:459-543 | the output is a subsequence of the input lines |
| PrunedBindings.KeptExactly | vllm_sail/native/porting.py:516-528 | exactly the units survive that are no registration or register an op of a compiled tier, in their order and as often as they occur; preprocessor lines always do |
| PrunedBindings.PruningTwice | vllm_sail/native/porting.py:459-543 | pruning the output again is accepted, drops nothing and records nothing |
| PrunedBindings.RecordedExactly | vllm_sail/native/porting.py:530-543 | an op enters the table exactly when a def of it is dropped, the report exactly when a dropped op has no owner; the count is exact |
| PrunedBindings.RecordsStaySound | vllm_sail/native/porting.py:530-550 | over all files no compiled op is in the table and every entry names its own op, its owner's tier, and as reason the hazards in order, that nobody declares it, or that it has no implementation |
| PrunedBindings.LastDefinitionWins | vllm_sail/native/porting.py:536-543 | the last dropped definition of an op decides its entry, schema and kind included |
| PrunedBindings.RejectedExactly | vllm_sail/native/porting.py:507 | a file is refused exactly when no legal order of units has its lines |
| StringLiterals.BalancedSplits | vllm_sail/native/porting.py:75 | behind text whose literals are closed, literals are found as if reading started there |
| StringLiterals.ReadBySpans | vllm_sail/native/porting.py:75 | the literals found, by position: matches of the pattern, disjoint and in order, outside of which no match starts |
| StringLiterals.SpansExist | vllm_sail/native/porting.py:75 | every text has such matches |
| Statements.CompleteExactly | vllm_sail/native/porting.py:552-554 | text ends a statement exactly when a semicolon stands outside its literals |
| Statements.StatementExactly | vllm_sail/native/porting.py:495-505 | a statement ends with the first line up to which that holds |
| Statements.CompleteByLine | vllm_sail/native/porting.py:552-554 | when no literal spans lines a statement is complete once one of its lines has a semicolon outside literals |
| Statements.StatementEndsAtSemicolon | vllm_sail/native/porting.py:503-505 | such a statement ends at its first line with a semicolon outside literals |
| Statements.NameExactly | vllm_sail/native/porting.py:557-569 | an op is named by the whole leading identifier of its stripped literals, all of them for a `def` and the first for an `impl`, and by nothing when there is none |
| Statements.NameStartsSchema | vllm_sail/native/porting.py:557-573 | the name of a defined op is the whole leading identifier of its schema |
| Statements.ProbeExactly | vllm_sail/native/porting.py:576-583 | a probe has an arrow in its schema, `bool` behind the first one and no `Tensor` in front of it |
| Statements.EntryExactly | vllm_sail/native/porting.py:536-543 | the entry of a dropped definition has the stripped text of all literals as schema and the kind, tier and name that follow |
| Statements.KeptByName | vllm_sail/native/porting.py:513-528 | with this reading a registration is kept exactly when the op named in its literals is owned by a compiled tier |
| Statements.OtherCallsKept | vllm_sail/native/porting.py:513-518 | a statement without a `def` or `impl` call is kept |
| Texts.StripExactly | vllm_sail/native/porting.py:568 | stripping leaves what stands between white space and neither starts nor ends with any |
| Texts.SpaceCharacters | vllm_sail/native/porting.py:568 | the characters that are stripped, one by one |
| Texts.NameCharacters | vllm_sail/native/porting.py:76 | the characters of names, one by one |
| Texts.LeadingNameExactly | vllm_sail/native/porting.py:76 | the leading identifier ends where the text does or before a character that is no name character |
| Selection.FindPath | scripts/ci/ppu_ops_select.py:395-418 | one changed path adds its tests, rules and reasons, or makes the selection full |
| Selection.SelectTests | scripts/ci/ppu_ops_select.py:383-431 | the loop fails exactly on an unsafe path, and otherwise yields the selection defined from the set of paths, whatever their order |
| SelectionMeaning.SafePathExactly | scripts/ci/ppu_ops_select.py:44-63 | a path is safe exactly when it starts with neither slash nor dash, has no forbidden character, and no component is empty or consists of one or two dots |
| SelectionMeaning.RoutableExactly | scripts/ci/ppu_ops_select.py:435-445 | routing asks for exactly the two boards with one device each, known tests, and one of the boards or both for each of them |
| SelectionMeaning.SelectedExactly | scripts/ci/ppu_ops_select.py:383-431 | a test is selected exactly when a changed path, or everything, calls for it and some board has it and enough devices; when everything does is said path by path |
| SelectionMeaning.ListsExactly | scripts/ci/ppu_ops_select.py:395-418 | which rules are reported as matched and which paths as unmapped |
| SelectionMeaning.ReasonsExactly | scripts/ci/ppu_ops_select.py:387-429 | each reason is given exactly when it applies, and `no_device_changes` when none does |
| Selection.RouteTests | scripts/ci/ppu_ops_select.py:434-461 | the router fails exactly on an invalid profile, an unknown test or a test without a known board |
| SelectionCheck.MorePathsMoreTests | scripts/ci/ppu_ops_select.py:383-431 | enlarging the set of changed paths never removes a test |
| SelectionCheck.OnlyRunnable | scripts/ci/ppu_ops_select.py:419-424 | only tests that some board can run are selected, all of them in a full selection |
| SelectionCheck.PartialExplains | scripts/ci/ppu_ops_select.py:395-418 | a selection that is not full explains every changed path and includes each runnable test the path calls for |
| SelectionCheck.RoutedExactlyOnce | scripts/ci/ppu_ops_select.py:434-461 | each selected test is in exactly one group of each board that can run it, and in no other |
| SelectionCheck.RoutesWellFormed | scripts/ci/ppu_ops_select.py:446-461 | groups are named after their boards and list the files of their tests, with one cell of one process each |
| SelectionCheck.MadeIsAccepted | scripts/ci/ppu_ops_select.py:709-905 | with a valid configuration every valid diff yields a selection that the validator accepts on the same inputs |
| SelectionCheck.MadeFields | scripts/ci/ppu_ops_select.py:709-764 | when a selection is made, which fields it copies from the diff and the build, and that an unqualified environment is reported as such |
| SelectionCheck.PartialExactly | scripts/ci/ppu_ops_select.py:767-905 | the validator accepts a selection that is not full exactly when it is what make_selection yields for the diff it names, with the expected build |
| SelectionCheck.FullExactly | scripts/ci/ppu_ops_select.py:767-905 | and a full one exactly when it is what make_selection yields under force, apart from reasons, rules and unmapped paths, which need only be sorted |
| SelectionCheck.AcceptedIsSafe | scripts/ci/ppu_ops_select.py:767-905 | whatever the validator accepts runs at least the tests the rules call for, on all boards that can run them; if not full it is exactly that selection, in a qualified environment |
| Warmup.SharesTile | vllm_sail/model_executor/warmup/deep_gemm_warmup.py:83-90 | the shares of all ranks are disjoint consecutive pieces that lack exactly the last values modulo the number of ranks |
| Warmup.RanksFallShort | vllm_sail/model_executor/warmup/deep_gemm_warmup.py:83-90 | together all ranks fall short of the prediction by the sum of those remainders over the new sizes |
| Warmup.DenseWorkExactly | vllm_sail/model_executor/warmup/deep_gemm_warmup.py:292-322 | the dense work is each size that is not cached, once, with its M values |
| Warmup.GroupedWorkExactly | vllm_sail/model_executor/warmup/deep_gemm_warmup.py:360-408 | the grouped work is each size of an expert weight that is not cached, once, with the M values of the first layer that has it |
| Warmup.NothingLeft | vllm_sail/model_executor/warmup/deep_gemm_warmup.py:292-397 | after the passes the caches leave nothing to do |
| Warmup.WarmupState.DensePass | vllm_sail/model_executor/warmup/deep_gemm_warmup.py:292-322 | the dense pass calls the kernel for this rank's share of every new size, once per size |
| Warmup.WarmupState.GroupedPass | vllm_sail/model_executor/warmup/deep_gemm_warmup.py:360-408 | the grouped pass does so for both expert weights of every layer, in order |
| Warmup.WarmupState.PredictedValues | vllm_sail/model_executor/warmup/deep_gemm_warmup.py:1197 | the predicted number of grouped values is the length of the range, also for an M below the alignment |
| Warmup.WarmupState.CountWarmupIterations | vllm_sail/model_executor/warmup/deep_gemm_warmup.py:1178-1205 | the single walk predicts the work of both passes, starting from any caches |
| Warmup.WarmupState.Warmup | vllm_sail/model_executor/warmup/deep_gemm_warmup.py:1387-1413 | on one rank the calls made are exactly as many as predicted, on several each makes its share, and a second prediction is zero |
| LazyResolver.MoveKeeps | vllm_sail/attention/pla_decode.py:49-111 | each read or write of a global by any thread keeps mutual exclusion, set-once handles, their order and their origin in one import |
| LazyResolver.Resolver.Step | vllm_sail/attention/pla_decode.py:49-111 | a step of the code is exactly that move |
| LazyResolver.Resolver.Run | vllm_sail/attention/pla_decode.py:49-111 | over every run of any number of threads, with failing imports and retries, a handle once set never changes and the flag never falls |
| LazyResolver.NeverStuck | vllm_sail/attention/pla_decode.py:65-95 | some thread can always move |
| LazyResolver.Promises | vllm_sail/attention/pla_decode.py:49-111 | in every reachable state at most one thread is in the section, each handle was set at most once, at most one import succeeded and the handles are its first and second kernel; a call that saw the flag, or returned anything, returned the kernel of its own getter; and calls raise exactly as often as imports fail that are not tolerated |

## Left out

- Overflow.FailingStreamRun: a block has at least two warps, as the kernel's 32 do; a single warp has only one schedule of its tiles, and a tie of a later tile can then not be ahead of one of an earlier tile.
- TopK.StreamSelects: a buffer between one and two warps' entries, when it overflows, is ranked by padded ballots, and then which ties were kept decides about -1; `StreamKernel.StreamResult` covers that case, the lemma only the others. The kernels' 1024 entries for 32 lanes are not such a buffer.
- TopK.RegisterSelects: the same exception.
- Rounding, NaN and infinities of scores: a score is an ordered number with a bin. An infinite score can be modelled as one beyond the padding score, which is where `TopK.MaskedFails` finds the kernels fail; NaN is unordered and has no model.
- CoarseBin.RowsAreValid: rounding to half precision is a parameter that keeps signs and never reverses an order; the rounding function itself is not defined.
- Wrap-around of 32-bit counters and indices in the kernels: numbers are unbounded. Every subtraction is proved not to go below zero; row lengths near 2^32 are not considered.
- Scatter.ScatterState.Store: a tie entry is stored in one step, where the kernels store its index and its score in two; nothing reads an entry before the next barrier.
- The union of histogram and tie buffer: they are separate arrays; a barrier separates the last read of one from the first write of the other. The padding that the streaming pass writes beyond the row is not stored; no one reads it.
- The scatter variant of `bf16StreamPass`, which no kernel uses, and the stride arithmetic that finds a row in the batch.
- StreamKernel.TopKPerRowPrefillBF16Stream: `topK >= 1`, as the kernel's caller provides; with a negative row bound the row is not modelled.
- RegisterKernel.TopKPerRowPrefillBF16Register: only rows of at most two passes, as lines 9-11 of the source promise.
- MarlinRepack.GptqMarlinRepack: K and N are positive; the source leaves empty tensors to torch, which does not accept the inferred dimension of an empty reshape. Tensor devices and the check of the element type are not modelled.
- Words: bits are operations on numbers (halving, doubling and remainders), not bit vectors.
- MergeAttn.MergeKernel: exact reals; a log-sum-exp is represented by its positive exponential and the subtraction of the maximum by division. The FP8 encoding of results is not modelled, and inputs are values that the stores do not overwrite.
- IndexerCache.ScatterCache: quantisation supplies the bytes, and rows that share a slot are excluded, since their programs race. The device assertion for slots out of range is modelled as the skip behind it.
- TuningTable.BestPairIsMinimal: durations are numbers, the kernel name is one constant, as the only caller provides, and block sizes are listed in any order. A configuration is compared as a whole.
- TuningTable.PruningKeepsLookups: the lookup rule is that of `vllm_sail/utils/deep_gemm.py`; the fused-MoE reader of this table is not in this repository.
- Routing.RecoverTopkIds: shuffles are arbitrary permutations given as arguments. An empty list of experts makes the maximum raise in the source and counts as a failed assertion here.
- IncludeClosure.ClosurePaths: matched include names and resolved targets are given; paths that leave the source tree through links are not modelled.
- BindingPruner.Pruner.Prune: what opens a block, whether a line is a comment or opens a brace, and the position of a `def` or `impl` call come from regular expressions and are given per line and per statement. The sorted listing of excluded and unclaimed ops, the generated tables and the report are left out.
- Texts.StripExactly: white space is that of ASCII.
- Texts.LeadingNameExactly: identifier characters are those of ASCII.
- SelectionCheck.MadeIsAccepted: fields are typed, so checks of JSON shape, schema numbers and image digests are left out, as are the reading of diagnostics into the build fingerprint and the evidence that qualifies an environment; both sides are given the results.
- Selection.SelectTests: a path or an id that the catalog lists twice, which the configuration check refuses, stands for both tests, where the code keeps the last; glob matching is a parameter; the discovery of the test catalog and the validation of the configuration against the file system are summarised by `Config.Valid`.
- Warmup.WarmupState.Warmup: only the FP8 passes; the int8, bf16, fp4 and w4a16 ones have the same structure with other caches. No layer is both dense and grouped, since the two filters ask for different classes. The M values of a dense weight and the largest grouped M are given.
- LazyResolver.Resolver.Step: a read or write of one global is one step; logging, and whether the platform and the setting enable the kernels, are answers of the environment at each step.
- `_encode_e4m3fn`, rank layout, host launchers, compiled kernels that are not in this repository, and wrappers over torch, Triton, vLLM and DeepGEMM: nothing in them to prove beyond single branches or finite cases.
- Command-line tools, subprocesses, downloads, Git, hashing, TOML and JSON parsing: plumbing without an algorithm of its own.
