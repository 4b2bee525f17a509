# Verified models of the GLM-5.3 EXL3 serving overlay

The overlay changes how vLLM routes tokens to EXL3 experts, schedules and sizes prefill, drafts and
verifies speculative tokens, lays out the KV pool, shards and edits weights, and scans its own text.
Each of those changes promises that it is invisible: a faster or smaller form that does what a plain
form would. This project states those promises and proves them.

| file | what it models |
|---|---|
| `MoeRouting.dfy`, `MoePasses.dfy`, `MoeDispatch.dfy`, `FatScratch.dfy`, `Totals.dfy` | the fused mixture-of-experts call: routing, sort, launch, row tiles, fallback tiers, scratch and counters |
| `PrefillSplitter.dfy`, `IndexerWorkspace.dfy` | the sparse-indexer chunk splitter and the right-sized workspace |
| `AdaptiveK.dfy`, `AdaptiveKRuns.dfy`, `SpeculativeVerify.dfy` | the adaptive verification length, its runs, and what a verifier emits |
| `GrammarMatcher.dfy` | grammar objects under speculative batches |
| `DraftCache.dfy`, `GroupedConv.dfy` | the DFlash2 selector walk, the sparse-clear logit cache, the grouped convolution |
| `KvLayout.dfy` | the drafter's KV group, its layout and its cost |
| `TensorParallel.dfy`, `WeightEdit.dfy` | sharding of experts and the load-time edit of `o_proj` |
| `AlignedSchedule.dfy` | block-aligned prefill chunks and the mixed-prefill cap |
| `ReasoningStops.dfy`, `ReadTail.dfy` | two incremental scans against their whole-input forms |
| `Arith.dfy`, `Wrappers.dfy` | facts about products, quotients and chunk offsets; optional and refused results |

Code that works in place is a class or a method proved against a specification function; the
promises are lemmas about those functions, or the invariants the methods keep. What a specification
function computes is itself stated apart from its body: by an independent definition, an inverse, the
answer to a single nonzero entry together with linearity, or its cases in the program's own settings. Environment
switches, sort orders, clocks, files and random draws are parameters, so every statement holds for
all of them. Expert outputs are represented by the multiset of (expert, token, weight)
contributions, which leaves the order of floating-point additions and the expert arithmetic itself
out; weights, logits and averages are reals.

## Where the code does less than it says

Some promises hold only under a condition. Each is stated as an if-and-only-if, or with the input
that breaks it:

- An expert id past the end of the expert map stands for itself in the per-expert loop and is dropped
  by the fused path (`FaithfulIffReference`, `IdPastMapIsDropped`). This needs a map shorter than the
  local expert list; with any other map every prefill path is the loop for every routing
  (`CoveringMapIsExact`).
- When the kernel tier finds a symbol missing it raises after it has recorded the tier, so the call and
  reason totals stay balanced but a direct call can be counted without its scatter (`ApplyBatchedFat`).
- A decode call launches the kernel once, and the kernel skips oversized experts. With `tokens <= cap`
  this loses nothing when a token's experts are distinct, and does lose rows when one token names an
  expert twice (`DistinctExpertsFitOneLaunch`, `RepeatedExpertIsDropped`).
- The adaptive width has a captured graph on every run exactly when the candidate list is safe; a
  non-positive candidate makes it escape (`CapturedIffSafe`, `ZeroCandidateIsUnsafe`).
- The override file can turn the adaptive policy off but never on again: the call site stops calling
  `apply`, and with it the reload, as soon as the policy is off (`OffIsForGood`).
- The right-sized workspace is the least one that keeps the chunks when the ratio divides the span, and
  otherwise up to one entry per request larger than the least (`WorkspaceSufficesIff`,
  `RightsizedIsLeast`).
- Upstream's block alignment hands out nothing exactly when a chunk below the block size meets no
  boundary; the align floor changes exactly those steps (`FloorChangesOnlyStalls`,
  `SubBlockChunkStalls`).
- The scan for the end of reasoning starts at an offset it is given, by code that is not part of this
  repository. It is a whole-text scan when that offset is where the text stood. If a caller holds the
  offset back until the text has some length, a marker that ends inside that text is missed for good
  (`ClosedIffCovered`, `HeldScanMissesHeldText`, `OffsetAheadMissesMarker`).
- Clearing the grammar's flag on reset is right exactly for grammars whose empty output is not complete
  (`Grammar.Reset`).
- The comments of the drafter-group patch speak of standalone tensors and of never padding a page. The code's
  second mode pads the page to the MLA page, and no group it builds ever gets standalone tensors
  (`BuiltGroupRidesMla`).
- A `GLM53_MIXED_PREFILL_CHUNK` that is not a number disables the policy, although the unset default
  skips (`MixedPrefillPolicy`).

## Model

| member | source | states |
|---|---|---|
| MoeRouting.PairOfToken | vllm-exl3/overlay/exl3.py:1138 | the flattened routing gives the `k`-th choice of token `t` back to token `t` |
| MoeRouting.MappingsDiffer | vllm-exl3/overlay/exl3.py:637-694 | the fused and the loop's expert mapping agree on an id if and only if it does not lie past the expert map; there the fused one drops it and the loop keeps it |
| MoeRouting.LoopSplit | vllm-exl3/overlay/exl3.py:637-701 | for any set of experts, the loop's contributions are the fused path's plus those of the ids past the map |
| MoeRouting.SortedSegments | vllm-exl3/overlay/exl3.py:1139-1147 | after any, also unstable, argsort the rows before prefix offset `e` are exactly those of experts below `e` |
| MoePasses.PassIsSelect | vllm-exl3/overlay/exl3.py:703-738 | walking counts with a running offset over the sorted buffers adds exactly the kept experts' routed pairs, each as often as it was routed |
| MoePasses.Output.ExlMoe | vllm-exl3/overlay/exl3.py:1006-1053 | one launch adds the segments of the experts whose count fits the temporaries and nothing else |
| MoePasses.ApplySortedFat | vllm-exl3/overlay/exl3.py:703-738 | the sorted fallback adds exactly the oversized experts' segments and counts them |
| MoePasses.TileSegment | vllm-exl3/overlay/exl3.py:1090-1094 | the gathered source of a tile index is the right row of the expert whose tile count it falls under |
| MoePasses.TilesAreOnePass | vllm-exl3/overlay/exl3.py:1075-1108 | all tiles together add, contribution by contribution, what one pass without a cap would |
| MoePasses.TileSourcesPartitionRows | vllm-exl3/overlay/exl3.py:1081-1095 | over all tiles every sorted row is gathered exactly once, under its own expert, and no tile count exceeds the tile |
| MoePasses.NoTileIsEmpty | vllm-exl3/overlay/exl3.py:1079-1088 | the hottest expert has rows in every tile, so the skip of empty tiles never fires |
| MoePasses.ApplyRowTiles | vllm-exl3/overlay/exl3.py:1056-1108 | the tile loop adds one uncapped pass with exactly one launch per tile |
| MoePasses.ApplyLoop | vllm-exl3/overlay/exl3.py:662-701 | the per-expert loop adds every pair of every kept local expert exactly once, whatever order the distinct ids come in |
| MoePasses.RunId | vllm-exl3/overlay/exl3.py:678-700 | one round adds the pairs of one raw id, or nothing when it is negative, unmapped, out of range or not asked for |
| MoeDispatch.ReferenceByChoice | vllm-exl3/overlay/exl3.py:662-701 | the reference loop in terms of the routing alone: expert, token and weight are added once for each of the token's choices that carries the weight and names the expert, through the map where it reaches the id |
| MoeDispatch.PathTable | vllm-exl3/overlay/exl3.py:1164-1268 | which of the seven ways a call goes, for every combination of switches, shared scales and counts |
| MoeDispatch.LabelTable | vllm-exl3/overlay/exl3.py:1161-1268 | the label and the reason each way leaves, one to one |
| MoeDispatch.FatCountIsFat | vllm-exl3/overlay/exl3.py:720-726 | the expert runs counted are the experts above the cap, each once |
| MoeDispatch.FaithfulIffReference | vllm-exl3/overlay/exl3.py:1136-1282 | each path adds exactly the reference loop's multiset if and only if a condition on the routing holds, which is given per path |
| MoeDispatch.CoveringMapIsExact | vllm-exl3/overlay/exl3.py:1136-1282 | with no map, or one as long as the local expert list, every prefill path is the reference loop for every routing, and a single launch is exactly when no expert exceeds the cap |
| MoeDispatch.IdPastMapIsDropped | vllm-exl3/overlay/exl3.py:650-659 | a routing over a shorter map where the fused path loses a contribution the loop has |
| MoeDispatch.DistinctExpertsFitOneLaunch | vllm-exl3/overlay/exl3.py:1164-1169 | with `tokens <= cap` and distinct experts per token no expert exceeds the cap |
| MoeDispatch.RepeatedExpertIsDropped | vllm-exl3/overlay/exl3.py:1164-1169 | a routing where one launch loses a contribution the loop has |
| MoeDispatch.SortRouting | vllm-exl3/overlay/exl3.py:1136-1147 | map, argsort, gather and count give buffers over which a pass for any experts is a selection of the routed pairs |
| MoeDispatch.ApplyBatchedFat | vllm-exl3/overlay/exl3.py:840-951 | the batched fallback adds the same as the sorted one through scratch that is always large enough, its counters move by the experts it ran, and it raises exactly when the kernel is wanted, a symbol is missing, and an oversized expert or the pipeline asks for it |
| MoeDispatch.RunFallback | vllm-exl3/overlay/exl3.py:1228-1281 | whichever tier the switches choose, thin and oversized rows end up added once, label, reason and tier totals agree, and only the kernel tier with a missing symbol raises |
| MoeDispatch.Prefill | vllm-exl3/overlay/exl3.py:1171-1282 | a prefill call takes the path its tokens, counts and switches determine, launches once or exactly once per tile, and keeps the counters balanced, also when it raises |
| MoeDispatch.ApplyFused | vllm-exl3/overlay/exl3.py:1111-1282 | the whole call: path, output, launches, counters, labels, and equality with the reference loop exactly when faithful |
| MoeDispatch.FatDiag.RecordReason | vllm-exl3/overlay/exl3.py:340-342 | one more of that reason, and the total of reasons grows by one |
| MoeDispatch.FatDiag.RecordTier | vllm-exl3/overlay/exl3.py:345-349 | tier and reason totals grow together by one |
| MoeDispatch.FatDiag.Reset | vllm-exl3/overlay/exl3.py:406-424 | zeroing keeps the balance: prefill calls are thin plus tiled plus fallback calls, and the sum of reasons |
| FatScratch.SameKeyIff | vllm-exl3/overlay/exl3.py:758-764 | two gates share a buffer set if and only if device and shape agree |
| FatScratch.ScratchBytesIsSum | vllm-exl3/overlay/exl3.py:769-810 | the bytes of a buffer set are the sum over its eleven tensors, for every shape and capacity |
| FatScratch.ScratchBytesClosed | vllm-exl3/overlay/exl3.py:769-810 | and in closed form, what does and what does not grow with the capacity |
| FatScratch.BitLengthCovers | vllm-exl3/overlay/exl3.py:756-757 | shifting by the bit length reaches past the number and at most doubles it |
| FatScratch.Pow2Doubles | vllm-exl3/overlay/exl3.py:756-757 | a larger power of two is at least twice as large |
| FatScratch.CapacityCovers | vllm-exl3/overlay/exl3.py:756-757 | the capacity is a power of two, covers rows, configuration and 256, and less than doubles their maximum |
| FatScratch.ScratchCache.Request | vllm-exl3/overlay/exl3.py:741-816 | every request gets enough rows; a cached set is reused or replaced by one at least twice as large; bytes equal what is resident and never pass the peak |
| FatScratch.ScratchCache.Allocate | vllm-exl3/overlay/exl3.py:767-815 | the new buffer set's bytes and the totals stay right, and resident bytes never shrink |
| FatScratch.ScratchCache.Reset | vllm-exl3/overlay/exl3.py:406-426 | the byte counters restart from what is resident |
| PrefillSplitter.SplitPrefillChunks | vllm-exl3/overlay/patch_indexer_workspace.py:212-247 | the nested loops return the chunk list defined slice by slice |
| PrefillSplitter.ChunksCoverBatch | vllm-exl3/overlay/patch_indexer_workspace.py:225-247 | the chunks cover every query row once and in order; each obeys the logits budget or is a single row, is as tall as the budget allows, and a slice of several requests is never cut |
| PrefillSplitter.CoveringIsUnique | vllm-exl3/overlay/patch_indexer_workspace.py:225-247 | for every batch, any list of legal chunks of the greedy chain that covers the rows in order is the splitter's list |
| PrefillSplitter.RowsDetermineCovering | vllm-exl3/overlay/patch_indexer_workspace.py:225-247 | when every request brings a query row, legality and cover alone leave no choice |
| PrefillSplitter.EmptyRequestLeavesChoice | vllm-exl3/overlay/patch_indexer_workspace.py:225-247 | with a request without rows they do leave one |
| PrefillSplitter.ClosesSliceIff | vllm-exl3/overlay/patch_indexer_workspace.py:229-241 | a slice is closed exactly when it keeps workspace and logits budget, unless it is one request, and the request behind it would break one of them |
| PrefillSplitter.SliceEndUnique | vllm-exl3/overlay/patch_indexer_workspace.py:229-241 | the greedy slice end is the only one that takes as many requests as fit |
| PrefillSplitter.LargeWorkspacesAgree | vllm-exl3/overlay/patch_indexer_workspace.py:225-247 | two workspaces that both hold the whole batch give the same chunks |
| IndexerWorkspace.SizeBySetting | vllm-exl3/overlay/patch_indexer_workspace.py:152-338 | the size for every setting in the configuration's own numbers; only an unset variable means the default, and any other word is refused |
| IndexerWorkspace.BuilderBySetting | vllm-exl3/overlay/patch_indexer_workspace.py:388-409 | the builder accepts a workspace of any size exactly under stock, or with the configured ratio and at least the right-sized entries |
| IndexerWorkspace.LegalTotal | vllm-exl3/overlay/patch_indexer_workspace.py:178-200 | no step the scheduler can form, its sequences as long as the model length and the draft tokens together, needs more compressed entries than the right-sized bound |
| IndexerWorkspace.RightsizingKeepsChunks | vllm-exl3/overlay/patch_indexer_workspace.py:178-247 | for every legal step the right-sized chunk list is the stock one, and the right-sized value never exceeds stock |
| IndexerWorkspace.AcceptedBootServesStockChunks | vllm-exl3/overlay/patch_indexer_workspace.py:290-409 | if sizing and the builder's check both pass, serving cuts every legal step as stock would, with the ratio the runtime really uses |
| IndexerWorkspace.BuilderAcceptsIff | vllm-exl3/overlay/patch_indexer_workspace.py:388-409 | on a size that came from the sizing function the builder refuses exactly a ratio disagreement in `rightsize` mode |
| IndexerWorkspace.WorkspaceSufficesIff | vllm-exl3/overlay/patch_indexer_workspace.py:178-247 | a workspace keeps stock's chunks for every legal step and logits budget if and only if requests never share a step, or it is stock's size, or both hold the fullest legal step |
| IndexerWorkspace.RightsizedIsLeast | vllm-exl3/overlay/patch_indexer_workspace.py:178-200 | the right-sized value is sufficient and least up to one entry per request of rounding, and exactly least when the ratio divides the span |
| AdaptiveK.FileIsTakenIff | vllm-exl3/overlay/patch_adaptive_k.py:143-159 | a file is looked at on every fiftieth step of a policy that was on at boot and taken when its time changed; one that is gone or unreadable leaves only its time |
| AdaptiveK.OverrideByField | vllm-exl3/overlay/patch_adaptive_k.py:160-187 | what each field of a file does when it is absent, given or bad, and when averages and histogram are cleared |
| AdaptiveK.AllowedAreWanted | vllm-exl3/overlay/patch_adaptive_k.py:166-175 | the candidates become the wanted ones among those of the boot, or all of those when none is |
| AdaptiveK.ObservedAverage | vllm-exl3/overlay/patch_adaptive_k.py:189-204 | an observation, partial or full, moves the average by the share `alpha` of its distance to what was seen |
| AdaptiveK.ChosenIff | vllm-exl3/overlay/patch_adaptive_k.py:206-213 | a request has a choice if and only if the policy is on, it is unstructured, has drafts and was observed often enough |
| AdaptiveK.GatedOnce | vllm-exl3/overlay/patch_adaptive_k.py:394-399 | a policy that is on is handed each request with drafts exactly as often as it is listed |
| AdaptiveK.UpdateIsCounted | vllm-exl3/overlay/patch_adaptive_k.py:220-253 | an update without drafts is no step; any other is one, and counts its width once and nothing else |
| AdaptiveK.AdaptivePolicy.ReloadFile | vllm-exl3/overlay/patch_adaptive_k.py:143-187 | a reload takes fields in order up to the first bad one, only ever narrows to boot candidates, and keeps the policy valid |
| AdaptiveK.AdaptivePolicy.ObserveStep | vllm-exl3/overlay/patch_adaptive_k.py:189-204 | the moving average, its start at the largest candidate and its saturation |
| AdaptiveK.AdaptivePolicy.ApplyStep | vllm-exl3/overlay/patch_adaptive_k.py:220-253 | every request's drafts become the prefix of the one chosen width, and the policy moves as specified |
| AdaptiveK.AdaptivePolicy.UpdateDraftTokenIds | vllm-exl3/overlay/patch_adaptive_k.py:372-399 | only a policy that is on is asked, only about requests with drafts; those are trimmed to one width and all others keep their drafts |
| AdaptiveK.AdaptivePolicy.Count | vllm-exl3/overlay/patch_adaptive_k.py:317-332 | the histogram gains one step of that width, and pruning keeps the averages of exactly the live requests |
| AdaptiveK.ReloadKeepsSound | vllm-exl3/overlay/patch_adaptive_k.py:143-187 | candidates stay a non-empty choice of the boot list and the policy is on only if it was on at boot |
| AdaptiveK.ApplyKeepsSound | vllm-exl3/overlay/patch_adaptive_k.py:220-253 | the same over a whole scheduling step, with its reload |
| AdaptiveKRuns.RunNext | vllm-exl3/overlay/patch_adaptive_k.py:344-399 | a run takes its events in order, each from the state the one before it left |
| AdaptiveKRuns.OffIsForGood | vllm-exl3/overlay/patch_adaptive_k.py:372-399 | once the policy is off, no later event of any run changes anything |
| AdaptiveKRuns.OverrideTurnsOff | vllm-exl3/overlay/patch_adaptive_k.py:143-187 | a file with the mode off, seen at a reload, ends the policy |
| AdaptiveKRuns.WidthForms | vllm-exl3/overlay/patch_adaptive_k.py:206-293 | every width a full batch can get: all drafts, a candidate, one, or the clamp |
| AdaptiveKRuns.SafeAlwaysCaptured | vllm-exl3/overlay/patch_adaptive_k.py:143-293 | with a safe list, after any run of observations, reloads and steps, the picked width has a captured graph length |
| AdaptiveKRuns.CapturedIffSafe | vllm-exl3/overlay/patch_adaptive_k.py:411-429 | and only then: an unsafe list has a run whose width was never captured |
| AdaptiveKRuns.ZeroCandidateIsUnsafe | vllm-exl3/overlay/patch_adaptive_k.py:105-106 | the list 0, 4, 7 is unsafe and the default list 2, 4, 7 is safe |
| AdaptiveKRuns.TrimmedIsPrefix | vllm-exl3/overlay/patch_adaptive_k.py:250-252 | trimming keeps a prefix whose length is the width, or what is left of the drafts when a negative width counts from their end |
| AdaptiveKRuns.StructuredBatchUntouched | vllm-exl3/overlay/patch_adaptive_k.py:236-252 | one structured request keeps every row of the batch at full length |
| AdaptiveKRuns.ObservedBatchWidth | vllm-exl3/overlay/patch_adaptive_k.py:238-293 | when every request has a choice the width is the least of them, or with both knobs on and two requests or more the smallest candidate if that is less, of either sign |
| AdaptiveKRuns.ObservedBatchIsUniform | vllm-exl3/overlay/patch_adaptive_k.py:239-252 | when every choice is known all rows end at one width, and it is below one exactly when the clamp takes a non-positive candidate |
| AdaptiveKRuns.WarmingUpBatch | vllm-exl3/overlay/patch_adaptive_k.py:255-269 | with a request that has no choice yet, the least of the known choices rules if the batch margin is on and no request is structured, and otherwise the longest row |
| AdaptiveKRuns.AcceptedKeepsTop | vllm-exl3/overlay/patch_adaptive_k.py:189-204 | a request whose drafts are always accepted never falls below the largest candidate, whatever its draft lengths, and stays exactly there while they do not exceed it |
| AdaptiveKRuns.AcceptedNeverShrinks | vllm-exl3/overlay/patch_adaptive_k.py:206-218 | and with a margin above minus one is offered no less than any candidate its drafts allow |
| AdaptiveKRuns.AcceptedGetsTopIff | vllm-exl3/overlay/patch_adaptive_k.py:206-218 | and gets the largest candidate exactly with such a margin, unless that candidate is one or the only one |
| AdaptiveKRuns.RejectedDecays | vllm-exl3/overlay/patch_adaptive_k.py:189-204 | a request whose drafts are all rejected decays geometrically from the largest candidate |
| AdaptiveKRuns.ChoiceIsLargestAffordable | vllm-exl3/overlay/patch_adaptive_k.py:206-218 | for every candidate list, the choice is the largest candidate within the drafts and within reach of average and margin, else the smallest one, and at least one |
| AdaptiveKRuns.PruningKeepsChoices | vllm-exl3/overlay/patch_adaptive_k.py:317-332 | pruning leaves every live request's choice as it was |
| AdaptiveKRuns.HistogramCountsSteps | vllm-exl3/overlay/patch_adaptive_k.py:317-332 | over any run the histogram's total is the number of trimming steps since it was last cleared |
| SpeculativeVerify.AcceptedIsLongestMatch | vllm-exl3/overlay/patch_adaptive_k.py:344-347 | the accepted drafts are those the target would have chosen itself, and the next one is not |
| SpeculativeVerify.GreedyEach | vllm-exl3/overlay/patch_adaptive_k.py:220-253 | plain decoding emits the target's choice after everything before it |
| SpeculativeVerify.EmitIsGreedy | vllm-exl3/overlay/patch_adaptive_k.py:220-253 | longest-match verification emits what plain decoding would |
| SpeculativeVerify.TrimmedStepIsPrefix | vllm-exl3/overlay/patch_adaptive_k.py:220-253 | for every width, a trimmed step emits a prefix of the untrimmed one, one token longer than the accepted part of the drafts left |
| SpeculativeVerify.RoundVerifies | vllm-exl3/overlay/patch_adaptive_k.py:344-399 | a round verifies the drafts as the policy left them, emits as many as the target agrees with and one more, and the policy observes just that |
| SpeculativeVerify.ServeNext | vllm-exl3/overlay/patch_adaptive_k.py:344-399 | a run serves its rounds in order, each from where the one before it left policy and stream |
| SpeculativeVerify.ServedStreamIsGreedy | vllm-exl3/overlay/patch_adaptive_k.py:220-253 | over any run under the policy the request's stream is plain decoding |
| SpeculativeVerify.PolicyNeverChangesOutput | vllm-exl3/overlay/patch_adaptive_k.py:220-253 | two servings under any two policies, drafters and batches agree on every token both have emitted |
| GrammarMatcher.WalkIsLongest | vllm-exl3/overlay/patch_xgrammar_termination.py:125-146 | the walk stops only where the output ends, the tokens run out or the next one is rejected |
| GrammarMatcher.WalkIsRun | vllm-exl3/overlay/patch_xgrammar_termination.py:82-146 | the walk is the automaton's longest run over the tokens, ended early only by the end of the output |
| GrammarMatcher.AcceptFollowsAutomaton | vllm-exl3/overlay/patch_xgrammar_termination.py:82-146 | accepting moves an open output along that run and validation returns its tokens; a finished output takes nothing and succeeds |
| GrammarMatcher.AcceptKeepsConsistent | vllm-exl3/overlay/patch_xgrammar_termination.py:82-105 | accepting keeps the cached flag equal to the matcher's termination and the count equal to the tokens taken |
| GrammarMatcher.ValidatedIsAccepted | vllm-exl3/overlay/patch_xgrammar_termination.py:125-146 | what validation returns is the longest acceptable prefix: it is accepted in full and the next token is not |
| GrammarMatcher.AcceptInTwoBatches | vllm-exl3/overlay/patch_xgrammar_termination.py:82-105 | accepting two lists one after the other is accepting their concatenation, whenever the first succeeds |
| GrammarMatcher.OldAgreesIffNothingFollowsTheEnd | vllm-exl3/overlay/patch_xgrammar_termination.py:60-105 | the code before the backport agrees with it if and only if the output is open and no token follows the one that ends it |
| GrammarMatcher.Grammar.AcceptTokens | vllm-exl3/overlay/patch_xgrammar_termination.py:82-105 | the loop moves matcher, count and flag as the walk says and logs exactly on failure |
| GrammarMatcher.Grammar.ValidateTokens | vllm-exl3/overlay/patch_xgrammar_termination.py:125-146 | the loop and its rollback leave the grammar as it was and return the longest acceptable prefix |
| GrammarMatcher.Grammar.Reset | vllm-exl3/overlay/patch_xgrammar_termination.py:153-157 | matcher, count and flag return to the start together, consistently if and only if the start does not end the output |
| GrammarMatcher.AdvanceWindow | vllm-exl3/overlay/patch_xgrammar_termination.py:169-182 | the token loop does what the slots say one after the other and fails only on a rejected token outside the tolerant part |
| GrammarMatcher.AdvancementsAreMoves | vllm-exl3/overlay/patch_xgrammar_termination.py:169-182 | the counted advancements are the tokens the matcher really moved |
| GrammarMatcher.SlotFollowsAutomaton | vllm-exl3/overlay/patch_xgrammar_termination.py:169-182 | an advancing slot on an open output takes the automaton's step and is counted, tolerant or not; without a step it changes nothing and is an error only outside the tolerant part; every other slot does nothing |
| GrammarMatcher.WindowFailsIff | vllm-exl3/overlay/patch_xgrammar_termination.py:169-182 | the loop ends in the error if and only if an open output has no step for an advancing slot outside the tolerant part |
| GrammarMatcher.AdvanceOne | vllm-exl3/overlay/patch_xgrammar_termination.py:169-177 | one token moves the grammar or leaves it alone, and validating first keeps the log silent |
| DraftCache.ScoresSeen | vllm-exl3/overlay/qwen3_dflash2.py:169-191 | the scores a step sees are the unary logits plus the products with the anchor or the token drafted just before |
| DraftCache.DraftIsBest | vllm-exl3/overlay/dflash2_speculator.py:32-107 | without a temperature the drafted token is the first candidate of the largest score, otherwise of the largest score over the temperature plus noise |
| DraftCache.Dot3Adds | vllm-exl3/overlay/qwen3_dflash2.py:187-191 | the product is linear in the hidden state |
| DraftCache.Dot3Unit | vllm-exl3/overlay/qwen3_dflash2.py:187-191 | and a hidden state with one entry picks out that entry of predecessor and successor |
| DraftCache.WalkFollowsItsOwnTokens | vllm-exl3/overlay/dflash2_speculator.py:75-107 | the realized scores condition on the tokens really drafted and each drafted token is best under them |
| DraftCache.ProgramOfStep | vllm-exl3/overlay/dflash2_speculator.py:111-140 | the program of a request's step owns that step's row in the request's state and leaves there the step's candidates and scores |
| DraftCache.DenseAtCandidate | vllm-exl3/overlay/dflash2_speculator.py:123-140 | a refilled row holds each candidate's score |
| DraftCache.DenseElsewhere | vllm-exl3/overlay/dflash2_speculator.py:123-140 | and minus infinity everywhere else |
| DraftCache.RefillIsLatest | vllm-exl3/overlay/dflash2_speculator.py:123-140 | after a batch every live program's row holds its own write |
| DraftCache.RefillKeeps | vllm-exl3/overlay/dflash2_speculator.py:123-140 | rows no live program owns are as before |
| DraftCache.RowKeepsItsLastWrite | vllm-exl3/overlay/dflash2_speculator.py:123-140 | over any run of batches a row holds what the last batch that touched it wrote |
| DraftCache.UntouchedRowIsEmpty | vllm-exl3/overlay/dflash2_speculator.py:161-170 | and a row no batch touched holds nothing |
| DraftCache.ProgramsOwnTheirRows | vllm-exl3/overlay/dflash2_speculator.py:123-134 | programs of distinct live states never share a cache row, so their order does not matter |
| DraftCache.Speculator.constructor | vllm-exl3/overlay/dflash2_speculator.py:146-170 | zeroed ids over an all minus-infinity table already satisfy the cache invariant |
| DraftCache.Speculator.CacheProgram | vllm-exl3/overlay/dflash2_speculator.py:111-140 | clearing only the remembered ids and storing the new ones makes the row the dense refill of its latest write |
| DraftCache.Speculator.WalkStep | vllm-exl3/overlay/dflash2_speculator.py:75-107 | one step stores the scores seen after the held candidate and moves to the best |
| DraftCache.Speculator.WalkProgram | vllm-exl3/overlay/dflash2_speculator.py:51-107 | one program fills its request's rows and leaves the others and padding alone |
| DraftCache.Speculator.GenerateDraft | vllm-exl3/overlay/dflash2_speculator.py:214-250 | after every batch each touched row is minus infinity except at the latest candidates, which hold the walk's scores |
| GroupedConv.BitAndBits | vllm-exl3/overlay/qwen3_dflash2.py:42-43 | the mask works digit by digit |
| GroupedConv.BitsDetermine | vllm-exl3/overlay/qwen3_dflash2.py:42-43 | and the digits determine the number |
| GroupedConv.GuardIsPowerOfTwo | vllm-exl3/overlay/qwen3_dflash2.py:42 | the guard passes only powers of two |
| GroupedConv.PowerOfTwoPassesGuard | vllm-exl3/overlay/qwen3_dflash2.py:42 | and passes all of them |
| GroupedConv.PositionIsRemainder | vllm-exl3/overlay/qwen3_dflash2.py:41-45 | mask or remainder, the position is the row modulo the block size |
| GroupedConv.ConvIsBlockConv | vllm-exl3/overlay/qwen3_dflash2.py:40-49 | shifting rows and masking by position sums, per tap, the earlier rows of the same block only |
| GroupedConv.ConvOfOneRow | vllm-exl3/overlay/qwen3_dflash2.py:38-49 | a single nonzero row reaches the rows behind it in its block, at most `taps - 1` of them, under the base kernel of that distance plus the row's own correction |
| GroupedConv.ConvAdds | vllm-exl3/overlay/qwen3_dflash2.py:38-49 | and the convolution is linear in the rows |
| GroupedConv.Convolve | vllm-exl3/overlay/qwen3_dflash2.py:29-49 | the in-place tap loop computes, entry by entry, the causal convolution inside each block |
| GroupedConv.ConvIsBlockLocal | vllm-exl3/overlay/qwen3_dflash2.py:38-49 | convolving stacked requests is stacking their own convolutions, for any number of blocks and taps |
| KvLayout.BuiltBlock | vllm-exl3/overlay/patch_glm5_drafter_group.py:166-229 | the block and padding of the built specs, and when the grouping fails, from page, bytes per token and MLA block alone |
| KvLayout.AcceptsIff | vllm-exl3/overlay/patch_glm5_drafter_group.py:312-335 | the layout accepts unpadded groups by equal pages and padded ones by the compact block, with MLA layers enough where they are needed |
| KvLayout.BuiltGroupRidesMla | vllm-exl3/overlay/patch_glm5_drafter_group.py:166-335 | a built drafter group fills the MLA page in either mode and is accepted exactly when there are enough MLA tensors |
| KvLayout.BuildFailsIff | vllm-exl3/overlay/patch_glm5_drafter_group.py:166-229 | the grouping fails exactly where nothing fits and a compact block exceeds the MLA page |
| KvLayout.KernelBlockInOwnPage | vllm-exl3/overlay/patch_glm5_drafter_group.py:174-204 | kernel block `j` of manager block `b` lies at `b` pages plus its own offset, inside that page |
| KvLayout.BuiltBlockHoldsKernels | vllm-exl3/overlay/patch_glm5_drafter_group.py:174-204 | so every unpadded group that is built splits into kernel blocks that stay in their own page |
| KvLayout.CommonBlockIsLarger | vllm-exl3/overlay/patch_glm5_drafter_group.py:174-187 | the scheduler's least common block size is the larger of the two |
| KvLayout.TensorsAreBlocks | vllm-exl3/overlay/patch_glm5_drafter_group.py:446-499 | tensor sizes add up to the number of blocks times the cost of one |
| KvLayout.MlaTensorOwners | vllm-exl3/overlay/patch_glm5_drafter_group.py:464-470 | an MLA tensor is held by its MLA layer, the layers of that index in every mamba group, and the drafter layer of that index when it shares, and by nothing else |
| KvLayout.OtherTensorOwners | vllm-exl3/overlay/patch_glm5_drafter_group.py:486-499 | then come the index tensors with their tails and the drafter's own tensors, and no more |
| KvLayout.DraftHasItsPages | vllm-exl3/overlay/patch_glm5_drafter_group.py:421-499 | the tensor of a drafter layer holds as many of that layer's pages as the pool has blocks |
| KvLayout.DraftOwnedOnce | vllm-exl3/overlay/patch_glm5_drafter_group.py:421-499 | each drafter layer is in exactly one tensor, its MLA tensor when it shares and its own otherwise |
| KvLayout.PoolBytesPerBlock | vllm-exl3/overlay/patch_glm5_drafter_group.py:376-391 | the first per-block cost, equal to the one specification all three meet |
| KvLayout.Configure | vllm-exl3/overlay/patch_glm5_drafter_group.py:421-499 | the second: as many blocks as fit, worth the tensors built, within the memory there is |
| KvLayout.MaxMemoryUsage | vllm-exl3/overlay/patch_glm5_drafter_group.py:541-560 | the third: the block demand with tail and drafter, at the same cost |
| KvLayout.BuiltDraftIsFree | vllm-exl3/overlay/patch_glm5_drafter_group.py:166-391 | a drafter that was built and accepted adds no bytes per block |
| TensorParallel.ShardsRoundTrip | vllm-exl3/overlay/exl3.py:497-506 | the ranks' shards concatenate to the tensor for every divisor, and any other count is refused |
| TensorParallel.ShardedIff | vllm-exl3/overlay/exl3.py:509-524 | a projection is sharded exactly when its whole tiles divide among the ranks |
| TensorParallel.AtTile | vllm-exl3/overlay/exl3.py:509-524 | an entry of a tile is the weight's entry at sixteen times the tile's indices plus its own |
| TensorParallel.ColShardIsColumns | vllm-exl3/overlay/exl3.py:509-515 | a gate or up shard, narrowed tile-wise, is a run of consecutive weight columns with its scales |
| TensorParallel.RowShardIsRows | vllm-exl3/overlay/exl3.py:518-524 | a down shard is a run of consecutive weight rows with its scales |
| TensorParallel.RotationOfUnit | vllm-exl3/overlay/exl3.py:888-911 | the rotation spreads a single entry over its own block by that row of the block's matrix |
| TensorParallel.RotationAdds | vllm-exl3/overlay/exl3.py:888-911 | and is linear |
| TensorParallel.ProductOfUnit | vllm-exl3/overlay/exl3.py:903-910 | the product sees a single entry through that row of the weight |
| TensorParallel.ProductAdds | vllm-exl3/overlay/exl3.py:903-910 | and is linear |
| TensorParallel.ForwardStages | vllm-exl3/overlay/exl3.py:888-911 | a projection scales, rotates, multiplies, rotates and scales, in this order |
| TensorParallel.RotationIsLocal | vllm-exl3/overlay/exl3.py:888-911 | a block-diagonal transform whose block divides part and offset acts inside the part |
| TensorParallel.ColumnParallel | vllm-exl3/overlay/exl3.py:509-515 | a rank's gate or up output is its part of the unsharded output |
| TensorParallel.RowStep | vllm-exl3/overlay/exl3.py:518-524 | a rank's down output is what its rows add to the unsharded output |
| TensorParallel.ExpertStages | vllm-exl3/overlay/exl3.py:693-698 | an expert is gate and up, the activation entry by entry, and down |
| TensorParallel.ExpertIsExact | vllm-exl3/overlay/exl3.py:497-524 | the ranks' expert outputs, each from its own shards alone, sum to the unsharded expert for any activation |
| WeightEdit.EditedIsRankOne | vllm-exl3/overlay/ablit_runtime.py:197-200 | every entry loses `alpha` times its row of the direction times its column's component over the squared norm |
| WeightEdit.ColumnDotUnit | vllm-exl3/overlay/ablit_runtime.py:198 | a component along one axis is that row's entry |
| WeightEdit.ColumnDotAdds | vllm-exl3/overlay/ablit_runtime.py:198 | and components are linear |
| WeightEdit.DotIsColumnDot | vllm-exl3/overlay/ablit_runtime.py:199 | the squared norm is the same sum over a single column |
| WeightEdit.EditedComponent | vllm-exl3/overlay/ablit_runtime.py:195-201 | the edit's effect on every component of every column |
| WeightEdit.ComponentIsScaled | vllm-exl3/overlay/ablit_runtime.py:197-199 | the component along the direction is scaled by exactly `1 - alpha` |
| WeightEdit.OrthogonalIsUnchanged | vllm-exl3/overlay/ablit_runtime.py:197-199 | anything orthogonal to the direction sees the weight unchanged |
| WeightEdit.EditsCompose | vllm-exl3/overlay/ablit_runtime.py:197-200 | two edits are one of strength `a + b - a * b` |
| WeightEdit.ResidualIsLargest | vllm-exl3/overlay/ablit_runtime.py:202 | the reported residual is at least every column's component, of either sign, and one of them |
| WeightEdit.ResidualIsScaled | vllm-exl3/overlay/ablit_runtime.py:202 | the reported residual is the old one times the absolute value of `1 - alpha` |
| WeightEdit.EditCommutesWithSharding | vllm-exl3/overlay/ablit_runtime.py:184-202 | the ranks' own edits side by side are the edit of the whole weight |
| WeightEdit.ApplyToOProj | vllm-exl3/overlay/ablit_runtime.py:184-207 | the in-place edit and its report; a missing, other-rank or wrong-sized weight is skipped untouched |
| WeightEdit.TransplantRestoresDonor | vllm-exl3/overlay/ablit_runtime.py:445 | after every rank's copy the ranks together hold the donor |
| WeightEdit.Transplant | vllm-exl3/overlay/ablit_runtime.py:428-448 | the weight becomes the rank's donor columns, or a mismatched shape is refused and it stays |
| WeightEdit.DeltaStats | vllm-exl3/overlay/ablit_runtime.py:377-392 | both reported drifts are those of the whole weight whatever the block height |
| WeightEdit.DeltasAreRatios | vllm-exl3/overlay/ablit_runtime.py:389-392 | the two drifts as ratios of roots and of sums, neither divisor below a billionth |
| WeightEdit.DriftMoves | vllm-exl3/overlay/ablit_runtime.py:381-388 | changing one entry of weight and slice moves each of the four sums by that entry's own square or absolute value |
| WeightEdit.DriftOfNothing | vllm-exl3/overlay/ablit_runtime.py:381-388 | and the sums of nothing are zero |
| WeightEdit.DeltasAreZeroIff | vllm-exl3/overlay/ablit_runtime.py:377-392 | each of them is zero if and only if the donor's slice is the weight it replaces |
| AlignedSchedule.MambaBlockAlignedSplit | vllm-exl3/tests/test_align_floor.py:61-110 | the split as the scheduler runs it, with the patched or the upstream condition |
| AlignedSchedule.DecodeIsUncut | vllm-exl3/tests/test_align_floor.py:74-76 | behind the prefill nothing is cut |
| AlignedSchedule.AlignedEndMeans | vllm-exl3/tests/test_align_floor.py:83-92 | before the stops, a chunk inside the prefill ends on the last boundary it passes; without one it is whole, except upstream with blocks no larger than a prefill step |
| AlignedSchedule.FloorAlwaysAdvances | vllm-exl3/overlay/patch_align_floor.py:92-105 | with the floor on every non-empty request gets between one token and what it asked for |
| AlignedSchedule.FloorChangesOnlyStalls | vllm-exl3/overlay/patch_align_floor.py:87-105 | upstream gives nothing if and only if the chunk is below the prefill end, blocks are enforced and no boundary lies in it; there and only there the floor differs |
| AlignedSchedule.FloorIsNoOpBelowBlock | vllm-exl3/overlay/patch_align_floor.py:87-105 | with blocks larger than any prefill chunk the patched split equals upstream |
| AlignedSchedule.SubBlockChunkStalls | vllm-exl3/overlay/patch_align_floor.py:87-105 | the documented stall at block 3584 with a 512-token admission, and its cure |
| AlignedSchedule.MandatoryStopsHold | vllm-exl3/tests/test_align_floor.py:79-110 | no chunk of any size runs through the last cacheable boundary, the last hashed one, the next boundary of an unaligned start or the end of a shared prefix |
| AlignedSchedule.CutOnlyAtStops | vllm-exl3/tests/test_align_floor.py:94-110 | and no chunk is cut short of its aligned end except at one of those places |
| AlignedSchedule.ChunkStaysInBlock | vllm-exl3/overlay/patch_align_floor.py:92-105 | a chunk of at most a block ends on the next boundary or before it, whatever the stops |
| AlignedSchedule.ChunkReachesTarget | vllm-exl3/tests/test_align_floor.py:61-110 | under a cap, a chunk of a fresh or resumed request is cut only at the next boundary, the tail boundary or the end of its tokens |
| AlignedSchedule.StepsToTarget | vllm-exl3/tests/test_align_floor.py:61-110 | from any position the next such place is reached in the fewest steps the cap allows |
| AlignedSchedule.RequestSteps | vllm-exl3/overlay/patch_align_floor.py:92-105 | a fresh or resumed request from an aligned start takes exactly its whole blocks and rest in steps of the cap, plus the tail boundary's cost |
| AlignedSchedule.RequestStepsSpelledOut | vllm-exl3/tests/test_align_floor.py:61-110 | the count in plain quotients, with a hashed place inside a block ahead and without one |
| AlignedSchedule.TailCostsAtMostOne | vllm-exl3/tests/test_align_floor.py:94-109 | a tail boundary costs one step or none |
| AlignedSchedule.MixedPrefillPolicy | vllm-exl3/overlay/patch_scheduler_decode_floor.py:39-62 | a cap is returned exactly when another running request decodes and the setting is to skip or a positive number, and it is nothing or that number |
| AlignedSchedule.CappedPrefillMoves | vllm-exl3/overlay/patch_scheduler_decode_floor.py:81-83 | a prefill beside a decoding peer gets at most the cap and stands still only under `skip` |
| AlignedSchedule.Waiting.CapHead | vllm-exl3/overlay/patch_scheduler_decode_floor.py:98-104 | a waiting prefill is set aside in front of the others when the cap leaves it nothing, otherwise both queues stay |
| AlignedSchedule.AlignFloor.Enabled | vllm-exl3/overlay/patch_align_floor.py:70-83 | the first reading decides for the life of the process |
| ReasoningStops.EndsAtIff | vllm-exl3/overlay/patch_suppress_stops_in_reasoning.py:147-154 | a marker ends where the text splits right behind it |
| ReasoningStops.FindIsFirst | vllm-exl3/overlay/patch_suppress_stops_in_reasoning.py:149-150 | the search returns the first such split from the window on, or none |
| ReasoningStops.TextOfTwoRuns | vllm-exl3/overlay/patch_suppress_stops_in_reasoning.py:119-130 | the text of two runs is their texts put together |
| ReasoningStops.ClosedIffCovered | vllm-exl3/overlay/patch_suppress_stops_in_reasoning.py:147-154 | for any chunking and any offsets the guard has closed if and only if some occurrence of the marker ends where a scan looked |
| ReasoningStops.WindowedScanIsWholeScan | vllm-exl3/overlay/patch_suppress_stops_in_reasoning.py:147-154 | when each check starts no later than the text stood, that is any occurrence in the text so far |
| ReasoningStops.HeldScanMissesHeldText | vllm-exl3/overlay/patch_suppress_stops_in_reasoning.py:147-154 | if checks are held back until the text has some length, the guard closes exactly when an occurrence ends past it |
| ReasoningStops.OffsetAheadMissesMarker | vllm-exl3/overlay/patch_suppress_stops_in_reasoning.py:147-154 | an offset at the end of the text hides the marker that just arrived |
| ReasoningStops.Detokenizer.Arm | vllm-exl3/overlay/patch_suppress_stops_in_reasoning.py:88-114 | the guard is armed exactly when enabled, stops are given and the prompt ends with the opening token |
| ReasoningStops.Detokenizer.Check | vllm-exl3/overlay/patch_suppress_stops_in_reasoning.py:147-160 | stops are evaluated only outside reasoning; closing moves the check past the first occurrence that ends beyond it, at any offset; kept in step the flag tracks the marker and that occurrence is the text's first |
| ReadTail.DecodeOfEncoded | vllm-exl3/scripts/prefill-watchdog.py:410 | decoding undoes the UTF-8 encoding of any text |
| ReadTail.DecodeReplacedHead | vllm-exl3/scripts/prefill-watchdog.py:410 | bytes no encoding starts with are replaced, as the longest part that could have started one |
| ReadTail.DecodeAtNewline | vllm-exl3/scripts/prefill-watchdog.py:410 | decoding with replacement splits at newline bytes, whatever malformed bytes surround them |
| ReadTail.UnbrokenText | vllm-exl3/scripts/prefill-watchdog.py:411 | text without a line boundary is one line |
| ReadTail.BrokenText | vllm-exl3/scripts/prefill-watchdog.py:411 | and its first boundary ends it, carriage return and newline counting as one |
| ReadTail.LinesAtNewline | vllm-exl3/scripts/prefill-watchdog.py:411 | splitting into lines splits at newlines, also after a carriage return |
| ReadTail.NewlinesAreCounted | vllm-exl3/scripts/prefill-watchdog.py:402 | the loop's count is the number of newline bytes |
| ReadTail.SuffixDecides | vllm-exl3/scripts/prefill-watchdog.py:402-411 | a suffix with more newlines than lines asked for has the file's last lines |
| ReadTail.ReadTail | vllm-exl3/scripts/prefill-watchdog.py:393-411 | backward block reading terminates with the last lines of the whole file, and refuses fewer than one |

## Left out

- Floating point, half precision, trellis decoding, GEMM, Hadamard and Gumbel arithmetic: expert outputs are contributions, the rest is over reals with the transform, the noise and the activation as parameters.
- MoePasses.Output.ExlMoe: the kernel itself is its stated contract, that it skips experts with more rows than its temporaries.
- MoeDispatch.ApplyFused: the entry that chooses between the fused call and the loop, the error for missing pointer tables, the optional statistics, the fused temporaries and the CUDA streams are not modelled.
- MoePasses.ApplyLoop: accumulating into a tensor passed by the caller is the same step as accumulating into a fresh one, so only the former appears.
- FatScratch.ScratchCache.Request: the tensors are represented by their row capacity and bytes.
- AdaptiveK.AdaptivePolicy.ApplyStep: an empty candidate list makes the source raise in `choose`, so the policy is constructed with a non-empty one; `batch_k`, which the source forbids to wire in, and printing are not modelled.
- SpeculativeVerify.PolicyNeverChangesOutput: the target is deterministic; the verifier is the longest-match contract, as vLLM's own is not part of this model.
- GrammarMatcher.Grammar.AcceptTokens: the matcher is a deterministic automaton with rollback; jump-forward and bitmask filling are not modelled.
- GrammarMatcher.OldAgreesIffNothingFollowsTheEnd: assumes what the matcher library does, that nothing is accepted after the end.
- DraftCache.Speculator.GenerateDraft: a batch names each live request state once and candidates are distinct per row, as top-k gives them; programs run one after the other, which `ProgramsOwnTheirRows` shows is no restriction.
- GroupedConv.Convolve: needs at least `taps - 1` rows, because the source's padding does not line up with fewer.
- KvLayout.Configure: overriding the number of blocks and the other KV layouts of vLLM are not modelled; a page padded below its real size is refused, as the spec class of vLLM does.
- KvLayout.MaxMemoryUsage: the block demands of attention, mamba and drafter window are parameters.
- TensorParallel.ExpertIsExact: the all-reduce is a sum over ranks in rank order; loading suffix by suffix is one shard function for a whole projection.
- WeightEdit.ApplyToOProj: rounding back to the weight's own type and the maximum over no columns, which the source rejects after editing, are not modelled.
- WeightEdit.Transplant: one module at a time; the walk over named modules, the manifest and its checksums are file handling.
- WeightEdit.DeltaStats: the square root is given by what it is, since reals have no computed one.
- AlignedSchedule.RequestSteps: is about a cap that is the binding limit on every step.
- AlignedSchedule.MambaBlockAlignedSplit: budgets, encoder inputs and KV allocation of the scheduler around the split are not modelled.
- ReasoningStops.Detokenizer.Check: `check_stop_strings` and the code that chooses the offset are not part of this model; offsets are arbitrary, and rules about them are hypotheses.
- ReadTail.ReadTail: a log that grows while it is read.
- HTTP, subprocess, Docker and command-line code, the benchmark clients, the soak and grading tools, the charts, and the machinery that patches source files: plumbing, or one-branch members.
- The prefill watchdog's series analysis, slot ids, timestamp alignment and parsers: correct but easy.
