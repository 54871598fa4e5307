# Verification of FLAI's algorithms and protocols

FLAI puts local language models behind a web chat and an API.  Most of it moves data between services; a
handful of self-contained algorithms and state machines decide what a user gets to read, which model stays on the
graphics card, which remembered fact disappears and who may follow which task.  This project models those and
proves what they promise, or exactly when they keep the promise.

Run `dafny verify dfyconfig.toml` with Dafny 4.11.

## How the model is built

Code that changes state step by step is a method or a class with the source's fields; its contract ties the result or
the new state to a specification function, and the properties are lemmas about that function, over every input, every
chunking or every run.  Straight-line code is a function.

| files | what they are about |
|---|---|
| `Words` | concatenation, occurrences, periods (Fine and Wilf) |
| `Repetition`, `LoopGuard` | detecting a repeating tail and retracting it from a stream |
| `Whitespace` | stripping, and texts that differ in surrounding white space only |
| `ThinkingFilter`, `ThinkingBatch`, `ThinkingReplies`, `TagJoins`, `ThinkingTags`, `TaggedAnswers` | dropping thinking blocks from a stream and from a stored answer, when the two agree, and every kind of tag |
| `ReasoningStream` | dropping a reasoning head |
| `StreamPipeline`, `StreamOrder`, `LateLoop` | the three filters in a row, the order at the end of a stream, and what follows a loop |
| `EditDistance`, `FactOrder`, `FactCleanup`, `FactMerge`, `FactWitness`, `FactSurvivors` | near-duplicates and the rule-based merging of facts |
| `LayerBudget` | layers on the card, and the footprint that is reserved |
| `VramPlan`, `VramArbiter` | which models go, and the gate in front of a load |
| `VramCard`, `VramAnswers`, `VramRuns` | the models on a card, what a positive answer of the gate is worth, whole runs |
| `SandboxProtocol` | parent and child over two pipes |
| `ApiRegistry`, `ApiStream` | task ownership, and the chunk stream of a followed task |
| `JsonScan`, `JsonPrint` | finding a JSON object in a reply |
| `LittleEndian`, `PieceTable`, `FieldText` | the text of a Word document ([MS-DOC] sections 2.4.1, 2.8.35, 2.9.38, 2.9.73) |
| `GgufHeader`, `GgufPrefix`, `GgufRoundTrip`, `GgufFields` | model metadata from a truncated file (GGUF specification, "File Structure") |
| `HistoryTrim`, `ContextBudget`, `RagBudget` | what of a session and of the documents fits a context window |

## Where the code does less than its words say

Each point has a lemma with a concrete input or an exact condition.

- A thinking or channel tag whose parts stand on both sides of a dropped thinking block is shown by the stream and cut
  by the batch filter (`TagJoins.JoinedTagDiffers`); on tag-free shown texts the two agree exactly when no tag is put
  together like that (`TagJoins.StreamMatchesBatch`).
- The commentary channel is the answer, but its tags reach the client of a stream (`ThinkingTags.TaggedReplyStreamed`); the
  stored answer is unwrapped, except for a channel that is not closed (`TaggedAnswers.TaggedReplyStored`).
- At the end of a stream the reasoning filter's tail goes out before the loop guard's older text
  (`StreamOrder.AnswerRotated`).  Without a loop the order survives when no marker shows at the end or nothing was
  released before it; otherwise both stages hold text, and it survives exactly when the two words commute
  (`StreamOrder.OrderKeptIff`).
- A loop that first shows when the leftover thinking buffer is fed does not stop the reasoning tail, although the code's
  comment says that the tail buffers must not be flushed then.  Nothing follows a loop exactly when it showed before that
  feed or no marker shows at the end (`LateLoops.LoopEndsTextIff`); the last 500 looped characters can reach the client
  (`LateLoops.LoopReachesClient`).
- The loop detector compares spacings only, so three copies of 200 characters with different texts of one length between
  them are cut as a loop (`Repetition.SparseCopiesCut`, `Repetition.FlaggedIff`).
- The count of characters suppressed by the loop guard is never positive (`LoopGuards.RetractedNeverCounts`).
- Blank text counts as structured (`ReasoningStreams.BlankLooksStructured`), so marker stripping of a reply that starts
  with prose is off exactly when its first chunk is blank (`ReasoningStreams.ProseUnstrippedIff`).
- The length shortcut of the similarity ratio is harmless exactly for thresholds up to one half or above one
  (`EditDistance.ShortcutSafeIff`).
- The stricter fragment pass stops at the first kept fragment, so a later containing text is not found, and all three
  passes together leave a fragment standing (`FactWitness.FragmentCanStay`, `FactWitness.DashedNumbersStay`).
- A footprint can exceed the bound the layer loop worked with, even with no layer on the card
  (`LayerBudget.LongWindowExceedsCard`, `LayerBudget.FootprintWithinBoundIff`).
- A resident model that is asked for again is counted twice: although all residents fit, another one goes exactly
  when the demand does not fit a second time (`VramCard.RepeatedRequestEvicts`).
- The memory gate takes an unanswered request for the running models as an empty card.  Its positive answer then
  guarantees the free memory only, and the loaded model can share the card without the headroom
  (`VramAnswers.FailedPollShares`, `VramAnswers.FailedListingShares`, `VramRuns.UnsafeRun`).  What the replies have to
  show for a safe answer is exact in `VramAnswers.AnswerSharesIff`; no reply ever shows that Whisper is gone.
- A registration that is not told to look first rewrites an existing record (`ApiRegistry.RegistrationChangesIff`);
  a caller's tasks are isolated from others exactly when no such registration hits one (`ApiRegistry.OwnershipIsolated`).
- The marker-pair filter of the history lets the second of two marker answers in a row through
  (`HistoryTrim.SecondMarkerStays`, `HistoryTrim.MarkersGoneIff`).
- The split of a window exceeds the room exactly for rooms below 256 tokens and longer histories
  (`ContextBudget.SplitFitsIff`), and documents can get more than they need (`ContextBudget.DocumentsOvergrantedIff`).
- Relevance and coverage can together take one fragment too many (`RagBudget.HalvesFitIff`).
- A Word field inside the instruction of another field makes the rest of that instruction visible
  (`FieldText.NestedInstructionLeaks`, `FieldText.FieldsShownIff`).

## Model

| member | source | states |
|---|---|---|
| Words.FineWilf | app/llamacpp_client.py:345-380 | two periods of a word at least as long as their sum give their greatest common divisor as a period |
| Repetition.RepetitionCutoff | app/llamacpp_client.py:345-380 | the search loop and its conditions compute the cutoff that the lemmas below characterise |
| Repetition.DetectionExact | app/llamacpp_client.py:345-380 | a text of three windows or more is flagged with a spacing of at most a window exactly when its last window plus two periods is periodic with a period of at most a window |
| Repetition.DetectionComplete | app/llamacpp_client.py:345-380 | every such loop is flagged, and the cut lies at least two periods before the probe |
| Repetition.DetectionSound | app/llamacpp_client.py:370-380 | evenly spaced probe occurrences up to a window apart mean a periodic tail with that very period |
| Repetition.SpacingDividesEveryPeriod | app/llamacpp_client.py:370-380 | the spacing found is the primitive period: it divides every period of the tail |
| Repetition.FlaggedIff | app/llamacpp_client.py:345-380 | a text is flagged exactly when the last three copies of its last 200 characters are evenly spaced, whatever stands between, and their distance is the spacing |
| Repetition.CutAtFirstCopy | app/llamacpp_client.py:362-380 | the cut is at the first copy of all |
| Repetition.SparseCopiesCut | app/llamacpp_client.py:370-380 | three copies with different texts of one length between them are cut away whole, with no short period at the end |
| Repetition.StripRemovesLoop | app/llamacpp_client.py:455-465 | a complete answer that ends in a loop is cut to a prefix without the looped tail |
| Repetition.StripKeeps | app/llamacpp_client.py:455-465 | an answer under 600 characters, or without even copies of its last 200, stays as it is |
| Repetition.StripCuts | app/llamacpp_client.py:455-465 | any other is cut to what stands before the first copy, without trailing white space |
| LoopGuards.LoopGuard.constructor | app/llamacpp_client.py:393-400 | a guard starts empty, with the given hold |
| LoopGuards.LoopGuard.Feed | app/llamacpp_client.py:402-438 | a feed appends, detects, and releases all but the held-back characters; after detection it releases nothing |
| LoopGuards.LoopGuard.Flush | app/llamacpp_client.py:440-446 | the flush releases the rest, and nothing after a detection |
| LoopGuards.LoopStartIff | app/llamacpp_client.py:345-424 | the last 4096 characters decide whether a loop shows, and none shows in a text under 600 |
| LoopGuards.LoopStartIs | app/llamacpp_client.py:345-424 | the loop starts at the first copy of the last 200 characters among them, counted from the start of the whole text |
| LoopGuards.FirstRelease | app/llamacpp_client.py:327-438 | the guard of the stream holds 1500 characters back |
| LoopGuards.GuardRun | app/llamacpp_client.py:383-446 | over every run: a clean stream passes as a prefix; from the first chunk that shows a loop on the output is fixed |
| LoopGuards.CleanStreamConserved | app/llamacpp_client.py:416-446 | without a loop feeds and flush give the whole input, and min(length, 300) characters stay back until the flush |
| LoopGuards.ReleasedExactly | app/llamacpp_client.py:402-438 | without a loop exactly the most that any feed so far made due is out: all but the hold for forty feeds, then all but 30 characters less with each, and never less than 300 stay back |
| LoopGuards.LoopRetracted | app/llamacpp_client.py:416-446 | with a loop the output is the seen text up to the loop start, or what was already out, and nothing more follows |
| LoopGuards.ShortLoopStopsStream | app/llamacpp_client.py:345-438 | a stream that ends in a short loop at any chunk boundary is stopped there or before |
| LoopGuards.DetectedIffLoop | app/llamacpp_client.py:416-438 | the flag is up exactly when some chunk boundary showed a loop |
| LoopGuards.RetractedNeverCounts | app/llamacpp_client.py:448-452 | when the loop is reported, the count of suppressed characters is not positive: minus what is out from the start of the loop on |
| LoopGuards.NothingRetracted | app/llamacpp_client.py:448-452 | without a loop the count is 0 |
| ThinkingFilter.ProcessStreamChunk | app/llamacpp_client.py:288-319 | the loop over the buffer emits, keeps and tracks what the specification of one step says |
| ThinkingFilter.TwoChunks | app/llamacpp_client.py:288-319 | two chunks or their concatenation give the same output, buffer and state |
| ThinkingFilter.ChunkingIndependent | app/llamacpp_client.py:288-319 | every chunking of a text gives what one call on the whole text gives, so no part of a tag is ever emitted |
| ThinkingTags.TaggedReplyStreamed | app/llamacpp_client.py:163-171 | for every chunking thinking blocks and the analysis channel, closed or not, disappear, and all other text arrives, the commentary channel with its tags |
| ThinkingTags.UntaggedDelivered | app/llamacpp_client.py:170-171 | text without an opening tag arrives whole |
| ThinkingBatch.StreamRemovesClosed | app/llamacpp_client.py:174-186 | emitted and buffered text together are the text without its closed blocks, as the first batch pass leaves it |
| TaggedAnswers.TaggedReplyStored | app/llamacpp_client.py:174-196 | of a reply with tags the shown texts and the closed commentary bodies are stored, stripped; a reply without tags is stored as it is |
| Whitespace.SpacesAre | app/llamacpp_client.py:196 | the 29 characters that `strip` takes for white space |
| Whitespace.StripEnds | app/llamacpp_client.py:196 | stripping takes the white space at both ends and nothing else |
| ThinkingReplies.ReplyDelivered | app/llamacpp_client.py:288-319 | of shown texts and thinking blocks, the last possibly unclosed, the stream delivers the shown texts |
| ThinkingReplies.ReplyMatchesIff | app/llamacpp_client.py:174-196 | the stored answer is the same up to outer white space exactly when none of the later passes applies to the shown texts put together |
| TagJoins.EveryTextParses | app/llamacpp_client.py:174-196 | every text without analysis and end tags is such a reply |
| TagJoins.StreamMatchesBatch | app/llamacpp_client.py:174-196 | on tag-free shown texts stream and stored answer agree for every chunking exactly when no thinking, analysis, closed commentary or malformed channel tag is put together where a block stood |
| TagJoins.NoPartialTagsAgree | app/llamacpp_client.py:174-196 | they agree when no shown text in front of a block ends in a beginning of a tag |
| TagJoins.PartsStreamMatchesBatch | app/llamacpp_client.py:868-881 | in particular when no shown text has a `<` |
| TagJoins.JoinedTagDiffers | app/llamacpp_client.py:174-196 | a thinking or channel tag split at any place around a block: shown by the stream, cut by the batch filter |
| ReasoningStreams.ReasoningStreamFilter.Feed | app/llamacpp_client.py:503-538 | one feed: structure check, marker head, hold, and the slice released |
| ReasoningStreams.ReasoningStreamFilter.Flush | app/llamacpp_client.py:540-550 | the flush releases everything behind the marker head |
| ReasoningStreams.NeverSplices | app/llamacpp_client.py:468-550 | over every run emitted text and flush are the input from one place on: behind the last marker, and its white space, shown at the boundary where emission began, or at the end if nothing was emitted before; the beginning if that text shows no marker or has looked structured |
| ReasoningStreams.HealthyStreamUntouched | app/llamacpp_client.py:503-538 | a stream without markers is passed on at once and whole |
| ReasoningStreams.StructuredVerbatim | app/llamacpp_client.py:503-550 | from the first boundary on at which a reply looks structured, all that is not yet out goes out as it came |
| ReasoningStreams.StructuredIff | app/llamacpp_client.py:503-510 | the structure flag is up exactly when the text looked structured at some chunk boundary |
| ReasoningStreams.BlankLooksStructured | app/llamacpp_client.py:227-235 | a beginning of a prose reply counts as structured exactly when it is blank |
| ReasoningStreams.LooksStructuredIff | app/llamacpp_client.py:227-235 | JSON objects and arrays, code fences and blank text count as structured, and nothing else |
| ReasoningStreams.ProseUnstrippedIff | app/llamacpp_client.py:503-550 | marker stripping of a reply that starts with prose is off exactly when its first chunk is blank, and then the reply goes out whole |
| StreamPipeline.ChatStream | app/llamacpp_client.py:778-891 | the generator sends exactly the text of the three filters in a row, with the abort on a loop and the flushes at the end |
| StreamPipeline.Finish | app/llamacpp_client.py:866-891 | the clean end: thinking buffer, reasoning tail, held-back text |
| StreamPipeline.Aborted | app/llamacpp_client.py:812-840 | a loop seen while chunks still come ends the client's text, whatever chunks follow |
| StreamOrder.QuietReplyDelivered | app/llamacpp_client.py:778-891 | a reply without markers and loops outside its thinking blocks is delivered in order and whole, for every chunking |
| StreamOrder.CommuteIffPowers | app/llamacpp_client.py:883-891 | two words commute exactly when both are powers of one word |
| StreamOrder.OrderKeptIff | app/llamacpp_client.py:883-891 | without a loop the client gets the answer in order when no marker shows at the end or nothing was released before it; otherwise tail and held-back text are both there, and exactly when they are powers of one word |
| StreamOrder.AnswerRotated | app/llamacpp_client.py:883-891 | for any marker rule, a marked head and an answer up to thirty characters longer than the hold arrive with the answer rotated |
| LateLoops.LoopEndsTextIff | app/llamacpp_client.py:812-891 | in every run with a loop the client gets what the guard released and nothing more exactly when the loop showed before the last feed or no marker shows at the end |
| LateLoops.LateLoop | app/llamacpp_client.py:866-891 | a loop first seen at the last feed is followed by the reasoning tail, which is empty exactly when no marker shows |
| LateLoops.TailSentAfterLoop | app/llamacpp_client.py:866-891 | one chunk with a marked head, some 600 characters that end in a loop and 500 more: the text before the loop and then the last 500 characters arrive |
| LateLoops.LoopReachesClient | app/llamacpp_client.py:866-891 | so the end of every loop of that length with a short period arrives |
| EditDistance.TableDistance | app/slm_rules.py:211-218 | the loops that overwrite one row in place compute the distance |
| EditDistance.LevenshteinRatio | app/slm_rules.py:198-219 | one minus the distance over the longer length, with the shortcuts for equal, empty and very differently long texts |
| EditDistance.DistanceIsLeastCost | app/slm_rules.py:208-219 | that distance is the least cost of an edit script from one text to the other |
| EditDistance.DistanceIsMetric | app/slm_rules.py:208-219 | symmetry, triangle inequality, and zero only for equal texts |
| EditDistance.ShortcutKeepsDecision | app/slm_rules.py:200-207 | thresholds up to one half are decided as without the shortcuts |
| EditDistance.ShortcutChangesDecision | app/slm_rules.py:200-207 | for each other threshold up to one a pair of texts is decided differently |
| EditDistance.ShortcutSafeIff | app/slm_merge.py:80-120 | the exact set of thresholds for which the shortcut is safe |
| FactOrder.NewestFirstSorts | app/slm_merge.py:50 | newest first, the same facts, and for every time the facts of that time in their old order |
| FactCleanup.FastCleanup | app/slm_merge.py:31-77 | the loop with its `seen` dictionary deletes short facts, exact duplicates and short fragments of newer survivors |
| FactMerge.EditDistanceMerge | app/slm_merge.py:80-120 | the pass keeps a text unless a newer kept one is similar |
| FactMerge.FragmentMerge | app/slm_merge.py:123-166 | the pass drops a text by the verdict of its search |
| FactMerge.VerdictExact | app/slm_merge.py:145-160 | dropped exactly when a kept text contains it and no earlier kept text is a fragment of it |
| FactMerge.MergeFacts | app/slm_merge.py:363-387 | the three passes, two of them on the same list, delete what their specifications say, and the counts add up |
| FactWitness.FastCleanupIdempotent | app/slm_merge.py:31-77 | cleaning the survivors again deletes nothing and keeps their order |
| FactSurvivors.FastKeepsIff | app/slm_merge.py:31-77 | a fact survives pass 1 exactly when it has five characters and no newer survivor says the same or contains it at under 80 % of the length |
| FactSurvivors.EditKeepsIff | app/slm_merge.py:80-120 | a fact survives pass 2 exactly when it has a text and each newer survivor's differs in a quarter of the longer length or more |
| FactSurvivors.FragmentKeepsIff | app/slm_merge.py:123-166 | a fact survives pass 3 exactly when it has a text and no newer survivor contains it at under 70 % of the length, unless a still newer one is such a part of it |
| FactSurvivors.MergeDeletes | app/slm_merge.py:363-387 | exactly the facts that a pass does not keep are deleted; of fewer than three facts none |
| FactWitness.DeletedHasSurvivor | app/slm_merge.py:363-387 | every deleted fact of five characters or more is linked through equal, containing or similar facts, each earlier in the newest-first order, to one that no pass deletes |
| FactWitness.FragmentCanStay | app/slm_merge.py:145-160 | three texts that no pass deletes although the last is a fragment of the second: neither the first pass nor the similarity sees them, and the early break hides the containing text |
| FactWitness.DashedNumbersStay | app/slm_merge.py:145-160 | three numbers written with different dashes are such texts, for any normalisation that drops them |
| LayerBudget.ComputeLayerCount | app/resource_manager.py:541-619 | the tier choice and the degradation loop give the specified layer count |
| LayerBudget.StartOfLoop | app/resource_manager.py:541-584 | where the loop starts, by the share of the need that the card has room for and by the size of the card |
| LayerBudget.LayerCountLargest | app/resource_manager.py:586-613 | the layers on the card are zero or the largest count on the grid from that start whose estimate fits |
| LayerBudget.WholeModelLoaded | app/resource_manager.py:541-613 | on a card of 24 GB a model that fits by both estimates is loaded whole |
| LayerBudget.DegradeLargest | app/resource_manager.py:588-613 | the loop ends at zero or at the largest count on its step grid whose estimate fits |
| LayerBudget.FootprintWithinBoundIff | app/resource_manager.py:699-733 | the reserved footprint stays within the loop's bound exactly when the part that no layer count removes does |
| LayerBudget.FullUnloadMakesRoom | app/resource_manager.py:699-733 | then unloading everything else makes room, with any headroom up to the reserve |
| LayerBudget.LongWindowExceedsCard | app/resource_manager.py:588-733 | a window whose cache alone exceeds the card: zero layers and a footprint over the bound |
| LayerBudget.LargeModel | app/resource_manager.py:495-733 | a model worked out on three cards: all layers on 24 GB, 27 of 40 on 12 GB, none on 6 GB, and what is reserved for each |
| LayerBudget.SmallModel | app/resource_manager.py:495-733 | a small one worked out: the minimum file size and buffers, and ten layers asked for although it has five |
| VramPlan.PlanUnloads | app/vram_probe.py:49-87 | the loops compute the specified plan |
| VramPlan.PlanMakesRoom | app/vram_probe.py:49-87 | the demand fits next to what the plan keeps, or the plan keeps nothing |
| VramPlan.PlanIsMinimalPrefix | app/vram_probe.py:69-87 | the plan is a minimal prefix of the unprotected residents by last use; protected ones go only when they alone leave too little room |
| VramPlan.OrderOldestFirst | app/vram_probe.py:72-75 | candidates in order of last use, and all of them |
| VramPlan.OrderStable | app/vram_probe.py:72-75 | residents last used at the same time keep the order of the listing |
| VramPlan.FullEviction | app/vram_probe.py:69-87 | when even the protected residents leave too little room, the others go oldest first, and then the protected ones |
| VramArbiter.ResourceManager.EvictionPlan | app/resource_manager.py:396-417 | everything goes without co-residency, otherwise the plan |
| VramArbiter.EvictionIs | app/resource_manager.py:396-417 | every resident goes without co-residency or with a card of unknown size, and otherwise the planner decides, with the wanted model protected |
| VramArbiter.LoadedAloneIff | app/resource_manager.py:768-790 | the early yes: one model runs, its command contains the name that is wanted, and it is on the card |
| VramArbiter.ResidentNamesAre | app/resource_manager.py:358-394 | the four modules an answered listing names, and Whisper where it uses the card; none without an answer |
| VramArbiter.LoadedAre | app/resource_manager.py:369-393 | each with its footprint and last use; one never used counts as the oldest |
| VramArbiter.ResourceManager.WaitForRoom | app/resource_manager.py:849-900 | success means that a poll showed kept models only, or was not answered, and enough free memory; failure means no poll did; the commands are those of the specified log |
| VramArbiter.ResourceManager.UnloadAndWait | app/resource_manager.py:820-906 | the busy flag falls on every way out |
| VramArbiter.ResourceManager.EnsureVramFor | app/resource_manager.py:737-906 | exactly when the gate says yes, and exactly what it sends; a yes found the memory free, and the models it was shown leave room for demand and headroom; a refusal says why |
| VramArbiter.ResourceManager.MakeRoom | app/resource_manager.py:811-906 | the plan, the early answer when nothing has to go, and otherwise the unloads and the wait |
| VramArbiter.ResourceManager.UnloadExcept | app/resource_manager.py:861-880 | an unload goes to every model that is not kept, and tells whether there was one |
| VramArbiter.ResourceManager.CarryOut | app/resource_manager.py:831-844 | the planned unloads, or a full one for an empty plan, and then the video pipeline |
| VramArbiter.PlanCarriedOut | app/resource_manager.py:831-844 | every planned model is told to go, all of them exactly when the plan is empty, and the video pipeline always |
| VramArbiter.WaitUnloads | app/resource_manager.py:861-890 | up to the deciding poll every model that shows and is not kept is told to go, and no other |
| VramArbiter.WaitEnds | app/resource_manager.py:861-890 | behind the poll that shows room nothing is sent |
| VramArbiter.LastFreeIs | app/resource_manager.py:885-902 | the free memory in a refusal is that of the last poll without an unexpected model |
| VramArbiter.GateTells | app/resource_manager.py:820-844 | silent when nothing has to go and the memory is free; otherwise the plan, or everything, is told to go |
| VramArbiter.GateSpares | app/resource_manager.py:831-890 | no command touches a kept model |
| VramArbiter.GivenHasRoom | app/resource_manager.py:820-906 | the models that a positive answer was shown leave room for the demand |
| VramCard.EvictionLeavesRoom | app/resource_manager.py:737-906 | after eviction the card is empty or demand and headroom fit |
| VramAnswers.GateKeepsSharing | app/resource_manager.py:811-906 | if the replies show every model that can be there and those not shown to be gone fit, the loaded model is alone or all fit together with the headroom |
| VramAnswers.AnswerSharesIff | app/resource_manager.py:811-906 | that condition is exact: otherwise a card and a course of events fit the replies and end badly |
| VramAnswers.AnsweredGuarantees | app/resource_manager.py:848-893 | an answered listing, or last poll, meets it, unless Whisper is to be restarted or may be hidden |
| VramAnswers.UnansweredPollIff | app/resource_manager.py:853-861 | after an unanswered last poll a new model is safe exactly when it fits without any unload |
| VramAnswers.FreeMemoryFits | app/resource_manager.py:886-890 | the free memory alone guarantees that all fit, and the headroom only if it was free as well |
| VramAnswers.HiddenModelIff | app/resource_manager.py:361-366 | when a model may be hidden, an answer is safe exactly when demand and headroom were free |
| VramAnswers.FailedPollShares | app/resource_manager.py:853-890 | 9000 MB and 6500 MB on a 16000 MB card with 2000 MB of headroom, after an unanswered unload and poll |
| VramAnswers.FailedListingShares | app/resource_manager.py:361-822 | the same after an unanswered listing |
| VramRuns.RunFits | app/resource_manager.py:737-906 | over every run of positive answers, their requests answered or not, refusals, uses and disappearances: the models are distinct and fit the card, if the driver's figures are true |
| VramRuns.RunShares | app/resource_manager.py:737-906 | over every such run in which each positive answer meets the exact condition, or found the headroom free by true figures, there is one model at most or all fit together with the headroom |
| VramRuns.UnsafeRun | app/resource_manager.py:737-906 | a run of two loads that ends without the headroom |
| VramRuns.PlannedAnswer | app/resource_manager.py:812-906 | carrying a plan out and loading, with answered requests, is such an answer, and what it leaves |
| VramCard.RepeatedRequestEvicts | app/resource_manager.py:396-417 | for a resident of a shared card all residents fit already, yet another one goes exactly when the demand does not fit a second time |
| SandboxProtocol.StepKeepsInvariant | app/rlm_sandbox.py:159-309 | every step of parent or child keeps the line's invariant |
| SandboxProtocol.RunInvariant | app/rlm_sandbox.py:159-309 | it holds in every interleaving |
| SandboxProtocol.NoReplyForAnotherExec | app/rlm_sandbox.py:266-309 | at most one message in flight, one result per exec, and a child result is the one produced for that exec |
| SandboxProtocol.QuietBetweenExecs | app/rlm_sandbox.py:279-309 | between execs both pipes are empty and the child waits, or it is dead or cut off |
| SandboxProtocol.ResultsGrow | app/rlm_sandbox.py:266-295 | results are never rewritten |
| SandboxProtocol.PendingExecCanReturn | app/rlm_sandbox.py:279-309 | a pending exec is never stuck, and the clock ends it |
| SandboxProtocol.RejectedNeverRuns | app/rlm_sandbox.py:266-277 | in every interleaving rejected code, and code without a child, is never on the pipe and never computed |
| SandboxProtocol.ResultReasons | app/rlm_sandbox.py:266-295 | each kind of result has exactly one reason |
| SandboxProtocol.TurnsAnswer | app/rlm_sandbox.py:279-295 | a pending exec ends with exactly one result and leaves the line quiet |
| SandboxProtocol.TimeoutMeansSilence | app/rlm_sandbox.py:279-295 | the clock ends an exec only while the child lives, has sent nothing, and has computed nothing for it |
| SandboxProtocol.RlmSandbox.StartChild | app/rlm_sandbox.py:232-256 | a fresh child waits on fresh pipes, and earlier results stay |
| SandboxProtocol.RlmSandbox.ExecIo | app/rlm_sandbox.py:279-295 | the message loop reads, hangs up or times out turn by turn as the specification does |
| SandboxProtocol.RlmSandbox.Execute | app/rlm_sandbox.py:266-295 | one call, one result: rejected exactly when the code does not pass, not started exactly when it passes and no child is there, and then nothing else changes; an output is the child's own for this call; a death or the clock closes the line |
| ApiRegistry.ApiRegistryStore.RegisterTask | app/api_bridge.py:82-160 | the script refuses or writes: the new registry and the answer are those of the specification |
| ApiRegistry.ApiRegistryStore.RegisterRequeued | app/api_bridge.py:716-729 | ownership is looked up and carried to the new id |
| ApiRegistry.CarefulRegistration | app/api_bridge.py:82-110 | it succeeds exactly when the id is free or already says the same, and never changes an existing record |
| ApiRegistry.CarefulLooks | app/api_bridge.py:82-110 | an existing hash must have all four fields and the caller's login, session and endpoint, and keeps its creation time; a free id is written new |
| ApiRegistry.PlainWrites | app/api_bridge.py:82-110 | an unconditional registration writes the hash and lists the id, whatever was there |
| ApiRegistry.RequeueCarriesOwnership | app/api_bridge.py:716-729 | a requeue is followed exactly when the caller owns the old id and the new one is free or his |
| ApiRegistry.RequeueWrites | app/api_bridge.py:716-729 | a fresh id carries the session and endpoint of the task before |
| ApiRegistry.OwnershipIsolated | app/api_bridge.py:126-216 | however others register, requeue and remove, a caller's tasks stay as they are and none is added, exactly when no registration without a look hits one of his ids |
| ApiRegistry.RemovesOwn | app/api_bridge.py:200-215 | a caller's own task leaves hashes and list, and nothing else does |
| ApiRegistry.RegistrationChangesIff | app/api_bridge.py:82-160 | a registration changes an existing record exactly when it is not told to look first and the record says something else |
| ApiRegistry.FreshIdsIsolate | app/api_bridge.py:126-216 | isolation holds whenever every submitted id is new at that moment |
| ApiStream.StreamChat | app/api_bridge.py:895-997 | the generator's chunks for every event sequence |
| ApiStream.OneTurn | app/api_bridge.py:920-990 | the body of the loop: token, requeue, end, heartbeat or deadline |
| ApiStream.EveryStreamWellShaped | app/api_bridge.py:841-997 | the role chunk first and once, the end mark last and once when the stream is over |
| ApiStream.OpenStreamText | app/api_bridge.py:920-990 | while it runs the client has read exactly the tokens sent |
| ApiStream.SuccessText | app/api_bridge.py:841-892 | when the active task ends well the client has read the answer if the tokens sent were a prefix of it, and otherwise exactly the tokens |
| ApiStream.ConclusionCloses | app/api_bridge.py:841-961 | the end of the active task closes the stream: a failure is told, a success stops, with the usage if asked for |
| ApiStream.RequeueFollowed | app/api_bridge.py:940-978 | a requeued task is followed under its new id exactly when the caller may; otherwise the stream ends in a failure |
| ApiStream.OtherEvents | app/api_bridge.py:920-997 | any other event leaves the stream open until the deadline; a token of the active task is passed on, with a heartbeat every 15 seconds |
| ApiStream.FailureText | app/api_bridge.py:920-990 | on a timeout, an error or a refused requeue the client has read exactly the tokens that came |
| ApiStream.FollowedTasksAreOwned | app/api_bridge.py:920-990 | each followed id was registered to the caller in succession to the one before |
| ApiStream.OnlyActiveTokens | app/api_bridge.py:920-990 | each content chunk of a running or finished stream is a token of the task that was active when it came, or the rest of the answer that closed the stream |
| JsonScan.ScanObject | app/kernel.py:103-122 | depth and string flags find the length at which the brace closes |
| JsonScan.FirstJsonObject | app/kernel.py:92-123 | the outer loop tries the braces in order |
| JsonScan.FirstObjectEarliest | app/kernel.py:92-123 | the result is the balanced slice at the earliest position that has one; none only if none has |
| JsonPrint.PrintNeutral | app/kernel.py:103-122 | a printed value leaves depth and string flags as they were |
| JsonPrint.ScanFindsPrinted | app/kernel.py:92-123 | behind text without a brace and before any text the scanner returns exactly the printed object |
| PieceTable.ParsePlc | app/doc_extract.py:166-186 | the loop over positions and descriptors |
| PieceTable.WalkClx | app/doc_extract.py:146-163 | the walk ends on every byte string |
| PieceTable.PcdtReached | app/doc_extract.py:146-163 | the walk stops at a Pcdt only behind Prc records |
| PieceTable.PieceCount | app/doc_extract.py:166-172 | one piece for every 12 bytes; none if the length is too short or odd |
| PieceTable.NoPieces | app/doc_extract.py:140-163 | none without a table stream, without a CLX, with one cut off, or without a Pcdt in it |
| PieceTable.CompressedBit | app/doc_extract.py:175-177 | bit 30 marks a compressed piece, whose offset is the half of the other bits |
| PieceTable.ReadPieces | app/doc_extract.py:140-163 | the table at the place the header names |
| PieceTable.PlcRoundTrip | app/doc_extract.py:166-186 | parsing an encoded PlcPcd gives its pieces |
| PieceTable.PieceTableRoundTrip | app/doc_extract.py:140-186 | an encoded CLX anywhere in the table stream, behind any Prc records and before anything else, yields exactly its pieces |
| FieldText.Clean | app/doc_extract.py:217-254 | the character loop shows what the scan shows |
| FieldText.ShownAs | app/doc_extract.py:217-254 | the control characters that show as breaks, tabs, hyphens or nothing; every other character shows itself |
| FieldText.CleanTwice | app/doc_extract.py:228-254 | cleaning twice changes nothing more |
| FieldText.FieldShowsResult | app/doc_extract.py:228-241 | of one field the instruction goes and the result stays |
| FieldText.FieldsShownIff | app/doc_extract.py:217-254 | results are shown and instructions dropped exactly when in no instruction a visible character stands in or behind a nested field |
| FieldText.ResultsMayNest | app/doc_extract.py:217-254 | fields nested to any depth in results, with flat instructions, are shown as they should be |
| FieldText.NestedInstructionLeaks | app/doc_extract.py:228-241 | a field inside an instruction shows its result and the rest of the instruction |
| GgufHeader.SkipValueLoop | app/model_hub.py:550-569 | skipping a value, strings of an array one by one |
| GgufHeader.SkippableTypes | app/model_hub.py:550-569 | unknown types are not skipped, nor arrays of arrays |
| GgufHeader.SizesOfTypes | app/model_hub.py:553 | the sizes of the fixed-size types |
| GgufHeader.Pair | app/model_hub.py:571-605 | one pair: take, stop or skip |
| GgufHeader.WalkPairs | app/model_hub.py:571-609 | the loop over the announced pairs |
| GgufHeader.ParseGgufArch | app/model_hub.py:534-615 | fields only behind the magic, and only with a block count |
| GgufHeader.ForeignFile | app/model_hub.py:536-537 | nothing is read without the magic |
| GgufHeader.NamelessReadsNothing | app/model_hub.py:583-603 | without the name of an architecture no field is read |
| GgufPrefix.LongerPrefixAgrees | app/model_hub.py:534-615 | what a prefix yields every longer prefix yields |
| GgufPrefix.GgufArch | app/model_hub.py:664-682 | growing prefixes until one parses |
| GgufPrefix.FirstSuccessIsFinal | app/model_hub.py:664-682 | the first success has the block count of the whole file |
| GgufRoundTrip.SkipEncoded | app/model_hub.py:550-569 | skipping an encoded value of any type ends right behind it |
| GgufRoundTrip.PrefixReadsEncoded | app/model_hub.py:534-615 | every field read from any prefix of an encoded file was encoded, under an architecture name that was encoded |
| GgufRoundTrip.PrefixReadsThePair | app/model_hub.py:534-615 | with the architecture first and distinct keys every field read from any prefix is the number of the one pair encoded for it |
| GgufRoundTrip.BlockCountRoundTrip | app/model_hub.py:534-615 | with the architecture first and distinct keys the whole file yields exactly the encoded block count, unless that is 0 |
| GgufRoundTrip.PrefixBlockCount | app/model_hub.py:664-682 | and so does every prefix that parses |
| GgufFields.FieldReadIff | app/model_hub.py:571-609 | the whole file yields a field exactly when no pair before it ends the walk: no tokenizer key behind a nonzero block count, and not the last of block count, context and KV heads |
| GgufFields.WantedExactly | app/model_hub.py:583-592 | the five fields and the keys they are read from |
| HistoryTrim.RemoveNotices | app/db.py:986 | system notices out |
| HistoryTrim.NoticesByMessage | app/db.py:986 | message by message, in order (`NoticesGo`: one message) |
| HistoryTrim.FilterMarkerPairs | app/db.py:988-1004 | a message stays exactly when no marker answer follows it and the run of marker answers ending at it is even |
| HistoryTrim.UnmarkedUntouched | app/db.py:988-1004 | a session in which no answer is marked passes whole |
| HistoryTrim.MarkersGoneIff | app/db.py:988-1004 | no marker answer gets through exactly when every run of them is odd |
| HistoryTrim.AlternatingSessionClean | app/db.py:988-1004 | in an alternating session exactly the marker answers and their questions go |
| HistoryTrim.SecondMarkerStays | app/db.py:988-1004 | two marker answers in a row: the second stays |
| HistoryTrim.MarkedAnswerGoes | app/db.py:988-1004 | a question goes with the marked answer behind it |
| HistoryTrim.NewestThatFit | app/db.py:1009-1018 | the longest tail that fits the budget |
| HistoryTrim.TokensAdd | app/db.py:1011-1016 | what is weighed against the budget adds up over the messages (`TokensOfOne`: the estimate of one text) |
| HistoryTrim.DropOrphans | app/db.py:1022-1023 | everything before the first question goes |
| HistoryTrim.TrimToBudget | app/db.py:1006-1023 | the longest tail that fits the budget and starts with a question, or nothing if there is none |
| HistoryTrim.TailStarts | app/db.py:1009-1023 | a kept tail starts with what the user wrote, as text |
| HistoryTrim.SessionTextHistory | app/db.py:1004-1035 | the longest tail that fits and starts with a question; dropped and kept add up to the total |
| ContextBudget.SplitTotal | app/context_budget.py:49-73 | fitting needs are granted exactly; colliding ones use the whole room, with the one exception |
| ContextBudget.SplitFitsIff | app/context_budget.py:49-73 | the room is exceeded exactly when it is positive, below 256 and smaller than the history need |
| ContextBudget.SplitFloors | app/context_budget.py:67-73 | both floors hold, and history gets no more than it needs |
| ContextBudget.FloorIs | app/context_budget.py:67-69 | the history minimum is 256 tokens or an eighth of the room, and no more than needed |
| ContextBudget.DocumentsOvergrantedIff | app/context_budget.py:67-73 | when documents get more than they asked for |
| ContextBudget.AnswerReserve | app/context_budget.py:76-78 | the reserve lies between its bounds |
| ContextBudget.ReserveIs | app/context_budget.py:76-92 | the reserve in every case: a tenth of the window between 512 and 4096 or what the application asks for, and never more than half of the window |
| ContextBudget.RoomIs | app/context_budget.py:81-92 | the room is what prompt and answer leave of the window |
| ContextBudget.WindowHolds | app/context_budget.py:81-92 | all parts fit the window exactly when prompt and answer do and the split does |
| ContextBudget.CapShare | app/context_budget.py:95-99 | the cap only lowers, and holds in percent |
| ContextBudget.CapIs | app/context_budget.py:95-99 | and takes away no more than it has to |
| RagBudget.FragmentsPaidFor | app/rag_budget.py:112-113 | fragments times cost fits the tokens unless not even one fragment does, and one more would not fit |
| RagBudget.HalvesFitIff | app/rag_budget.py:114-121 | relevance and coverage take at most one fragment too many, and exactly when no fragment is left beside coverage; without a configured top-k none stays unused |
| RagBudget.HalvesAre | app/rag_budget.py:113-128 | coverage and relevance in every case, cut to the configured top-k |
| RagBudget.EveryDocumentIff | app/rag_budget.py:114-121 | every document is covered exactly when a fragment for each fits the granted tokens, or there is at most one document |
| RagBudget.FittingCorpusCovered | app/rag_budget.py:105-121 | a corpus whose need fits beside the history is covered, with half of it again for depth |
| RagBudget.UnknownCorpus | app/rag_budget.py:100-121 | a corpus of unknown size without a history gets what prompt and answer leave of the window |

## Left out

- FootprintWithinBoundIff: models whose file metadata is known and whose file has a megabyte or more; the fallbacks for missing metadata and measured footprints only return stored numbers.
- PieceTableRoundTrip: the text of a piece is not decoded (cp1252 and UTF-16), and the run without a piece table is not modelled.
- FieldsShownIff: the tidying after the character loop (tabs at line ends, NUL characters, outer white space) is not modelled.
- FragmentsPaidFor: the cost of one fragment is a parameter; measuring it needs the token estimator.
- RunShares: the gate and the load are one step, so two requests at once are not covered, nor models that other programs start meanwhile; running models under other names than the four modules are not modelled; a resident's footprint stays as it was at its load.
- EnsureVramFor: an only running model whose command contains the wanted name counts as the wanted one; the runs take it to be that one.
- OwnershipIsolated: key lifetimes and the trimming of an owner's list to its newest 500 entries.
- NoReplyForAnotherExec: resource limits, the syntax whitelist and values that cannot be pickled.
- EveryTextParses: texts with an analysis or an end tag; `TaggedReplyStreamed` and `TaggedReplyStored` cover those whose texts have no `<` of their own.
- StreamMatchesBatch: shown texts that hold a tag themselves; `ReplyMatchesIff` covers those without an opening tag.
- LevenshteinRatio: ratios are exact numbers; rounding of floating-point division is not modelled, here and in the other modules that use `real`.
- DeletedHasSurvivor: the two text normalisations are any functions, except that a text containing one with a non-empty normal form is required to have one too; identifiers are required to be distinct.
- ChatStream: models the stream of the reasoning model; other models pass the thinking filter only. Tool-call deltas, usage records and the retry of a failed request are not modelled.
- StreamChat: the text of error payloads, and the calls that publish and unsubscribe.
- SessionTextHistory: the database query and its row limit; text extraction and token estimation are arbitrary functions.
- Regular-expression engines and Unicode normalisation: thinking tags are matched literally, reasoning markers by an arbitrary function.
- HTTP, Redis, PostgreSQL, Qdrant, processes and files: their replies are inputs.
- The second streaming backend repeats the first one's end of stream with other flushes (app/llamacpp_client.py:1171-1440).
- The blocking wait for a result follows requeues as the streaming one does (app/api_bridge.py:674-713).
- Coercion of a router decision's fields (app/kernel.py:126-214) and the recent-history tail (app/db.py:934-965): easy members.
- Semantic merging, temporal decay and model-response cleanup of facts: they depend on a similarity service, the clock and word lists.
