# Verified models of the Hiveplane field-test agents and checkpoint saver

This project models eight components of the Hiveplane repository in Dafny and proves what each of them is for.
`dafny verify dfyconfig.toml` checks everything.

| component | modules | main results |
|---|---|---|
| rollback synthesizer | `PlanGraph`, `Kahn`, `Rollback` | Kahn's test decides acyclicity; the sorted order is unique; rollback plans are DAGs, mirror reachability, and undo what was done, by the laws of the verbs and under every schedule their edges allow |
| file-backed checkpoint saver | `Codec`, `Checkpoint` | after any run of operations with crashes between disk steps, a rebuilt saver gives the lookups of the operations that took effect, in any file order |
| frozen sections, edit distance, promotion gate | `TextOps`, `FrozenSections`, `FrozenEdits`, `EditDistance`, `PromotionGate` | which section a line is in, by counting markers; greedy matching loses no match; the opcode total bounds the true edit distance; when an edit keeps every frozen section on parsing again |
| TF-IDF drift | `Reals`, `TfidfDrift` | drift is symmetric and in [0, 1], 1 exactly when no token is shared, 0 exactly for proportional bags, and has a closed form on distinct tokens |
| Wilson interval, drift alert | `Wilson`, `DriftAlert` | the interval is the exact solution set of the score test; an alert is possible exactly when t²n < (n-1)² |
| secret redactor | `Redaction` | the result does not depend on the secrets; what redaction, audits and integrity check do, by paths; when hash mode passes the check |
| rate limiter | `RateLimiter` | pruned buckets agree with the full history over every run; no window is overfull; the wait is the least delay |
| resource locks | `StateLock` | over every interleaving at most one lock object per resource is active and the mutex is balanced, with the exact clock bound; when a release harms another holder |
| approval and escalation | `Approval`, `Escalation` | fail-closed threshold, agreement of re-critique and threshold for every critic, version counting over runs |

Objects the program updates in place are classes (`InverseRollbackSynthesizer`, `JsonFileCheckpointSaver`,
`SecretsRedactor`, `Limiter`, `StateLocks`, `EscalationManager`), loops are loops, and each method is tied to a
specification function or predicate about which the laws are proved. `Common` holds what several modules share.

## Conventions

- Numbers are exact: counts are integers, times, rates and scores are reals.
- Square root, logarithm and the normal quantile are function parameters with the law they need stated (`IsSqrt`,
  `IsLog`, `IsQuantile`). Clocks are parameters.
- A pattern is any function that returns ordered, disjoint spans. An opcode source is any function whose opcodes tile
  both sequences with matching `equal` blocks. A marker classifier is any function from a line to its kind. Gates and
  critics are any functions from plans to findings.
- Errors the program raises are values: `MalformedAt`, `Raised`, `CyclicPlan`, `NotStored`, `InvalidCounts`,
  `InsufficientHistory`, and so on.
- Hard edges join task ids wherever Kahn's algorithm runs. The plan validator guarantees it
  (field_test/agents/planner_critic/schema/plan.py:234-238); the lookups alone would demand it of the target only.
- The directory of the saver is a map from file name to document, and a flush is its sequence of disk steps. A crash
  leaves the directory after some prefix of them, with the temporary file possibly torn.

## Where the code and its promises differ

Each item is a lemma with the exact condition or a concrete input.

- A custom registry that calls an unmapped verb deterministic yields a no-op step without a trace record, and only
  that does (`SilentNoopIff`). Trace laws are therefore stated for registries with `NoSilentNoops`, which the default
  one satisfies.
- `check_drift_alert` is documented to check one family and counts all findings. It alerts for a family that never
  drifted (`AnotherFamilyAlerts`). A day counts right exactly when the family drifts in the same share
  (`RateIsFamilyRateIff`), and the alert is the family's own at every threshold exactly when the last rates of the two
  lists lie on one side of their means, their squared distances in the ratio of the variances
  (`AlertIsFamilyAlertIff`). The default threshold 2.0 can never alert on five days or fewer
  (`DefaultNeverAlertsWithinFiveDays`), and `AlertPossibleIff` says exactly which windows can.
- The retry advice of the rate limiter truncates the wait. It is too short exactly when the wait exceeds one second and
  is not whole (`AdviceSufficesIff`). Tools can share a bucket and then refuse each other's first call
  (`SharedKeyRefusesFirstCall`); `ShareKeyIff` says exactly which names do. A limit of zero or less does not refuse
  calls but raises an index error (`FaultIff`, `NonPositiveLimitAlwaysFaults`).
- The strict integrity check refuses hash-mode output, because a digest cannot make up a placeholder
  (`HashMarksNothing`, `HashModeRefusedExample`). Of texts that show no placeholder and do not hold the digest of one of
  their own replaced matches it accepts exactly those no pattern matches (`HashModeAcceptedIff`); a key matched as a
  whole is refused unless it is its own digest (`WholeMatchRefusedIff`).
- `verify_transit_integrity` is documented to keep every number and flag. It keeps those at places both values have
  (`AcceptedIff`); a dictionary replaced by a text is accepted (`LostDictionaryAccepted`).
- `parse_frozen_sections` documents an error for unclosed markers, but the code closes the section at the end of the
  text (`UnclosedRunsToEndIff`, `UnclosedExample`).
- `check_frozen_sections` is documented to fail if an edit modifies a frozen section. It looks for the old blocks
  anywhere: deleting the marker passes and unfreezes the section (`UnfreezingEditPasses`), and so does rewriting frozen
  text beside a copy of it (`RewrittenBlocksPass`). It fails its promise in this direction only: an edit that keeps the
  compared sections is never refused (`KeptSectionsPass`). Sections are the same exactly when the frozen lines are,
  markers up to spelling (`SameContentsIff`), and an edit off the frozen lines and markers keeps them when it writes
  plain lines only, which is exactly when nothing it writes is frozen (`EditKeepsFreezeIff`, `ReparseKeepsSections`).
- `check_all` documents six checks and runs seven; the model takes any number. It decides where
  `_run_individual_checks` raises exactly when no prompt is blank and a check raises after an earlier one failed, and
  raises where the other does not exactly when a prompt is blank and no check raises (`FormsDifferIff`). On the gate's
  inputs the first is a malformed marker beside a failed statistical check, and the second a blank prompt beside
  well-formed markers (`GateFormsDifferIff`, `MalformedAfterFailedFloor`).
- `StateLock.release` takes no owner and waits for the mutex after it was called. Believing in one's lock at the call
  is not enough (`RaceBreaksExclusion`). `ReleaseKeepsBeliefsIff` is the exact condition when the release executes, and
  `CarefulHoldersAreExclusive` what a holder can check at the call.
- Locks expire by the wall clock, which may step back and revive a superseded lock (`BackwardClockBreaksExclusion`);
  `ClockKeepsExclusiveIff` and `TickKeepsInvIff` give the exact bound.
- `ApprovalGate.approve` trusts the outcome it is given, under whatever tolerance that was resolved. A strict gate can
  then approve a plan with warnings; `GateTrustsOutcomeIff` says exactly for which pairs of tolerances it cannot. The
  planning loop gives both sides the contract's tolerance and is fail-closed (`ApproveFindings`).
- Two gate findings that share an id can hide a deterministic blocker (`SharedIdHidesBlocker`);
  `RefusedForEveryCriticIff` is the exact condition under which no critic can save a patch.
- A patch is stored under its own id, and only its parent is compared with the plan. The plan's version rises exactly
  when the ids agree (`PatchRaisesVersionIff`). A stored revision is overwritten exactly when the patch's own id and
  version are taken by a different one (`PatchOverwritesIff`, `ForeignPatchOverwrites`).
- `create` does not look at the status of the escalation it is given, so a decision can arrive without the bound
  authority (`CreateCanBringDecision`, `StepKeepsAuthorityIff`), and it replaces an earlier decision of the same plan
  (`DecisionLostIff`).

## Model

| member | source | states |
|---|---|---|
| Kahn.BuildGraph | field_test/agents/planner_critic/rollback_synth.py:103-111 | adjacency lists every hard target with multiplicity, in-degrees count every hard edge, keys are the distinct task ids |
| Kahn.Relax | field_test/agents/planner_critic/rollback_synth.py:118-121 | decrementing along a neighbour list with repeats removes exactly that many edges and enqueues exactly those that reach zero |
| Kahn.RollbackDagValid | field_test/agents/planner_critic/rollback_synth.py:92-122 | terminates; true exactly when ids are distinct and no task reaches itself, parallel edges and self-loops included |
| Kahn.CompleteRunMeansDag | field_test/agents/planner_critic/rollback_synth.py:113-122 | any finished Kahn run lists as many tasks as the plan has exactly when the plan is a DAG |
| PlanGraph.RunCompleteIffAcyclic | field_test/agents/planner_critic/rollback_synth.py:113-122 | a finished run covers all task ids exactly when the hard edges are acyclic |
| PlanGraph.RunsListSameTasks | field_test/agents/planner_critic/rollback_synth.py:113-152 | any two finished runs, whatever their queue discipline, dequeue the same set of tasks |
| PlanGraph.ReachesGoesForward | field_test/agents/planner_critic/rollback_synth.py:125-152 | in an order with predecessors first, reachability points forward |
| PlanGraph.DistinctIdsBySize | field_test/agents/planner_critic/rollback_synth.py:105-122 | ids are distinct exactly when the id set is as large as the task list |
| Kahn.TopologicalOrder | field_test/agents/planner_critic/rollback_synth.py:125-152 | a finished Kahn run that follows the first-in first-out discipline with ties broken by task index |
| PlanGraph.TopologicalOrderUnique | field_test/agents/planner_critic/rollback_synth.py:125-152 | that description has exactly one order: the result is determined by the plan |
| PlanGraph.QueueDiscipline | field_test/agents/planner_critic/rollback_synth.py:125-152 | the same on edges and positions: of two listed tasks the second was freed by a later predecessor, or neither was and the first stands earlier in the plan |
| Rollback.MergeTables | field_test/agents/planner_critic/rollback_synth.py:69-89 | precedence of the three verb tables and the overrides, for any tables |
| Rollback.ActionInversionRegistry | field_test/agents/planner_critic/rollback_synth.py:34-89 | known verbs, overrides win, every other verb has its class by the precedence of the tables, and the default registry has no silent no-ops |
| Rollback.SilentNoopIff | field_test/agents/planner_critic/rollback_synth.py:155-225 | an untraced no-op arises exactly from an unmapped verb marked deterministic |
| Rollback.EdgesReverse | field_test/agents/planner_critic/rollback_synth.py:268-315 | x to y becomes rollback y to rollback x exactly for kept hard edges |
| Rollback.EdgesAreRenamed | field_test/agents/planner_critic/rollback_synth.py:268-315 | a rollback plan has no other edges |
| Rollback.ReachabilityReverses | field_test/agents/planner_critic/rollback_synth.py:268-315 | x reaches y exactly when rollback of y reaches rollback of x |
| Rollback.DoubleReversal | field_test/agents/planner_critic/rollback_synth.py:268-315 | reversing twice gives the original hard edges under the doubled prefix and nothing else |
| Rollback.FullRollbackIsDag | field_test/agents/planner_critic/rollback_synth.py:268-315 | the full rollback is a DAG of the same size whose own task list is a finished Kahn run of it |
| Rollback.CompletedExcludesFailed | field_test/agents/planner_critic/rollback_synth.py:335-341 | the completed part is closed under predecessors and holds neither the failed step nor anything reachable from it |
| Rollback.PartialRollbackIsDag | field_test/agents/planner_critic/rollback_synth.py:317-379 | the partial rollback is a DAG whose list respects its edges and is a suffix of the full rollback's list |
| Rollback.InvertedListRestores | field_test/agents/planner_critic/rollback_synth.py:247-266 | running any tasks and then their inverted reversal restores the state when each inverse undoes its action |
| Rollback.PartialRollbackRestores | field_test/agents/planner_critic/rollback_synth.py:317-379 | running the completed prefix and then the partial rollback restores the starting state |
| Rollback.SchedulesAgree | field_test/agents/planner_critic/rollback_synth.py:268-379 | two schedules of the same tasks that respect the same edges have the same effect when incomparable tasks commute |
| Rollback.AnyScheduleRestores | field_test/agents/planner_critic/rollback_synth.py:317-379 | every finished Kahn schedule of the partial rollback restores the starting state |
| Rollback.DefaultRollbackRestores | field_test/agents/planner_critic/rollback_synth.py:34-315 | under any meaning in which restore undoes delete, remove undoes add, and so on for the nine pairs, restore_snapshot undoes the ten snapshot verbs and sys.noop does nothing: a plan whose steps applied where they ran or changed nothing is undone by its default rollback |
| Rollback.DefaultPartialRollbackRestores | field_test/agents/planner_critic/rollback_synth.py:34-379 | the same for the steps before a failed one and the partial rollback |
| Rollback.IrreversibleStepStays | field_test/agents/planner_critic/rollback_synth.py:155-225 | the rollback step of any other verb leaves every state as it is |
| Rollback.TraceRecordsNoops | field_test/agents/planner_critic/rollback_synth.py:247-266 | without silent no-ops the trace names exactly the steps whose rollback does nothing |
| Rollback.DefaultTraceNames | field_test/agents/planner_critic/rollback_synth.py:247-266 | with the default registry the trace names exactly the steps whose verb is none of the nineteen reversible ones |
| Rollback.ReversedEdgesAreHard | field_test/agents/planner_critic/rollback_synth.py:296-379 | every rollback edge is hard and carries its reason, and a full rollback has as many as the plan has hard edges, repeats included |
| Rollback.InverseRollbackSynthesizer.constructor | field_test/agents/planner_critic/rollback_synth.py:236-245 | a missing or empty registry becomes the default one, with the class of every verb |
| Rollback.InverseRollbackSynthesizer.InvertAll | field_test/agents/planner_critic/rollback_synth.py:247-266 | inverted tasks in the given order, with the names, targets and risk class of rollback steps, and the trace is reset to the skipped steps |
| Rollback.InverseRollbackSynthesizer.BuildRollback | field_test/agents/planner_critic/rollback_synth.py:268-315 | refuses exactly the plans that are not DAGs, leaving the trace alone; otherwise builds the full rollback of the unique order with its heading, its reversed edges and its trace |
| Rollback.InverseRollbackSynthesizer.BuildPartialRollback | field_test/agents/planner_critic/rollback_synth.py:317-379 | the same for the partial rollback of the steps before the failed one |
| Rollback.CompletedSet | field_test/agents/planner_critic/rollback_synth.py:335-339 | the loop gathers exactly the steps before the failed one |
| Codec.Base64RoundTrip | src/hiveplane/checkpointing.py:187-192 | decoding an encoded blob gives back its bytes (section 4 of RFC 4648) |
| Codec.EncodesGroups | src/hiveplane/checkpointing.py:187-192 | every four symbols spell the number of their three bytes, zero bits and equals signs standing for missing ones |
| Codec.AlphabetIs | src/hiveplane/checkpointing.py:187-192 | the order of the alphabet |
| Codec.QuoteRoundTrip | src/hiveplane/checkpointing.py:69-71 | percent-encoding is undone by decoding (section 2 of RFC 3986) |
| Codec.QuotesBytes | src/hiveplane/checkpointing.py:69-71 | letters, digits and four marks stand for themselves, every other byte is a percent sign and two upper-case hexadecimal digits |
| Codec.FileNamesDisjoint | src/hiveplane/checkpointing.py:69-71 | file names are equal exactly for equal threads, and a temporary file never has a name the loader reads |
| Checkpoint.BlobRoundTrip | src/hiveplane/checkpointing.py:187-192 | a typed blob survives encoding and decoding, its tag in the clear and its payload in base64 |
| Checkpoint.SlotsToJson | src/hiveplane/checkpointing.py:212-226 | the written entries determine every slot, with the task rebuilt from the key |
| Checkpoint.WritesToJson | src/hiveplane/checkpointing.py:212-226 | the same over all write keys |
| Checkpoint.BlobsToJson | src/hiveplane/checkpointing.py:229-241 | the written channel entries determine every blob lookup |
| Checkpoint.StorageRoundTrip | src/hiveplane/checkpointing.py:195-209 | a thread's checkpoints survive conversion to the document and back |
| Checkpoint.ThreadData | src/hiveplane/checkpointing.py:104-118 | the document holds only that thread and represents exactly its lookups |
| Checkpoint.MergeStorage | src/hiveplane/checkpointing.py:138-149 | a document replaces the threads it mentions and no others |
| Checkpoint.MergeWrites | src/hiveplane/checkpointing.py:151-163 | a document's writes are gathered per key and replace the keys they mention |
| Checkpoint.MergeBlobs | src/hiveplane/checkpointing.py:165-172 | the last entry of a blob key wins, other keys stay |
| Checkpoint.LastSlotIs | src/hiveplane/checkpointing.py:151-163 | of several entries for a slot the last one counts |
| Checkpoint.LastWriteIs | src/hiveplane/checkpointing.py:151-163 | of several groups for a key the last one that has the slot counts |
| Checkpoint.LastBlobIs | src/hiveplane/checkpointing.py:165-172 | of several entries for a channel version the last one counts |
| Checkpoint.LastDocumentDecides | src/hiveplane/checkpointing.py:131-172 | the last listed document that speaks of a thread, a write key or a blob decides what is loaded of it |
| Checkpoint.Merge | src/hiveplane/checkpointing.py:137-172 | merging any document replaces the threads, write keys and blobs it speaks of and nothing else |
| Checkpoint.MergeRestoresThread | src/hiveplane/checkpointing.py:137-172 | a thread's document merged into a memory without that thread represents it and touches no other thread |
| Checkpoint.Load | src/hiveplane/checkpointing.py:131-135 | on any directory and file order: fails exactly when a file cannot be read, and otherwise the last document that speaks of something decides; on a clean directory the result is what the directory stores |
| Checkpoint.CleanLoads | src/hiveplane/checkpointing.py:131-172 | when every file is one thread's own document, what a load finds does not depend on the order |
| Checkpoint.StoredMemoriesAgree | src/hiveplane/checkpointing.py:131-172 | any two memories stored by one directory give the same lookups |
| Checkpoint.OpTouchesOneThread | src/hiveplane/checkpointing.py:73-102 | an operation changes lookups of its own thread only |
| Checkpoint.OpKeepsTasksAgree | src/hiveplane/checkpointing.py:86-96 | every operation keeps the stored task equal to the task in the key, which saving relies on |
| Checkpoint.OpRespectsLookups | src/hiveplane/checkpointing.py:73-102 | operations on memories with equal lookups give equal lookups |
| Checkpoint.PutWritesLookup | src/hiveplane/checkpointing.py:86-96 | a lookup after pending writes: a regular slot has what it had or else the first write for its index, a special slot has the last one, every other slot and key is unchanged |
| Checkpoint.DeleteForgets | src/hiveplane/checkpointing.py:98-102 | after delete nothing of the thread is found |
| Checkpoint.TemporariesAreInvisible | src/hiveplane/checkpointing.py:120-129 | any content of a temporary file leaves what is stored unchanged |
| Checkpoint.FlushStores | src/hiveplane/checkpointing.py:120-129 | a whole flush makes the directory store the new memory |
| Checkpoint.CrashIsAtomic | src/hiveplane/checkpointing.py:98-129 | a crash between any two disk steps leaves the previous or the new memory stored, nothing else |
| Checkpoint.StepIsAtomic | src/hiveplane/checkpointing.py:73-129 | an operation, crashed or not, applies or falls back to the state before it |
| Checkpoint.RunIsAtomic | src/hiveplane/checkpointing.py:73-172 | after any run, the memory is the replay of the operations that took effect; only crashed ones can be missing |
| Checkpoint.RunIsDurable | src/hiveplane/checkpointing.py:55-172 | the same of every saver rebuilt from the directory, and it agrees with the one in memory |
| Checkpoint.OpenSaver | src/hiveplane/checkpointing.py:55-63 | opening on any directory and file order: fails exactly when a file cannot be read, and otherwise holds what the last document that speaks of it says; on the clean directory of an earlier saver it has that saver's lookups |
| Checkpoint.JsonFileCheckpointSaver.SaveThread | src/hiveplane/checkpointing.py:120-129 | performs the write-temporary-then-replace steps of the thread's document |
| Checkpoint.JsonFileCheckpointSaver.PutCheckpoint | src/hiveplane/checkpointing.py:73-84 | exactly the saved checkpoint and the given channel versions are found anew, and memory and directory stay consistent |
| Checkpoint.JsonFileCheckpointSaver.PutPendingWrites | src/hiveplane/checkpointing.py:86-96 | the pending writes are found as `PutWritesLookup` says, nothing else changes, and memory and directory stay consistent |
| Checkpoint.JsonFileCheckpointSaver.Delete | src/hiveplane/checkpointing.py:98-102 | no lookup finds anything of the thread, the other threads' lookups stay, and its file is gone |
| FrozenSections.ParseFrozenSections | field_test/agents/self_edit_agent/guardrails.py:64-125 | fails exactly on a malformed marker and names the first; otherwise sections are ordered, disjoint, in bounds, hold exactly their lines, are what a front-to-back scan freezes, and are what the markers decide: every named marker starts a section of its own name, and a line is in a section exactly as `OpenMeansInSection` says |
| FrozenSections.OpenMeansInSection | field_test/agents/self_edit_agent/guardrails.py:76-125 | after the last named marker and c anonymous ones, a line is in that name's section for c = 0, in none for c odd, in core for c even and positive; without a named marker it is in core exactly for c odd |
| FrozenSections.UnclosedRunsToEndIff | field_test/agents/self_edit_agent/guardrails.py:74-125 | the last section runs to the last line exactly when the fold ends open: an unclosed marker does not raise |
| FrozenSections.UnclosedExample | field_test/agents/self_edit_agent/guardrails.py:74-125 | a marker and a plain line, never closed, are well marked and frozen to the end |
| FrozenSections.FrozenLineIndexes | field_test/agents/self_edit_agent/guardrails.py:128-134 | an index is frozen exactly when the markers up to it put its line in a section |
| FrozenSections.ValidateNames | field_test/agents/self_edit_agent/guardrails.py:144-156 | true exactly when the non-empty requested names, in their order, are distinct and a subsequence of the names: greedy choice loses no match |
| FrozenSections.ValidateFrozenSections | field_test/agents/self_edit_agent/guardrails.py:137-156 | the same on the parsed sections of a prompt, and the error case |
| FrozenEdits.SameContentsIff | field_test/agents/self_edit_agent/guardrails.py:76-134 | two prompts freeze the same blocks exactly when their frozen lines agree, markers up to spelling |
| FrozenEdits.ReplaceByChunks | field_test/agents/self_edit_agent/gate.py:161-170 | an edit that touches no kept line and no newline beside one is the edit of each free stretch by itself |
| FrozenEdits.EditKeepsFreezeIff | field_test/agents/self_edit_agent/gate.py:161-187 | for every prompt and every such edit: what it writes is neither frozen nor malformed exactly when it writes plain lines only, and then the candidate parses to the same names and lines |
| EditDistance.DistanceIffEdits | field_test/agents/self_edit_agent/guardrails.py:159-186 | the reference distance is the least number of single-line insertions, deletions and substitutions |
| EditDistance.OpcodeCoversDistance | field_test/agents/self_edit_agent/guardrails.py:167-177 | each opcode's cost covers the distance of the two blocks it maps |
| EditDistance.KeptLinesSurvive | field_test/agents/self_edit_agent/guardrails.py:167-179 | lines outside changed opcodes survive unchanged and in order |
| EditDistance.ComputeEditDistance | field_test/agents/self_edit_agent/guardrails.py:159-186 | raises exactly on a malformed old prompt; for every tiling the counts are the inserted lines, the deleted lines and the longer sides of replacements, the total is at least the true distance, and the frozen count is the number of frozen lines in deletions and replacements |
| TextOps.ReplaceKeeps | field_test/agents/self_edit_agent/gate.py:161-187 | text that no occurrence touches is still there after replacing all occurrences |
| TextOps.ReplaceFirst | field_test/agents/self_edit_agent/gate.py:161-170 | replacing goes from occurrence to occurrence, leftmost first |
| TextOps.ReplaceSplits | field_test/agents/self_edit_agent/gate.py:161-170 | a newline that no occurrence touches separates the replacement before it from the one after it |
| TextOps.LinesStandInText | field_test/agents/self_edit_agent/guardrails.py:76-125 | consecutive lines, joined, stand in the text where the first of them starts |
| TextOps.SplitLinesCuts | field_test/agents/self_edit_agent/guardrails.py:76-81 | no line holds a newline, and the lines joined give the text up to a final newline |
| PromotionGate.CheckFrozenSections | field_test/agents/self_edit_agent/gate.py:124-199 | raises exactly on a malformed marker; passes exactly when every configured name is some section's, the edit applies and every non-empty block whose name is configured, or any block when none is, occurs in the proposed prompt; reports the number of missing names or of violations |
| FrozenEdits.FrozenBlockOccurs | field_test/agents/self_edit_agent/guardrails.py:76-125 | every block a text freezes, joined and not empty, occurs in that text |
| PromotionGate.UntouchedEditPasses | field_test/agents/self_edit_agent/gate.py:124-199 | when the configured names are present, an edit that applies and none of whose occurrences overlaps a compared block passes, although all occurrences are replaced |
| PromotionGate.KeptSectionsPass | field_test/agents/self_edit_agent/gate.py:124-199 | when the configured names are present, the check never refuses an edit that applies and keeps the sections: if the candidate, parsed again, has the same compared names and lines, it passes, wherever the edit falls |
| PromotionGate.RewrittenBlocksPass | field_test/agents/self_edit_agent/gate.py:170-199 | an edit whose new text holds every compared block passes, whatever frozen text it rewrites |
| PromotionGate.UnfreezingEditPasses | field_test/agents/self_edit_agent/gate.py:124-199 | deleting the marker line passes, and the candidate parses to no section at all, although the marker line was frozen |
| PromotionGate.ReparseKeepsSections | field_test/agents/self_edit_agent/gate.py:124-199 | an edit off the kept lines that writes plain lines leaves every compared section its name and lines when the candidate is parsed again, and passes |
| PromotionGate.CheckEditDistance | field_test/agents/self_edit_agent/gate.py:202-239 | raises exactly when an applicable edit meets a malformed prompt; passes exactly when the reported total is at most the threshold, and then the candidate is within that many single-line edits |
| PromotionGate.CheckAll | field_test/agents/self_edit_agent/gate.py:316-390 | blank prompts are refused; the fail-fast loop raises exactly when the first check that does not pass raises, promotes exactly when all pass, stops after the first failure, and near-miss is by the ratio over the checks that ran |
| PromotionGate.RunIndividualChecks | field_test/agents/self_edit_agent/gate.py:288-313 | the run-everything loop raises exactly when some check raises, at the first one, and otherwise returns every verdict |
| PromotionGate.FormsDifferIff | field_test/agents/self_edit_agent/gate.py:288-390 | for any checks: the fail-fast form alone decides exactly when no prompt is blank and a check raises after an earlier one failed; it alone raises exactly when a prompt is blank and no check raises; otherwise both raise, at the same check unless a prompt is blank, or both decide and promote the same candidates |
| PromotionGate.RunGateChecks | field_test/agents/self_edit_agent/gate.py:33-313 | on an edit, the prompts, an A/B result and the configuration: when each check passes, in its order, and that only the frozen-section and edit-distance checks raise, exactly on a malformed prompt |
| PromotionGate.GateFormsDifferIff | field_test/agents/self_edit_agent/gate.py:33-390 | on those inputs the fail-fast form alone decides exactly when no prompt is blank, the current one has a malformed marker and the sample floor, the effect size or the confidence fails; it alone raises exactly when a prompt is blank and no marker is malformed |
| PromotionGate.MalformedAfterFailedFloor | field_test/agents/self_edit_agent/gate.py:53-66 | a prompt that is one malformed marker, with no A/B result and a positive floor: the fail-fast form rejects after one check and the other raises at the fourth |
| TfidfDrift.CauchySchwarz | field_test/agents/self_edit_agent/guardrails.py:218-234 | the squared dot product is at most the product of the squared norms, over any term set |
| TfidfDrift.SquaredNorm | field_test/agents/self_edit_agent/guardrails.py:224-229 | the loop sums squares independently of the order of the terms |
| TfidfDrift.CosineSimilarity | field_test/agents/self_edit_agent/guardrails.py:218-234 | the loops over dictionaries compute the cosine over the union of terms, zero for a zero vector |
| TfidfDrift.CosineBounds | field_test/agents/self_edit_agent/guardrails.py:218-234 | for positive vectors the cosine is in [0, 1] and 0 exactly when no term is shared |
| TfidfDrift.CosineSelf | field_test/agents/self_edit_agent/guardrails.py:218-234 | a non-empty positive vector has similarity 1 with itself |
| TfidfDrift.CosineIsOneIff | field_test/agents/self_edit_agent/guardrails.py:218-234 | positive vectors have similarity 1 exactly when one is a multiple of the other, the equality case of Cauchy and Schwarz |
| TfidfDrift.CountDocuments | field_test/agents/self_edit_agent/guardrails.py:200-204 | document frequencies count documents, not occurrences |
| TfidfDrift.TfidfVectors | field_test/agents/self_edit_agent/guardrails.py:193-215 | every document's vector has exactly its terms, each with its count times one plus the log of n / (k + 1), k being the number of documents that hold it |
| TfidfDrift.IdfPositive | field_test/agents/self_edit_agent/guardrails.py:205-209 | with two or more documents every idf weight is positive |
| TfidfDrift.SharedTokenWeighsLess | field_test/agents/self_edit_agent/guardrails.py:205-215 | for an increasing log a token of both prompts weighs strictly less than an equally frequent token of one |
| TfidfDrift.ComputeDrift | field_test/agents/self_edit_agent/guardrails.py:237-245 | computes the drift measure the laws below are about |
| TfidfDrift.DriftBounds | field_test/agents/self_edit_agent/guardrails.py:237-245 | drift of any two prompts is in [0, 1] and symmetric |
| TfidfDrift.DriftIsOneIff | field_test/agents/self_edit_agent/guardrails.py:237-245 | drift is 1 exactly when the stripped texts differ and share no token |
| TfidfDrift.DriftIsZeroIff | field_test/agents/self_edit_agent/guardrails.py:237-245 | drift is 0 exactly when the stripped texts agree or both have tokens and their counts are in one proportion |
| TfidfDrift.DriftOfDistinctTokens | field_test/agents/self_edit_agent/guardrails.py:193-245 | the drift of prompts of distinct tokens in closed form, by the numbers of shared and unshared tokens and log(2/3) |
| TfidfDrift.DriftOfOneChange | field_test/agents/self_edit_agent/guardrails.py:193-245 | changing one of m + 1 distinct tokens drifts by 1 / (m (1 + log(2/3))² + 1) |
| TfidfDrift.ReorderingHasNoDrift | field_test/agents/self_edit_agent/guardrails.py:237-245 | prompts with the same non-empty bag of tokens have drift 0 |
| Wilson.WilsonMembership | field_test/agents/cauterule/stats.py:42-47 | x lies in the interval exactly when total (phat - x)² <= z² x (1 - x) |
| Wilson.WilsonContainsEstimate | field_test/agents/cauterule/stats.py:42-47 | the interval contains phat and stays in [0, 1] before clamping |
| Wilson.WilsonGrows | field_test/agents/cauterule/stats.py:42-47 | a larger z gives an interval that contains the smaller one |
| Wilson.WilsonMirrors | field_test/agents/cauterule/stats.py:42-47 | exchanging successes and failures mirrors the interval |
| Wilson.WilsonCiMeans | field_test/agents/cauterule/stats.py:18-47 | the error cases, the empty sample, and for all other inputs the clamped result is the solution set of the score test |
| Wilson.WilsonGrowsWithConfidence | field_test/agents/cauterule/stats.py:18-47 | a higher confidence gives an interval that contains the lower one |
| DriftAlert.Samuelson | field_test/agents/planner_critic/drift.py:140-149 | no value is further from the mean than the sample spread allows |
| DriftAlert.CheckDriftAlert | field_test/agents/planner_critic/drift.py:115-159 | too little history is reported; otherwise rates, mean, deviation, score, alert and reason code are those of all findings, the rate being the share with a drift delta other than zero, and the family is only passed through |
| DriftAlert.AlertNeedsLongWindow | field_test/agents/planner_critic/drift.py:131-149 | an alert over n days at threshold t implies t² n < (n - 1)² |
| DriftAlert.DefaultNeverAlertsWithinFiveDays | field_test/agents/planner_critic/drift.py:115-149 | at threshold 2.0 no history of five days or fewer alerts |
| DriftAlert.SpikeAlertsIff | field_test/agents/planner_critic/drift.py:131-149 | quiet days followed by one fully drifted day alert exactly when t² n < (n - 1)² |
| DriftAlert.AlertPossibleIff | field_test/agents/planner_critic/drift.py:131-149 | some history of n days alerts at threshold t exactly when t² n < (n - 1)² |
| DriftAlert.RateIsFamilyRateIff | field_test/agents/planner_critic/drift.py:120-138 | a day's rate is the asked family's own rate exactly when the family drifts in the same share of its findings, nothing drifting when it has none |
| DriftAlert.ScoresAgreeIff | field_test/agents/planner_critic/drift.py:140-149 | two rate lists have equal scores exactly when their last rates lie on the same side of the mean and their squared distances from it are in the ratio of the variances, a zero variance standing for a zero distance |
| DriftAlert.AlertIsFamilyAlertIff | field_test/agents/planner_critic/drift.py:120-149 | the alert is the family's own at every threshold exactly when the two rate lists stand in that relation; the rates themselves are the family's exactly when its share is the same on every day |
| DriftAlert.AnotherFamilyAlerts | field_test/agents/planner_critic/drift.py:120-149 | the code alerts for a family that never drifted when another family spikes, at every window and threshold that can alert at all |
| Redaction.SpliceFirst | field_test/agents/planner_critic/redaction.py:81-86 | splicing the first span into a text whose later spans are done does them all |
| Redaction.SpliceRightToLeft | field_test/agents/planner_critic/redaction.py:81-87 | the right-to-left loop equals left-to-right substitution for ordered disjoint spans: every gap is kept and every match gives way to its digest or placeholder |
| Redaction.TextWeaves | field_test/agents/planner_critic/redaction.py:81-87 | a text is its gaps and its matches in turn |
| Redaction.MatchesDoNotMatter | field_test/agents/planner_critic/redaction.py:81-87 | outside hash mode, texts whose matches stand between equal gaps give the same result, whatever the matches are |
| Redaction.SecretsDoNotMatter | field_test/agents/planner_critic/redaction.py:63-87 | the same for all patterns: texts that at some pattern's pass differ in that pattern's matches only are redacted to the same text |
| Redaction.WholeMatchBecomesPlaceholder | field_test/agents/planner_critic/redaction.py:73-86 | in redact mode a text matched as a whole becomes exactly the PII placeholder for email, phone and ssn and the secret placeholder for any other pattern |
| Redaction.ChangedTextIsMarked | field_test/agents/planner_critic/redaction.py:63-87 | outside hash mode a changed text carries a marker, whatever the patterns |
| Redaction.SecretsRedactor.constructor | field_test/agents/planner_critic/redaction.py:52-55 | the initial mode, patterns and audits |
| Redaction.SecretsRedactor.RedactString | field_test/agents/planner_critic/redaction.py:63-87 | one pass per pattern, each on the result of the one before it, keeps the gaps and replaces the matches; one audit per pattern that matched, in order, with its number of matches and the surface; skip mode does nothing |
| Redaction.SecretsRedactor.RedactDict | field_test/agents/planner_critic/redaction.py:96-116 | at every path: texts are redacted except below a list in a list, all other values, keys and lengths are kept; audits are appended in traversal order |
| Redaction.AuditIff | field_test/agents/planner_critic/redaction.py:96-116 | the audits of a dictionary are those of the texts the rewrite reaches, each under the surface of its path: keys joined by dots, and [i] after the key of a list |
| Redaction.SecretsRedactor.RedactOne | field_test/agents/planner_critic/redaction.py:99-115 | the rewrite of one field by its kind |
| Redaction.SecretsRedactor.RedactList | field_test/agents/planner_critic/redaction.py:105-113 | the rewrite of a list, item by item |
| Redaction.SecretsRedactor.RedactListItem | field_test/agents/planner_critic/redaction.py:105-113 | only texts and dictionaries inside a list are rewritten; nested lists are left alone |
| Redaction.CheckDict | field_test/agents/planner_critic/redaction.py:155-190 | the recursive check appends exactly the violations of the specification |
| Redaction.CheckSelf | field_test/agents/planner_critic/redaction.py:123-190 | an unchanged value is always accepted |
| Redaction.AcceptedIff | field_test/agents/planner_critic/redaction.py:123-190 | the check accepts exactly when, at every path both values have, flags and numbers are equal, no key is lost, and in strict mode changed texts show a placeholder |
| Redaction.ViolationIff | field_test/agents/planner_critic/redaction.py:123-190 | the check reports exactly the faults there are, each at its own path and of its own kind |
| Redaction.LostDictionaryAccepted | field_test/agents/planner_critic/redaction.py:131-174 | a dictionary replaced by anything else is accepted, whatever numbers it held |
| Redaction.FieldAccepted | field_test/agents/planner_critic/redaction.py:96-190 | a rewrite is accepted exactly when the check is not strict or every changed text shows a placeholder |
| Redaction.RewriteIsAccepted | field_test/agents/planner_critic/redaction.py:96-190 | every rewrite of a dictionary is accepted, in strict mode too outside hash mode |
| Redaction.HashMarksNothing | field_test/agents/planner_critic/redaction.py:81-84 | in hash mode, over any patterns, only a text that showed a placeholder before shows one afterwards |
| Redaction.QuietOrDigest | field_test/agents/planner_critic/redaction.py:63-87 | in hash mode either no pattern matches and the text stays as it is, or the digest of a match that was replaced stands in the result |
| Redaction.HashModeAcceptedIff | field_test/agents/planner_critic/redaction.py:81-190 | for texts that show no placeholder and do not hold the digest of one of their own replaced matches, hexadecimal keys included, the strict check accepts a hash-mode rewrite exactly when no pattern matches any of them |
| Redaction.HashModeAcceptedWithoutRuns | field_test/agents/planner_critic/redaction.py:81-190 | corollary that a caller can test without computing a digest: the same where no text has sixteen hexadecimal digits in a row |
| Redaction.HashModeRefused | field_test/agents/planner_critic/redaction.py:185-190 | such a text that some pattern matches is refused |
| Redaction.WholeMatchRefusedIff | field_test/agents/planner_critic/redaction.py:81-190 | a text without placeholder that a single pattern matches as a whole, such as a hexadecimal key, is refused exactly when it is not its own digest |
| Redaction.WholeMatchBecomesDigest | field_test/agents/planner_critic/redaction.py:81-84 | in hash mode a text matched as a whole becomes its digest |
| Redaction.HashModeRefusedExample | field_test/agents/planner_critic/redaction.py:185-190 | a configuration and a text that the strict check refuses, for every digest of sixteen hexadecimal digits |
| Redaction.ExtraItemsUnchecked | field_test/agents/planner_critic/redaction.py:171-174 | items past the end of the shorter list are never compared |
| RateLimiter.RecentIsSuffix | field_test/agents/mcplex/rate_limiter.py:44-48 | pruning a sorted bucket keeps a suffix, and everything dropped is out of the window |
| RateLimiter.WindowNeverOverfull | field_test/agents/mcplex/rate_limiter.py:44-59 | a spaced history has at most the limit in any half-open window, for every limit |
| RateLimiter.AdmitKeepsSpacing | field_test/agents/mcplex/rate_limiter.py:50-59 | admitting below the limit keeps admissions max places apart a full window apart |
| RateLimiter.WaitIsLeast | field_test/agents/mcplex/rate_limiter.py:50-56 | a refused call is admitted after the wait and not before it, if no other call is |
| RateLimiter.AdviceSufficesIff | field_test/agents/mcplex/rate_limiter.py:50-56 | the truncated advice is long enough exactly when the wait is at most one second or whole |
| RateLimiter.ShareKeyIff | field_test/agents/mcplex/rate_limiter.py:40-43 | two tools share a bucket key for some agents exactly when one of them is per agent, its name and a colon begin the other's name, and either more follows or the other is per agent too |
| RateLimiter.KeysNameToolsIff | field_test/agents/mcplex/rate_limiter.py:40-46 | every key belongs to one tool exactly when no two configured tools are of that kind |
| RateLimiter.Limiter.constructor | field_test/agents/mcplex/rate_limiter.py:22-24 | starts with the configured limits and no buckets |
| RateLimiter.Limiter.Check | field_test/agents/mcplex/rate_limiter.py:26-59 | verdict and new bucket of one call, for every limit: what is left inside the window decides, an admission is appended, a refusal advises the wait in whole seconds, cut off and at least one, an empty bucket at a limit of zero or less is an index error; unlimited tools are admitted and leave no trace |
| RateLimiter.FaultIff | field_test/agents/mcplex/rate_limiter.py:50-51 | a call raises an index error exactly when its limit is not positive and nothing in its bucket is recent |
| RateLimiter.NonPositiveLimitAlwaysFaults | field_test/agents/mcplex/rate_limiter.py:26-59 | over every run a tool with such a limit and its own keys raises on its every call |
| RateLimiter.CheckKeepsAgreement | field_test/agents/mcplex/rate_limiter.py:44-59 | deciding on the pruned bucket equals deciding on the whole history, and the two stay in agreement |
| RateLimiter.BucketsAgreeWithHistory | field_test/agents/mcplex/rate_limiter.py:26-59 | over every run with a monotone clock and separate tools, whatever their limits, each bucket agrees with its key's unpruned history |
| RateLimiter.VerdictIsReference | field_test/agents/mcplex/rate_limiter.py:26-59 | after any run the verdict is the one the whole history gives |
| RateLimiter.RunNeverOverfull | field_test/agents/mcplex/rate_limiter.py:26-59 | over every run no window of the configured length holds more admissions than the limit, none for a negative one |
| RateLimiter.RefusedWaitIsLeast | field_test/agents/mcplex/rate_limiter.py:50-56 | after any run the wait of a refusal is the least delay after which a retry succeeds |
| RateLimiter.FirstCallIsAdmitted | field_test/agents/mcplex/rate_limiter.py:26-59 | with separate tools, whatever other tools were called before, the first call of a tool is admitted exactly when its limit, if it has one, is positive |
| RateLimiter.SharedKeyRefusesFirstCall | field_test/agents/mcplex/rate_limiter.py:26-59 | tools that share a key spend each other's requests: the first call of one is refused after a call of the other |
| StateLock.InsertKeepsExclusive | field_test/agents/planner_critic/state.py:117-137 | inserting for a resource that is not busy keeps every active lock object the registered one |
| StateLock.ReleaseKeepsExclusive | field_test/agents/planner_critic/state.py:139-145 | releasing frees the resource and keeps the same invariant |
| StateLock.ClockKeepsExclusiveIff | field_test/agents/planner_critic/state.py:65-75 | at a clock reading, every active lock object is the registered one exactly when the reading is above the expiry of every superseded lock that was not released |
| StateLock.BackwardClockBreaksExclusion | field_test/agents/planner_critic/state.py:61-75 | a wall clock that steps back below that bound makes a superseded lock and its successor both active |
| StateLock.TickKeepsInvIff | field_test/agents/planner_critic/state.py:57-145 | a tick to any reading keeps the whole invariant exactly when the reading is above the expiry of superseded locks and of a lock about to be superseded |
| StateLock.ForwardClockIsOk | field_test/agents/planner_critic/state.py:57-75 | a clock that does not go back is always above the bound |
| StateLock.CallerStepKeepsInv | field_test/agents/planner_critic/state.py:91-145 | every step of every caller keeps mutex ownership, balance, exclusivity and the validity of a pending check |
| StateLock.NextKeepsInv | field_test/agents/planner_critic/state.py:57-145 | so do direct releases of lock objects and every tick above the bound |
| StateLock.RunIsSafe | field_test/agents/planner_critic/state.py:57-145 | in every state of every interleaving whose wall clock stays above the bound or never goes back: one active lock object per resource, one caller in the mutex, check and insert in one hold, the mutex given back as often as taken |
| StateLock.RunResultsOk | field_test/agents/planner_critic/state.py:91-137 | over every run: an acquired lock was issued to its caller, a conflict is answered under fail-fast only, a locked-by-other under the other two, and only waiting callers sleep |
| StateLock.AcquireDecides | field_test/agents/planner_critic/state.py:91-137 | a check inserts exactly when the resource is not held, else answers by the strategy; a wait ends the configured time after the first refusal |
| StateLock.BelieversAreExclusive | field_test/agents/planner_critic/state.py:91-145 | while beliefs are sound no two holders believe in the same resource |
| StateLock.ReleaseKeepsBeliefsIff | field_test/agents/planner_critic/state.py:139-145 | when it executes under the mutex, a release keeps every belief true exactly when nobody believes in the lock it hits |
| StateLock.ObjectReleaseKeepsBeliefsIff | field_test/agents/planner_critic/state.py:70-71 | releasing a lock object directly keeps beliefs true exactly when nobody believes in it |
| StateLock.TimelyReleaseHitsItsLock | field_test/agents/planner_critic/state.py:139-145 | a release that executes before its lock expires hits exactly that lock |
| StateLock.DisciplinedHoldersAreExclusive | field_test/agents/planner_critic/state.py:91-145 | over every interleaving in which release is called for own believed locks and executes before they expire, no two holders believe in one resource and every belief is true |
| StateLock.CarefulHoldersAreExclusive | field_test/agents/planner_critic/state.py:91-145 | the same from what a holder can check at the call: the lock has at least as long to live as a release ever waits for the mutex |
| StateLock.RaceBreaksExclusion | field_test/agents/planner_critic/state.py:139-145 | an interleaving in which the lock is believed at the call of release and two holders end up believing in one resource |
| StateLock.StateLocks.constructor | field_test/agents/planner_critic/state.py:79-89 | starts with no locks |
| StateLock.StateLocks.TryAcquire | field_test/agents/planner_critic/state.py:91-137 | one mutex hold: acquires exactly when the resource has no unreleased lock within its timeout, registers a new lock object and touches nothing else; changes nothing otherwise |
| StateLock.StateLocks.Release | field_test/agents/planner_critic/state.py:139-145 | removes the registered lock and marks it released; an unknown resource is ignored |
| StateLock.StateLocks.PreExecutionConflict | field_test/agents/planner_critic/state.py:156-163 | exactly the busy requested resources, in request order |
| Approval.ResolveThreshold | field_test/agents/planner_critic/approval.py:54-101 | which list a finding goes to, by severity, source and tolerance; satisfied exactly when no finding disqualifies; the lists keep order and together hold every graded finding exactly as often as it came |
| Approval.NothingIsLost | field_test/agents/planner_critic/approval.py:80-95 | the three classes partition the findings above information level |
| Approval.StrictIsStrictest | field_test/agents/planner_critic/approval.py:54-101 | meeting the strict threshold means meeting all, and the other two agree |
| Approval.MoreFindingsNeverHelp | field_test/agents/planner_critic/approval.py:54-101 | adding findings never turns a failure into a pass |
| Approval.ApproveFindings | field_test/agents/planner_critic/loop/_controller.py:391-496 | resolving and approving under one tolerance, as the loop does: a plan becomes executable exactly when the threshold is met, never with a deterministic blocker, and the record holds every graded finding |
| Approval.ApproveResolved | field_test/agents/planner_critic/approval.py:54-149 | resolving under one tolerance and approving with a gate of another: approved exactly when the resolving tolerance is met, never with a deterministic blocker |
| Approval.GateTrustsOutcomeIff | field_test/agents/planner_critic/approval.py:124-149 | whatever the findings, approval implies the gate's own threshold exactly when the outcome was resolved strictly or the gate is not strict |
| Escalation.GetLatest | field_test/agents/planner_critic/store/base.py:342-349 | the stored revision with the largest version, or none |
| Escalation.MergeFindings | field_test/agents/planner_critic/escalation.py:172-175 | one finding for every id there is, ordered by the ids' first appearance: the last gate finding of the id, or else the first critic finding |
| Escalation.MergesAgree | field_test/agents/planner_critic/escalation.py:172-175 | that description determines the merge |
| Escalation.MergeHoldsWinners | field_test/agents/planner_critic/escalation.py:172-175 | the merge holds exactly the winning finding of every id |
| Escalation.CleanIffMeets | field_test/agents/planner_critic/escalation.py:177-186 | for every critic output a patch is clean exactly when its findings meet each non-strict threshold |
| Escalation.RefusedForEveryCriticIff | field_test/agents/planner_critic/escalation.py:170-182 | no critic can save a patch exactly when a deterministic gate blocker is the last gate finding of its id |
| Escalation.GateBlockerRefuses | field_test/agents/planner_critic/escalation.py:170-182 | with distinct gate ids every deterministic gate blocker refuses the patch, whatever the critic says |
| Escalation.SharedIdHidesBlocker | field_test/agents/planner_critic/escalation.py:172-182 | two gate findings with one id can hide a blocker |
| Escalation.PatchRaisesVersionIff | field_test/agents/planner_critic/escalation.py:161-186 | an accepted patch raises the plan's version by one exactly when it carries the plan's id |
| Escalation.OwnPatchOverwritesNothing | field_test/agents/planner_critic/escalation.py:184-185 | such a patch overwrites no revision and moves no other plan |
| Escalation.PatchOverwritesIff | field_test/agents/planner_critic/escalation.py:161-185 | an accepted patch changes a stored revision exactly when its own id and version hold a different one, which needs an id other than the plan's |
| Escalation.ForeignPatchOverwrites | field_test/agents/planner_critic/escalation.py:161-186 | a patch with another id can replace a stored revision |
| Escalation.StepKeepsAuthorityIff | field_test/agents/planner_critic/escalation.py:52-138 | a step keeps every decision authorised exactly when it is refused or does not create an unauthorised decision |
| Escalation.CreateCanBringDecision | field_test/agents/planner_critic/escalation.py:66-77 | creating an escalation that is already approved bypasses the bound authority |
| Escalation.DecisionLostIff | field_test/agents/planner_critic/escalation.py:66-138 | a recorded decision disappears exactly when a different escalation is created for its plan |
| Escalation.OpenChangesIff | field_test/agents/planner_critic/escalation.py:66-138 | an open escalation changes exactly when an accepted resolve finds it; no create replaces it |
| Escalation.OpenWaitsForAuthority | field_test/agents/planner_critic/escalation.py:52-138 | over every run, whoever is not the bound authority can neither close nor replace an open escalation |
| Escalation.RunCountsPatches | field_test/agents/planner_critic/escalation.py:140-186 | over every run of patches under their own ids the version counts the accepted patches and no revision is lost |
| Escalation.RunKeepsStoreSound | field_test/agents/planner_critic/escalation.py:52-186 | over every run stored findings meet every non-strict threshold, keys match and decisions stay authorised |
| Escalation.EscalationManager.constructor | field_test/agents/planner_critic/escalation.py:47-50 | binds the store and the authority |
| Escalation.EscalationManager.PatchAndRecritique | field_test/agents/planner_critic/escalation.py:140-186 | each refusal and its exact condition, no store change on refusal; on acceptance the patch is found under its own id and version, the merged findings under the plan's, and all else is as it was |
| Escalation.EscalationManager.CreateEscalation | field_test/agents/planner_critic/escalation.py:52-77 | which of the three tests refuses, each with its exact condition and no store change; otherwise a lookup of the plan finds the new escalation, and plans, findings and other plans' escalations are unchanged |
| Escalation.FindEscalation | field_test/agents/planner_critic/store/base.py:352-355 | of all plans whose escalation bears the id, the one listed first, by string order of plan ids; none exactly when no plan bears it |
| Escalation.LeIff | field_test/agents/planner_critic/store/base.py:352-355 | the order of the listing: up to some place two ids agree, and there the first ends or has the smaller character |
| Escalation.EscalationManager.ResolveEscalation | field_test/agents/planner_critic/escalation.py:97-138 | each refusal and its exact condition, in order and without a store change; otherwise the first listed escalation with the id gets the decision, note, principal and time and nothing else changes |

## Left out

- Floating point: rounding, NaN and infinities; all statistics are over the reals.
- Text encodings: prompts break lines at newline only, thread ids are byte sequences, and the `str()` coercion of thread ids is not modelled. The base64 decoder is strict where Python's is lenient.
- Regular expressions, difflib's matching heuristic, tokenizing, stripping and JSON text: each is a parameter with a contract, or a value that is already parsed.
- `InMemorySaver` is not part of this repository; its updates of the three maps are modelled from how the saver reads them. Empty inner dictionaries are not distinguished from missing ones.
- File-system errors other than a crash, and file permissions. The operations of a reopened saver are modelled on directories that hold one document per thread; `Load` and `OpenSaver` take any.
- Task fields other than id, description, action, target and risk class, branches and parallel groups of a plan, and the ids and message texts of trace findings.
- The rate limiter's default window and count are taken as already filled in, and an empty limit entry as a missing one.
- The half-second sleep between polls and fairness: a waiting caller polls at any time before its deadline.
- EditKeepsFreezeIff: does not cover edits whose occurrences touch a kept line, because those can keep or change a section; `SameContentsIff` decides them on the candidate's own lines.
- HashModeAcceptedIff: does not cover texts that show a placeholder beforehand or hold the digest of one of their own replaced matches, because the rewrite can leave or reproduce those; `FieldAccepted` and `HashMarksNothing` hold for them too.
- HashModeAcceptedWithoutRuns: states `HashModeAcceptedIff` for fewer texts, because its condition needs no digest to test.
- `str()` of values other than texts is a parameter of the integrity check.
- The unsmoothed idf branch, the embedding drift, per-section drift and the oracle check of the guardrails.
- The promotion gate's audit log and message texts. Its drift and oracle verdicts are inputs of `RunGateChecks`; `CheckAll` takes any outcomes.
- `compute_drift`, `compute_drift_summary`, `rate_with_ci`, `StateView`, `active_locks` and `is_locked`: they would only add easy members.
- The CLI, configuration, telemetry, transport, registry, notifier, run budget, planning engine and documentation agent.
