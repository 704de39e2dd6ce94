# Encrypted memory runtime: a verified model

This project models the transactional memory runtime of `secminiagent/memory` and two sequence-rewriting algorithms, and
proves what they promise. Tables are maps from id to row; every immediate transaction is one atomic step. Where the program
changes rows, counters or sets step by step, the model is a method or a class over mutable fields, proved against
specification functions; what those functions promise is proved as lemmas and as invariants over whole runs.

`dafny verify dfyconfig.toml` checks everything.

| Part | Files |
|---|---|
| Tool-call protocol, online and offline | `Messages`, `Pairing` |
| The two group readers | `Groups`, `GroupLaws`, `GroupReaders`, `LogOrder` |
| Prompt context under budgets | `Budgets`, `Context`, `ContextLaws`, `FilterLaws`, `PromptOrder`, `PromptRecency`, `PromptLaws` |
| Threads, runs, messages | `Threads`, `ThreadLaws`, `StepLaws`, `ThreadStore` |
| Rolling summaries under compare-and-swap | `Summaries`, `SummaryLaws`, `SummaryProgress`, `SummaryCauses`, `SummaryStore` |
| Provenance growth | `Records`, `Provenance`, `ProvenanceLaws`, `NoteLaws`, `NotesStore` |
| Deletion: closure, cycle check, plan, recoverable job | `Closure`, `Cycles`, `DeletionPlan`, `DeletionJob`, `DeletionLaws`, `DeletionStore`, `GrownDeletion` |
| Migration of legacy sessions | `LegacyRuns`, `LegacyLaws`, `LegacyNumbers`, `Migration`, `MigrationLaws`, `MigrationOrder`, `MigrationReaders`, `MigrationResume`, `MigrationStore` |
| Patches and redaction | `Patch`, `Redactor` |
| Shared | `Basics`, `Sorting` |

## What the proofs found

- A tool message without a call id is refused by every append but accepted by the resume check. The two checks agree exactly
  on logs without one (`Pairing.OnlineIffProtocol`, `Pairing.BareToolMessageSplitsTheChecks`).
- A log that interleaves two runs can pass the resume check and still stop the assembler with an orphan. Threads that began at
  runtime never interleave runs; a migrated thread can, and it can be read exactly when no legacy result stands apart from its
  call (`GroupLaws.ReadableIffNoOrphans`, `MigrationReaders.LateAnswerResumesUnread`, `MigrationReaders.MigratedReadableIff`,
  `ThreadLaws.ReachableThreadsResume`).
- The provider filter works message by message. With call ids distinct over the log, the filtered log is readable exactly when no
  result is kept without its call. When runs reuse an id, the filter can pair one run's call with another's answer unnoticed. With any
  ids, no result is kept without its call exactly when the filtered log is readable and mixes no groups
  (`FilterLaws.FilteredReadableIff`, `FilterLaws.FilteringMispairs`, `FilterLaws.FilterMixesNothingIff`). Whatever the filter leaves,
  history is never quoted beside the summary that covers it (`PromptLaws.HistoryIsNotSummarizedTwice`).
- Completing a run drops its reason, so repeating a completion that gave one is a conflict (`ThreadLaws.RepeatedTransition`).
- A run begun with the id of an ended run is silently ignored by INSERT OR IGNORE while the counter moves, which leaves a gap in the
  run numbers; that is the only way to get one (`ThreadLaws.BeginCoversNumbers`).
- A tool call abandoned by an ended run stops the rolling summary of its thread for good: no later summary can cover it or
  anything after it. Nothing else does: any chunk without such a call at or before it can still be summarized
  (`SummaryLaws.AbandonedCallStopsSummaries`, `SummaryProgress.SummarizableIffNoneAbandoned`).
- A recorded conflict relates two notes in both directions, which makes every deletion that reaches them fail with a cycle error.
  Support relations apart, nothing else does in a reachable store, besides a missing or inactive root and the limits
  (`GrownDeletion.MutualRelationsBlockDeletion`, `GrownDeletion.ReachableDeletionsArePlanned`).
- A record of the deleted root that had been retracted before is skipped and keeps no deletion mark; all others get one
  (`DeletionLaws.ClosureIsRevoked`).
- The migration sorts a missing legacy number first when it infers runs and last when it numbers rows. The migrated thread
  passes resume's order checks exactly when the two orders agree inside every run, and the whole resume check exactly when the rows
  of every inferred run also keep the tool protocol (`MigrationOrder.MigratedResumesInOrder`, `MigrationResume.MigratedResumesIff`,
  `MigrationOrder.MissingNumberBreaksResume`).
- A patch with a hunk past the end of the file is applied but cannot be undone; every other patch with consistent new starts
  can (`Patch.UndoneIffInside`). A zero-context insertion after line n is applied before line n
  (`Patch.ZeroContextInsertionGoesBefore`).
- A redaction span that runs over the end of the text cuts into the markers after it; right-to-left and left-to-right rewriting agree
  exactly on orderly spans (`Redactor.OverrunCutsMarker`, `Redactor.RightToLeftStitchesIff`).

## Model

| member | source | states |
|---|---|---|
| Pairing.OnlineIffProtocol | secminiagent/memory/transcript_v2.py:270-313 | replaying a run log message by message through the append check accepts every step exactly when the log keeps the declarative tool protocol and no tool message lacks a call id |
| Pairing.OnlineStep | secminiagent/memory/transcript_v2.py:270-285 | on a log that keeps the protocol, the append check accepts a message exactly when the protocol lets it follow and it is no bare tool message |
| Pairing.BareToolMessageSplitsTheChecks | secminiagent/memory/transcript_v2.py:281-285 | a tool message without a call id keeps the resume check's protocol and is never accepted by the append check |
| Pairing.ValidatePairs | secminiagent/memory/transcript_v2.py:299-313 | the loop with its declared, consumed and pending sets accepts a run exactly when it keeps the declarative protocol |
| Pairing.ValidateSequenceAndPairs | secminiagent/memory/transcript_v2.py:287-313 | the resume check accepts exactly the logs whose numbers climb over the thread and inside each run and whose runs keep the protocol |
| Pairing.ProtocolSnoc | secminiagent/memory/transcript_v2.py:270-313 | one more message keeps the protocol exactly when the log did and the message's calls are new, and it answers a pending call or none is pending |
| GroupReaders.ParseGroups | secminiagent/memory/context_assembler.py:171-200 | the assembler's loop succeeds exactly when no result is an orphan, and then returns the complete groups and counts the dropped ones |
| GroupReaders.CompleteMessagesAfter | secminiagent/memory/summarizer.py:324-349 | the summarizer's loop selects the messages beyond the watermark up to the first incomplete group |
| GroupLaws.ReadableIffNoOrphans | secminiagent/memory/context_assembler.py:177-200 | a log can be read exactly when every result follows, after other results only, a message that declares its call, and no result in between answers the same call |
| GroupLaws.ParseCutsWell | secminiagent/memory/context_assembler.py:171-200 | cutting loses and repeats no message, and each chunk is a message that answers nothing followed by results it expects, complete exactly when nothing is open |
| GroupLaws.JoinThenCut | secminiagent/memory/context_assembler.py:171-200 | joining whole groups and cutting again gives back the same groups |
| GroupLaws.SelectedGroupsReadBack | secminiagent/memory/context_assembler.py:148-200 | any selection of kept groups, flattened, is read back as exactly that selection |
| GroupLaws.ReadersAgree | secminiagent/memory/summarizer.py:324-349 | wherever the assembler can read a log, the summary reader selects exactly what comes before the assembler's first incomplete group |
| GroupLaws.ValidatedLogReads | secminiagent/memory/context_assembler.py:171-200 | a validated log whose runs are contiguous is read without an orphan, and only the last group of a run can be incomplete |
| GroupLaws.InterleavedRunsBreakTheReaders | secminiagent/memory/context_assembler.py:179-180 | a log of two interleaved runs can pass the resume check and stop the assembler with an orphan |
| Budgets.GreedyIsMaximal | secminiagent/memory/context_assembler.py:148-169 | the selection stays within its budget, keeps the order, takes only eligible items, and no eligible item left out would still fit |
| Context.Fit | secminiagent/memory/context_assembler.py:148-169 | the fitting loop, newest first or oldest first, returns the greedy selection |
| ContextLaws.FittingKeepsOrder | secminiagent/memory/context_assembler.py:152-169 | what is fitted, also newest first, is a subsequence of the groups as given |
| Context.FitRecalls | secminiagent/memory/context_assembler.py:80-108 | the running counter equals the size of what was kept and stays within the category budget |
| Context.TrimRecalled | secminiagent/memory/context_assembler.py:115-127 | hits give way before notes and notes before the summary, each from the end, no more than needed, and the rest is within the total |
| Context.Assemble | secminiagent/memory/context_assembler.py:55-140 | for every valid configuration and input the prompt's measured size never exceeds the total budget, and a prompt is assembled exactly when the filtered log has no orphan result |
| Context.AssembledWithinBudget | secminiagent/memory/context_assembler.py:113-140 | whatever satisfies the assembler's choices renders to at most the total budget |
| Context.PromptSize | secminiagent/memory/context_assembler.py:135-139 | the measured length of a prompt is that of its summary, notes, hits and groups together |
| ContextLaws.HistoryIsMaximal | secminiagent/memory/context_assembler.py:148-169 | a history group below its ceiling that was left out would not fit beside what was kept |
| PromptRecency.NewestHistoryFirst | secminiagent/memory/context_assembler.py:131-169 | a history group that could be quoted and is not does not fit beside the history groups kept after it: it would exceed the history budget, or the total together with everything else in the prompt |
| PromptRecency.OldestOfCurrentRunFirst | secminiagent/memory/context_assembler.py:113-169 | a group of the current run that could be quoted and is not does not fit the run's budget beside those kept before it |
| PromptRecency.EarlierRecallsFirst | secminiagent/memory/context_assembler.py:80-108 | a note or hit that may enter and was left out does not fit beside those taken before it |
| PromptRecency.EveryPartWithinItsBudget | secminiagent/memory/context_assembler.py:71-140 | summary, notes, hits, current run and history each keep to their own budget, every group to its ceiling, and nothing inactive, secret, or confidential for a remote provider is among the summary, notes and hits |
| PromptRecency.SummaryGivesWayLast | secminiagent/memory/context_assembler.py:115-127 | a summary that may enter is dropped only when no note and no hit is left and it does not fit the total beside the current run |
| PromptRecency.PromptReads | secminiagent/memory/context_assembler.py:135-138 | a prompt reads the summary, the notes, the hits and then the messages of the chosen groups, each in its order |
| ContextLaws.EveryChunkCounts | secminiagent/memory/context_assembler.py:171-200 | every chunk of a log is either kept as a complete group or counted as omitted |
| ContextLaws.AllowedMembers | secminiagent/memory/context_assembler.py:62-69 | the filter lets exactly the messages through that are not secret, and confidential ones only for a local provider |
| ContextLaws.ChosenGroupsReadBack | secminiagent/memory/context_assembler.py:131-138 | the messages of an assembled prompt are read back as exactly the chosen groups: no tool group is split |
| PromptOrder.PromptKeepsLogOrder | secminiagent/memory/context_assembler.py:131-138 | when sequence numbers climb, the quoted messages are a subsequence of the filtered log |
| ContextLaws.SummaryReplacesHistory | secminiagent/memory/context_assembler.py:128-133 | when the summary survives and its watermark falls between groups, no history message it covers is quoted |
| ContextLaws.NothingBlockedEnters | secminiagent/memory/context_assembler.py:62-69 | every quoted message came from the log, is not secret, and is confidential only for a local provider |
| ContextLaws.FilteredCallOrphansItsResult | secminiagent/memory/context_assembler.py:62-69 | a confidential call and its answer, filtered for a remote provider, leave an orphan |
| FilterLaws.FilteringMixesNothing | secminiagent/memory/context_assembler.py:62-69 | when no result of a readable log is kept without the call it follows, the filtered log is readable and all messages of one of its groups come from one group of the log |
| FilterLaws.FilteredReadableIff | secminiagent/memory/context_assembler.py:62-69 | with call ids distinct over the log, the filtered log is readable if and only if no result is kept without its call |
| FilterLaws.FilterMixesNothingIff | secminiagent/memory/context_assembler.py:62-69 | for a readable log with climbing numbers and any call ids, no result is kept without its call if and only if the filtered log is readable and mixes no two groups |
| FilterLaws.FilteringMispairs | secminiagent/memory/context_assembler.py:62-69 | when two runs use the same call id, filtering can pair the call of one with the answer of the other, and the group reads as complete |
| FilterLaws.FilteringKeepsChunks | secminiagent/memory/context_assembler.py:62-69 | when each chunk is wholly visible or wholly hidden, the filtered log reads as exactly the visible chunks |
| PromptLaws.HistoryIsNotSummarizedTwice | secminiagent/memory/context_assembler.py:71-79 | in every interleaving of appenders and builders and for every provider, whatever its filter leaves of the log, no message quoted from history is among the sources of the surviving active summary |
| ThreadLaws.StepKeepsSound | secminiagent/memory/store_v2.py:194-243 | no step breaks the uniqueness of sequence numbers, run numbers and ids, the counters, or the single running run |
| ThreadLaws.FreshRowIsInserted | secminiagent/memory/store_v2.py:311-318 | with a fresh id and the allocated numbers, INSERT OR IGNORE never ignores |
| ThreadLaws.BeginCoversNumbers | secminiagent/memory/thread_run_store.py:110-137 | run numbers stay exactly 1 to next_run_no - 1 after begin_run if and only if the run id is new |
| ThreadLaws.StepKeepsLived | secminiagent/memory/transcript_v2.py:42-89 | every step keeps runs contiguous, paired, numbered without gaps and matched by their counters |
| StepLaws.AppendStores | secminiagent/memory/transcript_v2.py:42-89 | an accepted append adds to the log exactly the drafted message, role, calls, answer, class and size, under the old counters, and changes nothing but these counters and the progress of its run |
| StepLaws.AppendGoes | secminiagent/memory/transcript_v2.py:42-89 | in every thread that began at runtime an append is accepted exactly when the thread is active, the run is running, and the protocol lets the message follow the run's log with its call id named |
| StepLaws.RefusalSays | secminiagent/memory/transcript_v2.py:270-285 | what each refusal says about the calls declared and answered in the log |
| StepLaws.BeginStarts | secminiagent/memory/thread_run_store.py:110-137 | a run begins exactly in an active thread with none running; a new one has the next number, is running and has nothing counted yet |
| StepLaws.FinishEnds | secminiagent/memory/thread_run_store.py:149-187 | a running run ends exactly when a final message, if named, is a stored message of the run and no tool result; it keeps a reason only if it did not complete, and nothing else changes |
| ThreadLaws.ReachableThreadsResume | secminiagent/memory/transcript_v2.py:91-110 | every thread reachable from a new one passes the resume check, is read by both group readers with incomplete groups only at run tails, has runs 1, 2, 3 and at most one running, and each run's counters equal its message count, assistant count and first user message |
| ThreadLaws.TerminalRunsStayFrozen | secminiagent/memory/thread_run_store.py:149-187 | over any later steps an ended run's row and log never change |
| ThreadStore.ThreadRunStore.CreateThread | secminiagent/memory/thread_run_store.py:43-61 | creates a thread only where there was none, and keeps the lifecycle invariant |
| ThreadStore.ThreadRunStore.Append | secminiagent/memory/transcript_v2.py:42-89 | the append transaction changes exactly the addressed thread by the modelled step, or changes nothing and reports why; with a fresh message id every thread keeps the lifecycle invariant |
| ThreadStore.ThreadRunStore.BeginRun | secminiagent/memory/thread_run_store.py:110-137 | begins a run only in an active thread with none running, or changes nothing and reports why |
| ThreadStore.ThreadRunStore.TransitionRun | secminiagent/memory/thread_run_store.py:149-187 | ends a running run by the modelled step and keeps the lifecycle invariant, or changes nothing and reports why |
| ThreadLaws.RepeatedTransition | secminiagent/memory/thread_run_store.py:159-178 | the same transition again changes nothing, except that a completion with a reason cannot be repeated, since completing drops the reason |
| ThreadStore.ThreadRunStore.ArchiveThread | secminiagent/memory/thread_run_store.py:93-108 | archives a thread only when no run is running |
| ThreadStore.ThreadRunStore.RecordMessageProgress | secminiagent/memory/thread_run_store.py:208-229 | the first user message becomes the input and every assistant message counts as a turn |
| ThreadStore.ThreadRunStore.AllocateThreadSequence | secminiagent/memory/store_v2.py:194-217 | hands out the next number, moves the counter by one and bumps the version, only for an active thread |
| ThreadStore.ThreadRunStore.AllocateRunSequence | secminiagent/memory/store_v2.py:219-243 | hands out the run's next number and moves its counter by one, only for a running run |
| ThreadStore.ThreadRunStore.RecoverRunning | secminiagent/memory/thread_run_store.py:189-206 | interrupts exactly the running runs of one thread or of all, changes nothing else and keeps the lifecycle invariant |
| ThreadStore.RecoveryKeepsLived | secminiagent/memory/thread_run_store.py:189-206 | recovery keeps the invariant and every log and leaves no run running; exactly the running runs become interrupted, with the recovery as their reason |
| SummaryLaws.EveryInterleavingIsOk | secminiagent/memory/summarizer.py:114-232 | over every interleaving of steps and builders there is at most one active summary and it covers a prefix of whole groups |
| SummaryLaws.ActiveSummaryIsExact | secminiagent/memory/summarizer.py:182-232 | the active summary's sources are exactly the messages numbered up to its watermark, none skipped or repeated, and it is classified no lower than any of them |
| SummaryLaws.ActivationAdvances | secminiagent/memory/summarizer.py:182-232 | an activation that passes the compare-and-swap drafts from the thread as it is now and moves the watermark strictly forward |
| SummaryCauses.ActivateNeeds | secminiagent/memory/summarizer.py:182-232 | in every reachable system an activation goes through exactly when the thread is active and its version is the captured one: the summary and its sources are then as captured |
| SummaryCauses.ActivationCompares | secminiagent/memory/summarizer.py:194-210 | in any state, which of the three comparisons stops an activation and with which error |
| SummaryCauses.LoadNeeds | secminiagent/memory/summarizer.py:128-140 | while the thread has not moved, a load fails only for an archived thread or for nothing selectable |
| SummaryCauses.DraftFollows | secminiagent/memory/summarizer.py:144-170 | a draft follows the captured summary by one revision; its class is the highest of the selected messages, that summary and the evaluator, and is one of theirs |
| SummaryCauses.ActiveClassHasCause | secminiagent/memory/summarizer.py:144-170 | over every interleaving the active summary's class is that of a message it covers or one an evaluator gave |
| SummaryLaws.WatermarkGrows | secminiagent/memory/summarizer.py:182-232 | no step moves the watermark back and every activation moves it forward |
| SummaryLaws.WatermarkFallsBetweenGroups | secminiagent/memory/summarizer.py:324-349 | every group of the log is complete and entirely covered, or entirely beyond the watermark |
| SummaryLaws.AbandonedCallStopsSummaries | secminiagent/memory/summarizer.py:324-349 | after a run ends with an incomplete group, no later watermark ever reaches that group |
| SummaryProgress.UndisturbedBuildAdvances | secminiagent/memory/summarizer.py:114-232 | an undisturbed build of an active thread selects everything from the watermark to the first incomplete group and moves the watermark to its end, and does nothing only when that is empty |
| SummaryProgress.SummarizableIffNoneAbandoned | secminiagent/memory/summarizer.py:324-349 | some run of steps lets the active summary cover a chunk if and only if no incomplete chunk of an ended run stands at or before it |
| SummaryStore.RollingSummaryService.Load | secminiagent/memory/summarizer.py:114-140 | selects the complete groups beyond the captured watermark, or reports why not |
| SummaryStore.RollingSummaryService.Activate | secminiagent/memory/summarizer.py:182-232 | writes the new summary and supersedes the old one only if thread version, active summary and sources are as captured |
| Closure.ClosureIsLeast | secminiagent/memory/cascade_delete.py:201-232 | the closure is the least set that holds the direct records and is closed under live reverse relations |
| Closure.ExpandLevel | secminiagent/memory/cascade_delete.py:210-230 | one level adds exactly the sources of live relations into the frontier, records each relation and its edge, and fails only on a missing record |
| Closure.CollectClosure | secminiagent/memory/cascade_delete.py:201-232 | the search succeeds exactly when the limits hold and every derived record is present, and then returns exactly the closure, its derived part, its relations and its edges |
| Cycles.RankedIsAcyclic | secminiagent/memory/cascade_delete.py:233-246 | a graph whose edges always descend in rank has no cycle |
| Cycles.CycleCheck.VisitAll | secminiagent/memory/cascade_delete.py:233-246 | the recursive visit terminates and succeeds exactly when the graph has no cycle |
| DeletionPlan.MakePlan | secminiagent/memory/cascade_delete.py:174-279 | a plan succeeds exactly when the root is there and active, the limits hold, nothing is missing, there is no cycle and all provenance is in order; it then names exactly the closure, its relations, runs and promoted records |
| DeletionPlan.PlanNames | secminiagent/memory/cascade_delete.py:174-279 | a plan names as direct the live records of the root thread or run, as runs the live runs of that thread or that run alone, as promoted the derived workspace promotions, as relations the live ones into the closure |
| DeletionPlan.ProvenanceMeans | secminiagent/memory/long_term_memory.py:344-376 | provenance is in order exactly when a note or summary names each source once, its live relations lead to just these, and every source of a note is still there |
| DeletionStore.DeletionService.CreateJob | secminiagent/memory/cascade_delete.py:281-296 | writes an authorized job with one item and action for each closure record and touches no other table |
| DeletionStore.DeletionService.ApplyItems | secminiagent/memory/cascade_delete.py:305-317 | in any order of items, every record not yet gone is revoked once, and each retained one has one copy |
| DeletionStore.DeletionService.ApplySqlite | secminiagent/memory/cascade_delete.py:298-325 | moves an authorized job to index_pending with everything revoked, and does nothing to a later one |
| DeletionStore.DeletionService.SyncIndex | secminiagent/memory/cascade_delete.py:327-371 | one pass under any failures or a crash: the job completes without trouble or without an index, never moves back, and a complete job is left alone |
| DeletionStore.DeletionService.Resume | secminiagent/memory/cascade_delete.py:158-166 | with no other writer, a job once begun is never refused again, whatever crashed, and completes when nothing new goes wrong |
| DeletionStore.DeletionService.Execute | secminiagent/memory/cascade_delete.py:126-156 | begins a job exactly when the plan succeeds and all is confirmed, resumes an unfinished one, and leaves a complete one alone |
| DeletionLaws.EveryRunFollows | secminiagent/memory/cascade_delete.py:126-171 | over every run of calls, crashes and index failures the job only moves authorized, index_pending, complete, and the tables are those before until they are those of an uninterrupted deletion |
| DeletionLaws.OutcomeIsUnique | secminiagent/memory/cascade_delete.py:298-325 | however two deletions with the same retentions were interrupted, their tables agree on all but the indexing of copies |
| DeletionLaws.ClosureIsRevoked | secminiagent/memory/cascade_delete.py:305-317 | every closure record that was retracted before stays as it was; any other takes its new status and a new version, the root's own their deletion mark, a workspace record leaves the index, and nothing else of it changes |
| DeletionLaws.RootRecordsAreDeleted | secminiagent/memory/cascade_delete.py:305-317 | deletion marks go exactly to the records of the root thread or run that were neither deleted nor retracted before |
| DeletionLaws.ItemsTellOutcome | secminiagent/memory/cascade_delete.py:305-317 | the job's items are the closure, and each says what was to be done, whether it was done, and which copy was made |
| DeletionLaws.RelationsAreCut | secminiagent/memory/cascade_delete.py:318-322 | a relation stays live exactly when it was and touches no closure record |
| DeletionLaws.RootIsGone | secminiagent/memory/cascade_delete.py:450-464 | the root is deleted, with every run of a thread root; no run of another thread, no other run beside a run root and no other thread changes, and the root cannot be found again |
| DeletionLaws.OthersAreKept | secminiagent/memory/cascade_delete.py:298-325 | records outside the closure are unchanged and the only new records are copies of retained ones |
| DeletionLaws.RetentionIsCopied | secminiagent/memory/cascade_delete.py:415-442 | a retained record was a derived workspace promotion; it has one new copy of its own, workspace-wide, active, source-free, with the same content and class, exactly when it was not retracted before |
| DeletionLaws.OthersStayProven | secminiagent/memory/long_term_memory.py:344-376 | provenance that was in order outside the closure is in order after the deletion |
| DeletionLaws.CompleteMeansClean | secminiagent/memory/cascade_delete.py:336-371 | a complete job has no closure record left in the index and every indexable copy in it |
| DeletionLaws.IndexOfOthersIsKept | secminiagent/memory/cascade_delete.py:336-371 | the index gains only copies and loses only records of the closure |
| ProvenanceLaws.RelateAllLinks | secminiagent/memory/notes.py:105-106 | for a fresh record and distinct sources no relation row is ignored: exactly one is added for each source |
| ProvenanceLaws.EveryGrowthIsGrown | secminiagent/memory/notes.py:64-111 | over every run of record, note, proposal, conflict, confirm, retract, reject, promote and summary steps: every relation but a conflict leads from a younger to an older record, conflicts are recorded from both sides, payloads and relations list the same sources, no record ranks below a source, and a confirmed note and what it replaces are never both in use |
| ProvenanceLaws.ConflictKeeps | secminiagent/memory/candidate_extractor.py:56-70 | recording a conflict leaves a relation from each note to the other, adds nothing else, and keeps the grown-store invariants |
| ProvenanceLaws.ConfirmKeepsRevised | secminiagent/memory/long_term_memory.py:101-118 | confirming a note takes everything it replaces out of use |
| ProvenanceLaws.InheritsFrom | secminiagent/memory/notes.py:68-72 | the inherited classification is at least that of every source |
| NoteLaws.InheritedIsHighest | secminiagent/memory/notes.py:68-72 | the inherited class is the floor or that of a source, and at least each of them |
| NoteLaws.AddNoteStores | secminiagent/memory/notes.py:64-111 | a note is stored as an unconfirmed candidate with its content, sources and inherited class, one revision after the note it replaces; that note is rejected if it was a candidate and superseded otherwise, and no other record changes |
| NoteLaws.ProposalStores | secminiagent/memory/candidate_extractor.py:45-60 | a proposed revision is stored as a candidate and changes no other record |
| NoteLaws.PromotionStores | secminiagent/memory/long_term_memory.py:177-234 | a promotion keeps the content and class of its note, has it as only source, is active and confirmed in the broader scope, and is made once |
| NoteLaws.SummaryStores | secminiagent/memory/summarizer.py:211-232 | a summary is stored active with its sources, and the one before it is superseded |
| NoteLaws.ConfirmChanges | secminiagent/memory/long_term_memory.py:92-121 | confirming makes the note active and confirmed, supersedes the active and disputed notes it replaces by live relations, and changes no other record |
| NoteLaws.LeavingChanges | secminiagent/memory/long_term_memory.py:142-157 | retracting or rejecting changes the status of that one note, once, and nothing else |
| NoteLaws.AddNoteNeeds | secminiagent/memory/notes.py:45-72 | a note is accepted exactly when its sources are live, within the thread's reach and named once, and what it replaces is a note of the thread still in use |
| NoteLaws.ProposalsNeed | secminiagent/memory/candidate_extractor.py:45-70 | what a proposed revision, a conflict and a summary need: sources within reach and named once, an active note to revise, two different notes, and the one active summary as predecessor |
| NoteLaws.ChangesNeed | secminiagent/memory/long_term_memory.py:92-199 | the statuses, revisions and scopes in which a note may be confirmed, retracted, rejected and promoted |
| NotesStore.NotesService.AddCandidate | secminiagent/memory/notes.py:45-111 | stores the note with its relations and moves the replaced note on exactly when every guard holds, otherwise changes nothing |
| NotesStore.NotesService.ConfirmNote | secminiagent/memory/long_term_memory.py:92-121 | activates a candidate and supersedes what it replaces; confirming again changes nothing |
| NotesStore.NotesService.RetractNote | secminiagent/memory/long_term_memory.py:142-157 | retracts a candidate, active or disputed note of the expected revision; retracting again changes nothing |
| NotesStore.NotesService.PromoteNote | secminiagent/memory/long_term_memory.py:177-234 | promotes a confirmed note to a broader scope at most once |
| GrownDeletion.EveryNoteIsPromotedOnce | secminiagent/memory/long_term_memory.py:192-199 | over every run of steps a note has at most one promotion to each scope |
| GrownDeletion.GrownIsAcyclic | secminiagent/memory/cascade_delete.py:233-246 | in a grown store the relations a closure reaches have no cycle when it holds no record with a recorded conflict |
| GrownDeletion.ConflictIsCyclic | secminiagent/memory/candidate_extractor.py:56-70 | in a grown store a recorded conflict that the closure holds from either side makes the plan fail |
| GrownDeletion.ReachableDeletionsArePlanned | secminiagent/memory/cascade_delete.py:174-279 | in every store those steps reach, a plan succeeds if and only if the root is there and active, the limits hold and the closure holds no record with a recorded conflict |
| GrownDeletion.MutualRelationsBlockDeletion | secminiagent/memory/candidate_extractor.py:56-70 | two live relations in opposite directions that the closure reaches always make the plan fail |
| LegacyRuns.InferLegacyRuns | secminiagent/memory/migration_v1_v2.py:86-150 | the loop over mutable runs computes exactly the runs and places of the declarative blocks |
| LegacyRuns.OpenMeansUnanswered | secminiagent/memory/migration_v1_v2.py:109-134 | a run is open at an event exactly when its user event is followed by neither another user event nor an answer |
| LegacyLaws.EveryEventIsPlaced | secminiagent/memory/migration_v1_v2.py:120-130 | every event is assigned to a run, at the position it has there |
| LegacyLaws.NoEventTwice | secminiagent/memory/migration_v1_v2.py:120-130 | no event has two places |
| LegacyLaws.InferredRunIsOneBlock | secminiagent/memory/migration_v1_v2.py:109-148 | an inferred run is one contiguous block opened by its only user event, completed exactly when its last event is an assistant message without tool calls |
| LegacyLaws.StrayRunHoldsTheRest | secminiagent/memory/migration_v1_v2.py:115-124 | at most one unassigned run collects exactly the events for which no run was open |
| LegacyLaws.RunsAreNumbered | secminiagent/memory/migration_v1_v2.py:94-107 | runs are numbered 1 to n in order, none is empty and none is left running |
| LegacyNumbers.AssignNumbers | secminiagent/memory/migration.py:444-461 | the set-probing loop gives each row max(1, its number, previous + 1), or previous + 1 without a number |
| LegacyNumbers.NumbersClimb | secminiagent/memory/migration.py:444-461 | numbers strictly increase in sorted order |
| LegacyNumbers.LeastNumberAbove | secminiagent/memory/migration.py:444-461 | each row gets the least number that is positive, above the number before it, and not below its own |
| LegacyNumbers.GoodNumbersKept | secminiagent/memory/migration.py:455-461 | distinct positive legacy numbers are kept |
| MigrationLaws.NothingIsIgnored | secminiagent/memory/migration.py:515-561 | every legacy row becomes exactly one row with its numbers and no insertion is ignored |
| MigrationLaws.MigratedIsSound | secminiagent/memory/migration.py:470-561 | the migrated thread has unique thread, run and run-number sequences below their counters and no running run |
| MigrationLaws.MigratedRunIs | secminiagent/memory/migration.py:498-513 | each inferred run becomes a run row with its number, status, input and final message, its next number after its events, no turns, and a reason exactly when interrupted; there are no other runs |
| MigrationLaws.MigratedCounters | secminiagent/memory/migration.py:486-497 | the migrated thread is active, and its counters stand directly after its runs and its rows |
| MigrationLaws.NumbersFollow | secminiagent/memory/migration.py:444-461 | thread numbers follow the legacy numbers, a missing one last, then creation time, then id |
| MigrationLaws.EventsInOrder | secminiagent/memory/migration_v1_v2.py:86-87 | the inference reads events by legacy number, a missing one first, then by id |
| MigrationLaws.SecondPassChangesNothing | secminiagent/memory/migration.py:470-561 | copying again changes nothing |
| MigrationLaws.MigratedStaysSound | secminiagent/memory/store_v2.py:194-243 | whatever steps a session takes with a migrated thread keep it sound |
| MigrationOrder.MigratedResumesInOrder | secminiagent/memory/transcript_v2.py:288-298 | the migrated thread passes resume's order checks exactly when the two sort orders agree inside every run |
| MigrationOrder.DistinctNumbersAgree | secminiagent/memory/migration.py:447-454 | distinct legacy numbers on all events make the two orders agree |
| MigrationOrder.MissingNumberBreaksResume | secminiagent/memory/migration.py:436-455 | a user message without a number and its numbered answer give a thread that resume refuses |
| MigrationResume.MigratedResumesIff | secminiagent/memory/transcript_v2.py:287-313 | a migrated thread passes the whole resume check if and only if the two sort orders agree inside every run and the rows of each inferred run, in number order, keep the tool protocol |
| MigrationReaders.MigratedLog | secminiagent/memory/migration.py:515-561 | the migrated log is the legacy events in the order of their new numbers, each with its own role, calls, answer, class and size, at its place in its run |
| MigrationReaders.MigratedReadableIff | secminiagent/memory/context_assembler.py:177-200 | a migrated thread can be read exactly when, in number order, no legacy result stands apart from its call |
| MigrationReaders.LateAnswerResumesUnread | secminiagent/memory/migration_v1_v2.py:115-124 | a legacy call, a whole exchange and only then the call's answer migrate to a thread that resume accepts and the assembler cannot read |
| MigrationStore.ShadowStore.MigrateSession | secminiagent/memory/migration.py:470-561 | a first or a repeated pass leaves the migrated thread, sound, with as many rows as there were |
| MigrationStore.ShadowStore.CountMatches | secminiagent/memory/migration.py:330-332 | the count check of the verification always succeeds on a migrated session |
| Patch.ApplyHunks | secminiagent/tools/patch_tool.py:152-174 | succeeds exactly when hunks are ordered, do not overlap and their old lines stand at their starts; replaces exactly those blocks; a rejection names the first hunk and line that fails |
| Patch.RewriteBlock | secminiagent/tools/patch_tool.py:161-182 | one hunk is rewritten exactly when its old lines stand at its start, otherwise the offending line is named |
| Patch.SidesByLine | secminiagent/tools/patch_tool.py:161-172 | the old side of a hunk is its context and deleted lines and the new side its context and inserted lines, each line after as many of its side as come before it |
| Patch.UndoRestores | secminiagent/tools/patch_tool.py:152-174 | hunks whose lines start inside the file, with consistent new starts, are undone by the same hunks with signs and starts swapped |
| Patch.UndoneIffInside | secminiagent/tools/patch_tool.py:152-174 | with consistent new starts, the swapped patch restores the file exactly when every hunk that has lines starts inside it |
| Patch.PastEndCannotBeUndone | secminiagent/tools/patch_tool.py:156-159 | an insertion past the end is appended and its swapped patch is rejected |
| Patch.ZeroContextInsertionGoesBefore | secminiagent/tools/patch_tool.py:156-172 | an insertion of any lines after line n without context lands before line n, which is right only if every inserted line repeats it |
| Redactor.NonOverlappingSpans | secminiagent/memory/redactor.py:65-80 | accepted spans ascend and are disjoint, and every span left out shares a character with an accepted one that starts earlier, or starts with it and is longer, or has the same range and is at least as severe |
| Redactor.LongestIsKept | secminiagent/memory/redactor.py:65-80 | of the spans that start together only the longest can be kept, and the most severe of those with one range |
| Redactor.MarkerReads | secminiagent/memory/redactor.py:49 | a marker is the category in capitals between fixed brackets |
| Redactor.Rewrite | secminiagent/memory/redactor.py:48-54 | rewrites in place from the last span to the first and records each span in the original text, in order |
| Redactor.RightToLeftStitchesIff | secminiagent/memory/redactor.py:48-54 | right-to-left rewriting equals the left-to-right concatenation of gaps and markers if and only if no span but the last runs over the end of the text, or from the first that does all spans lie clear of the text and of later markers and the markers read the same in both orders |
| Redactor.OverrunCutsMarker | secminiagent/memory/redactor.py:50-52 | a span that runs over the end of the text, with any spans after it, cuts into their markers |
| Redactor.Redact | secminiagent/memory/redactor.py:44-55 | redacts exactly the chosen located spans, disjoint and maximal; names the categories of chosen signals without a span and is complete exactly when there are none |

## Left out

- Encryption, MACs, tokens and canonical encodings: authentication is taken to succeed and minted ids to be fresh and distinct.
- SQL, locking and connections: an immediate transaction is one atomic step and unique indexes are predicates.
- Time: expiry, retention and pinning; every record counts as not expired.
- Policy evaluation, classification of new text and text validation of notes: the evaluated classification is a parameter.
- The vector index is a set of ids; a failing delete or write leaves it as it was.
- Overlapping index passes of one deletion job, which could move a complete job back, and chains of several deletions.
- DeletionStore.DeletionService.Resume: and Execute promise their results while nothing else writes between planning and applying,
  which the program does in two connections (`cascade_delete.py:145-153`). A note added from a closure record in between is no item:
  its relation is tombstoned and it stays active without its source.
- Support relations are left out of the growth steps, since they can form cycles; the cycle check covers them.
- A revision proposal's three transactions (`candidate_extractor.py`) are one step; a confirmation between them is not modelled. A
  conflict is recorded by a step of its own after the note's.
- Omission reason codes of the assembler, except the count of incomplete groups.
- A promotion without a vector index, the index status of a promoted note after its promotion, and `retry_index` and `reconcile_index`.
- Legacy messages whose role is none of user, assistant and tool: run inference covers them, copying does not.
- Legacy rows marked deleted: the migrated log counts them as present.
- Session metadata and workspace rows of a migration, several sessions at once, the journal and activation; decoding legacy payloads.
- Ids of other threads: uniqueness is stated inside one thread.
- `parse_unified_patch` and text joining.
- The uncovered tail of a redaction span rejected for a partial overlap stays in the text.
- Detectors, search and ranking, retrieval, language model clients, command line, shell, git and file tools.
