# Verified model of the workbench core

This project models the storage, locking, approval, context-shaping and artifact code of a local agent workbench in
Dafny and proves what that code is for. One command checks everything: `dafny verify dfyconfig.toml`.

## What is modelled

* **Locking.dfy, FileLocks.dfy** — the re-entrant lock built from a per-path RLock, a thread-local hold count and an
  OS file lock. `Locking` is a step system: each constructor of `Step` is one indivisible action of `__enter__` or
  `__exit__`, and a run interleaves the actions of any number of processes and threads. `FileLocks` has the lock object
  itself, with its fields, its retry loops and its failure path; its methods carry out those actions one by one, and
  between any two of them the other threads may act.
* **Transactions.dfy** — reads, appends, rewrites, mutations and multi-operation transactions on one row log, as events
  over the lock system, and the operations themselves as a class.
* **FileIndex.dfy, IndexFiles.dfy, FileStore.dfy** — the JSON-lines file index at the level of text: splitting,
  joining, blank, repeated and malformed lines. The index refines an ordered map, and the life of a file record
  (active, soft deleted, purged, gone) is modelled over it.
* **Approval.dfy, ApprovalStore.dfy** — concurrent create, resolve, wait, listing sweep and cleanup within one process;
  every lock-protected block is one step, except where a waiter can look in between. The blocks are also methods on
  the request objects and the pending table, and what the store does is a run of the step system.
* **MessageCompaction.dfy, JsonCompaction.dfy, JsonText.dfy** — the fixpoint that keeps tool calls and results
  together, the two compaction strategies, and the redaction and truncation of JSON results down to the printed text,
  which determines the value.
* **ArtifactMetadata.dfy, ArtifactLinkage.dfy, ArtifactStore.dfy** — the two metadata indexes, the index-ordered
  listing, and save, tag, promote, soft delete and hard delete of artifacts that share files. The classes are stacked:
  an artifact store works on a metadata store and a file store, which works on the index text.
* **Governance.dfy, GovernanceReport.dfy** — the authority policy over evidence, stated without sorting, and the loops
  that compute it by sorting.
* **Listing.dfy** — which artifacts a listing shows.
* **History.dfy, PromptBudget.dfy, PromptNodes.dfy, TemplateConditionals.dfy** — merging persisted and in-memory
  history, choosing the newest messages that fit, fitting a prompt context into its budget (in place, on a copy), and
  resolving conditional blocks.
* **Sessions.dfy** — the session table, the lock table and the eviction.
* **MemoryGate.dfy, MemoryStore.dfy** — the write gate of the memory store.
* **ToolNames.dfy** — the encoding of tool ids as function names.
* **Seqs.dfy, Sorting.dfy, Text.dfy, Wrappers.dfy** — shared facts about sequences, stable sorting and Python's string
  methods, and the option type.

## Where the code does less than it seems to

Each of these is a theorem that says exactly when the code does what one would expect, next to an input or a run on
which it does not:

* `compact_file_index` documents `removed` as the difference of its two counts. It is, exactly when every non-blank
  line is the current version of an id (`FileIndex.RemovedIsDifferenceIff`, `FileIndex.OldVersionIsNotCounted`).
* `update_file_record` is an update of the map exactly when the updates do not rename the record; the theorem builds
  the log on which it is not (`FileIndex.UpdateRefinesExactly`).
* The outcome that `resolve` publishes is the decision exactly when the call found the request undecided or repeats its
  decision (`Approval.PublishedIsDecision`, `Approval.PublishedIsDecisionIff`, `Approval.ApprovedButDeniedInPublic`).
* The False of a `wait` is not the decision in exactly four cases: the request was not pending any more because it had
  been approved, it was created and approved only after the answer, its fields were read between the two writes of an
  approval, or the loop ran out after an approval (`Approval.FalseAnswerWrongIff`, with the runs
  `Approval.LateWaitIsRefused`, `Approval.EarlyWaitIsRefused`, `Approval.PollBetweenWritesIsRefused` and
  `Approval.ApprovedButDeniedInPublic`).
* `promote_artifact` keeps every live artifact linked to a file exactly when it does not revive an artifact whose file
  is gone (`ArtifactLinkage.PromoteKeepsLinkedIff`, `ArtifactLinkage.RevivalLosesTheFile`); a soft delete, a promotion
  and a purge keep the files of all live artifacts active exactly on the conditions of
  `ArtifactLinkage.SoftDeleteKeepsActiveIff`, `ArtifactLinkage.PromoteKeepsActiveIff` and
  `ArtifactLinkage.PurgeKeepsActiveIff` (`ArtifactLinkage.SharedSoftDeleteBreaks`,
  `ArtifactLinkage.RevivedFileIsInactive`, `ArtifactLinkage.PurgeInUseBreaks`).
* The authority policy is described as scoped by business purpose before recency. Which records compete for one
  authority is `Governance.SameKeyIff`, and across domains `Governance.DomainsCompeteIff`: two assets can share a key
  (`Governance.ShiftedColonsCompete`), and a record of another kind can bring along the key of an inspection
  (`Governance.WrittenKeyCompetes`).
* The same description reserves the current-state authority for explicit baseline captures. Among any records it is,
  exactly when every complete inspection that declares the current state without being an assurance task has been
  overtaken by a complete record of its key that does not (`Governance.OnlyCapturesGovernIff`,
  `Governance.ClaimTakesCurrentState`, `Governance.ClaimBreaksTheRule`).
* A truncated JSON object fits its budget exactly when its two marker fields do, which is from 40 characters and the
  digits of the original size on (`JsonCompaction.CutObjectFits`, `JsonCompaction.SmallBudgetOverflows`).
* A superseding core rule leaves one active record exactly when the conflict updated last is the active one, if one is
  active (`MemoryGate.SupersedeKeepsIff`, `MemoryGate.CarelessRunBreaks`); the other writes keep one active record
  exactly when redaction renames no memory key (`MemoryGate.PlacingKeepsIff`, `MemoryGate.RenamedKeyBreaks`).
* A day whose drafts are hidden behind a named report shows a named report exactly when one of them is not replaced by a
  later report of the same inspection task and format (`Listing.DayShowsNamedIff`, `Listing.HiddenBehindNothing`).
* A session that was made for no workspace is served to every workspace; as long as each call names a workspace, the
  session returned is its own (`Sessions.SessionManager.GetOrCreate`, `Sessions.AskTwice`).
* A tool id survives its encoding exactly when no `_` stands directly before `_` or `.` (`ToolNames.RoundTripIff`,
  `ToolNames.NamesCollide`).

## Model

| member | source | states |
|---|---|---|
| Locking.NextKeepsInv | storage/locking.py:33-130 | every single action of any thread, inside `__enter__`, `__exit__` or an unwinding failure, keeps RLock depths, hold counts, open blocks, lock files and flocks in step |
| Locking.RunsKeepInv | storage/locking.py:33-130 | the invariant over every interleaving |
| Locking.InsideOwnsFlock | storage/locking.py:49-58 | whoever is inside a block on a path owns the flock of that path through a lock file of its own |
| Locking.MutualExclusion | storage/locking.py:11-17 | over every interleaving of any number of processes and threads, at most one thread is inside the section of a path |
| Locking.FlockHeldExactlyAtSection | storage/locking.py:60-90 | the OS lock of a path is held exactly while some thread is at its section |
| Locking.CountersAgree | storage/locking.py:41-48 | between calls RLock depth, thread-local hold count and number of open blocks are one number |
| Locking.QuiescentIsClean | storage/locking.py:92-108 | once all blocks are left, all RLocks and OS locks are free and all lock files closed |
| Locking.AbortKeepsBlocks | storage/locking.py:54-58 | the actions of a failing enter touch neither open blocks nor hold counts |
| Locking.FailedEnterLeavesNoTrace | storage/locking.py:39-58 | an enter that times out or fails leaves blocks, hold counts, RLock depths and open lock files as they were, whatever others did meanwhile |
| FileLocks.Host.Act | storage/locking.py:33-130 | one action is appended to a history that is always an interleaving of the step system |
| FileLocks.Host.Others | storage/locking.py:79-90 | while a thread waits, only other threads act and its own position and blocks stay; with nothing scheduled nothing changes |
| FileLocks.FileLock.AcquireThreadLock | storage/locking.py:37-40 | the RLock is taken with retries; a timeout needs a state since the call in which another thread held the lock, and more waits than there are retries; a free lock that nobody else goes for, and one held by the thread itself, is taken |
| FileLocks.FileLock.AcquireProcessLock | storage/locking.py:60-90 | the retry loop ends with the flock granted unless the system refuses it or, in a state since the call, it was held; after more waits than there are retries; a free one that nobody else goes for is granted |
| FileLocks.FileLock.GiveBack | storage/locking.py:54-58 | the failure path closes the lock file and releases the RLock |
| FileLocks.FileLock.OpenAndLock | storage/locking.py:49-58 | the outermost enter opens, locks and starts counting at one, or gives everything back; it succeeds when the file can be opened, the system does not refuse and the path is free |
| FileLocks.FileLock.LockOpened | storage/locking.py:51-58 | once the file is open: the flock and a hold count of one, or everything given back; only if the flock is refused or was held in a state since the call |
| FileLocks.OwnIsFree | storage/locking.py:41-48 | a thread inside a path can always take its RLock again |
| FileLocks.FileLock.OpenBlock | storage/locking.py:41-58 | one level deeper in a path already entered, which cannot fail, or the outermost block; on failure the thread is as it was |
| FileLocks.FileLock.Enter | storage/locking.py:33-58 | with other threads acting between any two actions: on success the block is open, the hold count is one higher and nobody else is inside; on failure thread and object are as before, and if the file could be opened and the system did not refuse the lock, another thread held the RLock or the flock of the path in a state between call and return. So it succeeds when nobody else goes for a free path, and always on a path already entered |
| FileLocks.FileLock.Release | storage/locking.py:95-99 | the RLock goes back last and the object is as new |
| FileLocks.FileLock.PopAndClose | storage/locking.py:102-107 | the hold count goes before the descriptor is closed |
| FileLocks.FileLock.LeaveBlock | storage/locking.py:92-108 | the innermost block goes before the RLock |
| FileLocks.FileLock.Exit | storage/locking.py:92-108 | leaving the innermost block removes exactly it, for re-entrant and outermost blocks, even when the unlock is refused |
| FileLocks.ExitUndoesEnter | storage/locking.py:33-108 | leaving a block undoes entering it: open blocks and hold counts are the same as before |
| Transactions.NextKeepsSystemOk | storage/records.py:80-97 | every lock action, read and write of any thread keeps each write in a section its own thread opened, the log grouped by section and the file equal to its replay |
| Transactions.RunsKeepSystemOk | storage/records.py:80-97 | the same over every interleaving |
| Transactions.LockStepEntersAlone | storage/locking.py:11-17 | by mutual exclusion a lock action lets at most one thread in, and only into an empty section |
| Transactions.WriteAfter | storage/records.py:90-97 | a write is logged in the section its own thread opened, which is the latest |
| Transactions.GroupedIsSerial | storage/records.py:80-87 | a log grouped by sections is the sections one after the other |
| Transactions.Serializable | storage/records.py:80-97 | after every interleaving the file is the one obtained by running the sections one at a time in the order they were entered, and every write of a section is by the thread that entered it |
| Transactions.ReplayIsApplyAll | storage/records.py:330-339 | replaying the log is folding its writes over the initial file |
| Transactions.LogIsWrites | storage/records.py:90-107 | the log is exactly the writes of the interleaving, in order |
| Transactions.NoWriteIsLost | storage/records.py:90-107 | no append, rewrite or mutation is lost, and each mutator saw what its predecessors left |
| Transactions.ReadsAreConsistent | storage/records.py:110-126 | every read returns the rows, in file order, of what the sections before its own and the earlier writes of its own section left |
| Transactions.ReadSelects | storage/records.py:110-126 | a read is the increasing selection of all the object lines of the file |
| Transactions.StrictHolds | storage/records.py:310-327 | a strict read has one row for each line, the k-th row on the k-th line |
| Transactions.ReadOfRows | storage/records.py:310-327 | ... and rows that stand on the lines of a file are what is read of it |
| Transactions.MutationSeesRows | storage/records.py:188-198 | a mutator gets the rows as they stand on the lines, first line first |
| Transactions.WriteSelects | storage/records.py:330-339 | a rewrite writes the increasing selection of all the items that are not blank |
| Transactions.AppendAndRead | storage/records.py:90-126 | a read right after an append is the earlier read and the row at its end |
| Transactions.KeepAllAndRead | storage/records.py:188-198 | a mutator that keeps all rows leaves the file, and what is read of it, as it was |
| Transactions.RowLog.ReadUnlocked | storage/records.py:310-327 | the rows of the object lines at increasing places, none left out; malformed lines and non-objects are skipped or, when strict, fail the read, which else has the k-th line as its k-th row |
| Transactions.RowLog.WriteUnlocked | storage/records.py:330-339 | the file becomes exactly the kept rows |
| Transactions.RowLog.AppendRow | storage/records.py:90-97 | the file becomes the old file with one more row |
| Transactions.RowLog.MutateRows | storage/records.py:188-198 | the mutator is applied to the rows as they stand on the lines; a strict-read failure leaves the file as it was |
| FileIndex.SplitJoin | storage/index.py:383-414 | writing lines and reading them back gives the same lines and one empty line |
| FileIndex.ViewHoldsLastVersions | storage/index.py:138-146 | what is read holds exactly the last version of every id in the log |
| FileIndex.ViewOrderIsLastOccurrence | storage/index.py:138-146 | what is read is ordered by the last occurrence of each id |
| FileIndex.AppendRefines | storage/index.py:86-115 | at text level, appending moves the id to the end of the map with its new record |
| FileIndex.UpdateRefines | storage/index.py:149-180 | at text level, updating merges fields in place and keeps every other id |
| FileIndex.DeleteRefines | storage/index.py:183-207 | at text level, deleting removes every version of the id and nothing else |
| FileIndex.CompactRefines | storage/index.py:210-252 | at text level, compacting drops the retired records from the map and nothing else |
| FileIndex.UpdateRefinesExactly | storage/index.py:149-180 | merging refines the map for every log if and only if the updates do not rename the record |
| FileIndex.RecordedMeansViewed | storage/index.py:118-146 | an id is somewhere in the log exactly when the map holds it |
| FileIndex.EditRefines | storage/index.py:86-252 | one edit of the text, including one that finds nothing, is one edit of the map |
| FileIndex.IndexRefinesOrderedMap | storage/index.py:86-252 | through any run of edits from any readable text, what is read is the ordered map with the same edits |
| FileIndex.CompactIdempotent | storage/index.py:210-252 | compacting twice gives the same text as compacting once |
| FileIndex.ViewCountsCurrentLines | storage/index.py:118-146 | the map holds at most as many records as there are non-blank lines, and as many exactly when every such line is the current version of an id |
| FileIndex.RemovedIsDifferenceIff | storage/index.py:210-252 | `removed` is `before - after` exactly when every non-blank line is the current version of an id (the docstring claims it always) |
| FileIndex.OldVersionIsNotCounted | storage/index.py:210-252 | on a text with two versions of one record a compaction drops a line and reports none removed |
| IndexFiles.IndexFile.AppendFileRecord | storage/index.py:86-115 | the text and the map after an append |
| IndexFiles.IndexFile.ParseAll | storage/index.py:128-136 | blank and malformed lines are skipped; a JSON line that is not an object raises |
| IndexFiles.IndexFile.ReadFileRecords | storage/index.py:118-146 | the loops over the `seen` dict compute the map view |
| IndexFiles.IndexFile.UpdateFileRecord | storage/index.py:149-180 | the text and the map after an update; without a match, or with an unreadable line, the file stays |
| IndexFiles.IndexFile.DeleteFileRecord | storage/index.py:183-207 | the text and the map after a delete |
| IndexFiles.IndexFile.CompactFileIndex | storage/index.py:210-252 | the text, the map and the reported counts; duplicates are never counted because the records come deduplicated |
| IndexFiles.LastSeen | storage/index.py:138-142 | the dict of last positions |
| IndexFiles.KeepIsLast | storage/index.py:144-146 | a position is kept exactly when no later record supersedes its id |
| IndexFiles.KeepLatest | storage/index.py:138-146 | the kept positions give the map view |
| IndexFiles.RewriteUpdated | storage/index.py:161-176 | the rewriting loop of the update, malformed lines kept |
| IndexFiles.RewriteWithout | storage/index.py:190-206 | the filtering loop of the delete, malformed lines kept |
| IndexFiles.CountNonBlank | storage/index.py:224 | `before` counts the non-blank lines |
| IndexFiles.KeepLive | storage/index.py:226-240 | the loop of the compaction keeps the records that are not retired |
| Approval.NextKeepsInv | agent/approval.py:326-512 | every lock-protected block, and every write and look outside the lock, keeps decisions, calls, publications and answers in step |
| Approval.RunsKeepInv | agent/approval.py:326-512 | the invariant over every interleaving |
| Approval.EffectsOnlyGrow | agent/approval.py:343-351 | no decision is ever taken back |
| Approval.DecidedOnceForAll | agent/approval.py:343-351 | a request is decided at most once and its decision never changes |
| Approval.WaitTrueOnlyAfterApproval | agent/approval.py:456-505 | `wait` answers True only if an approval of that request in its own workspace took effect before |
| Approval.WaitSaysDecision | agent/approval.py:476-486 | over every interleaving: the answer of a wait that was woken, or that read both fields while no call was between its two writes, is the decision of its request |
| Approval.WaitAnswersDecision | agent/approval.py:476-486 | in every reachable state a wait whose event is set, and one that reads `allowed` while no call is between its two writes, answers the decision of its request |
| Approval.SystemOnlyDenies | agent/approval.py:373-405 | expiry, timeout and cleanup never approve |
| Approval.PublishedIsDecision | agent/approval.py:337-361 | over every interleaving: a publication of the system is the decision; the one of a `resolve` call is the decision if and only if the call was effective or repeats the decision |
| Approval.PublishedIsDecisionIff | agent/approval.py:337-361 | the same as a condition on the state in which the call begins: the request is undecided then, or was decided alike |
| Approval.FalseAnswerWrongIff | agent/approval.py:456-505 | over every interleaving: a False that `wait` answered differs from the final decision if and only if the id was not pending any more and approved before; or did not exist yet, and afterwards its request was created and then a `resolve(True)` on it took effect; or the fields were read between the two writes of an approving call; or the loop ran out after an approval. A woken wait is never wrong |
| Approval.UnknownIsApprovedLater | agent/approval.py:456-468 | where the two steps stand in the run that make the answer for an unknown id wrong: the creation after the answer, and the first approval after the creation |
| Approval.AllowedIsApproved | agent/approval.py:341-351 | along every run `allowed` reads true only of a request that an effective approving call decided |
| Approval.ApprovedButDeniedInPublic | agent/approval.py:343-361 | a reachable state that is approved, published as denied, and about to be answered False by a timeout |
| Approval.LateWaitIsRefused | agent/approval.py:464-468 | a reachable state in which a request was approved and popped before its wait began, which answered False |
| Approval.EarlyWaitIsRefused | agent/approval.py:464-468 | a reachable state in which a wait for an id answered False before the request of that id was created and approved |
| Approval.PollBetweenWritesIsRefused | agent/approval.py:470-473 | a reachable state in which a non-blocking wait read between the two writes of an approval and answered False |
| ApprovalStores.ApprovalRequest.Deny | agent/approval.py:491-497 | a denial by the system, with its resolver |
| ApprovalStores.ApprovalRequest.Sweep | agent/approval.py:384-407 | a stale request is denied; resolved and stale ones are dropped |
| ApprovalStores.ResolveTracks | agent/approval.py:337-351 | the first block of `resolve` is a run of the step system that decides the request exactly when it is pending in the workspace and undecided |
| ApprovalStores.TimeOutTracks | agent/approval.py:488-505 | the block of a timed-out wait is a step of the system |
| ApprovalStores.SweepAllTracks | agent/approval.py:379-411 | the sweep is a run of the system: each resolved request is dropped, each stale one denied and dropped, in any order, with one denial by the system for each request that is more than 120 seconds old |
| ApprovalStores.SweptInNumbers | agent/approval.py:384-407 | an undecided request whose time does not parse or is at most 120 seconds ago is left pending as it is; an older one is denied and dropped |
| ApprovalStores.ApprovalStore.Create | agent/approval.py:282-324 | a new undecided request, or the error for a missing workspace |
| ApprovalStores.ApprovalStore.ResolveBlock | agent/approval.py:337-351 | another workspace gets nothing; an undecided request is decided; a decided one stays; what the store has done is still a run of the step system |
| ApprovalStores.ApprovalStore.Forget | agent/approval.py:359-360 | the entry leaves the pending table, the request keeps its decision |
| ApprovalStores.ApprovalStore.Check | agent/approval.py:363-371 | None while pending or unknown, else the decision |
| ApprovalStores.ApprovalStore.FindBlock | agent/approval.py:464-468 | the first block of `wait` finds the pending request and is a step of the system |
| ApprovalStores.ApprovalStore.TimeOutBlock | agent/approval.py:488-505 | a timed-out wait denies an undecided request and leaves a decided one |
| ApprovalStores.ApprovalStore.SweepOne | agent/approval.py:384-421 | one turn of the sweep |
| ApprovalStores.ApprovalStore.SweepObjects | agent/approval.py:379-409 | the loop of the sweep on the objects |
| ApprovalStores.ApprovalStore.SweepStale | agent/approval.py:379-411 | after the sweep exactly the undecided, fresh requests are pending, and the sweep was a run of the step system |
| ApprovalStores.ApprovalStore.ExpireOld | agent/approval.py:379-411 | in numbers: exactly the undecided requests without a readable time or at most 120 seconds old stay pending, unchanged; every older one is denied, and its denial is in the run |
| ApprovalStores.ApprovalStore.GetPending | agent/approval.py:373-422 | in numbers: an undecided request stays pending, with the same value, exactly when its time does not parse or is at most 120 seconds ago, and every older one is denied by the system; the listing holds the pending requests that match both filters |
| MessageCompaction.AddCalls | agent/runtime/context_compactor.py:360-366 | the calls of one assistant message enter the map |
| MessageCompaction.BuildMaps | agent/runtime/context_compactor.py:358-369 | call ids to the last call and the last result |
| MessageCompaction.MapsHoldPairs | agent/runtime/context_compactor.py:371-387 | a set is closed under pairing exactly when no pair of the maps crosses its border |
| MessageCompaction.ClosureIsUnique | agent/runtime/context_compactor.py:344-387 | the closure does not depend on the order in which the map is visited |
| MessageCompaction.ProtectToolPairs | agent/runtime/context_compactor.py:344-387 | the fixpoint terminates with the least closed superset, through chains of pairs |
| MessageCompaction.ProtectedBase | agent/runtime/context_compactor.py:426-444 | system messages, the last user message and the recent messages |
| MessageCompaction.EvictOld | agent/runtime/context_compactor.py:474-482 | the loop of fast eviction and its count |
| MessageCompaction.Partition | agent/runtime/context_compactor.py:451-456 | kept and older messages, in order |
| MessageCompaction.CompactMessages | agent/runtime/context_compactor.py:390-502 | below the threshold nothing changes; else exactly the closure of the base survives verbatim |
| MessageCompaction.PairsStayTogether | agent/runtime/context_compactor.py:344-387 | with unique ids both sides of a call are kept verbatim or neither is |
| MessageCompaction.CarriersAreKept | agent/runtime/context_compactor.py:530-601 | whatever carries a call or a result in the output is a kept message |
| MessageCompaction.NoOrphans | agent/runtime/context_compactor.py:390-502 | an assistant message of the compacted history has a call exactly when a message of it has the result |
| MessageCompaction.ProtectedSurvive | agent/runtime/context_compactor.py:390-502 | what must be kept is there verbatim; fast eviction also keeps length and every role |
| MessageCompaction.PromisedSurvive | agent/runtime/context_compactor.py:426-444 | every system message, the last user message and the last `keep_recent` messages are there verbatim under both strategies |
| MessageCompaction.SummaryKeepsOrder | agent/runtime/context_compactor.py:485-502 | under a summary the kept messages follow it in their order, none left out |
| JsonCompaction.RedactMasks | agent/runtime/context_compactor.py:215-237 | after redaction nothing but the mask stands under a secret key, at any depth |
| JsonCompaction.RedactKeepsMasked | agent/runtime/context_compactor.py:215-237 | redacting what is masked changes nothing |
| JsonCompaction.RedactionIsComplete | agent/runtime/context_compactor.py:215-237 | a value is its own redaction if and only if it is masked at every depth; redaction is idempotent |
| JsonCompaction.RedactKeepsKeys | agent/runtime/context_compactor.py:215-237 | keys and their order stay; only values under secret keys become the mask |
| JsonCompaction.SecretWordsAreMasked | agent/runtime/context_compactor.py:225-249 | what stands under a secret key, or under a key with a secret word in it, is the mask, unless the key is one to keep or has `hostname` in it |
| JsonCompaction.OtherKeysAreKept | agent/runtime/context_compactor.py:225-249 | what stands under a key to keep, or under one without a secret word, is not masked but redacted inside |
| JsonText.PrintIsInjective | agent/runtime/context_compactor.py:257 | no two values print alike, whatever characters their strings hold, if their numbers print as JSON numbers do |
| JsonText.PrintUnique | agent/runtime/context_compactor.py:257 | no value prints as the beginning of another, but for what may follow a value |
| JsonText.EscapeUnique | agent/runtime/context_compactor.py:257 | no escape is the beginning of another |
| JsonCompaction.TruncateJson | agent/runtime/context_compactor.py:252-281 | the truncating loop computes the truncation |
| JsonCompaction.TruncationKeepsMask | agent/runtime/context_compactor.py:252-281 | cutting a redacted value leaves the mask or a piece of it under every secret key |
| JsonCompaction.CutKeepsStart | agent/runtime/context_compactor.py:260-266 | a string or list that is cut starts as it did, with as many characters as the budget or with five items |
| JsonCompaction.KeepsLongestPrefix | agent/runtime/context_compactor.py:270-281 | the kept fields are the longest in-order prefix of the visible ones that fits |
| JsonCompaction.CutObjectFits | agent/runtime/context_compactor.py:257-281 | a cut object prints within the budget if and only if the budget is at least 40 characters and the digits of the original size; else it holds only its two markers |
| JsonCompaction.MarkersSize | agent/runtime/context_compactor.py:266-269 | the two markers print as 40 characters and the digits of the size |
| JsonCompaction.SmallBudgetOverflows | agent/runtime/context_compactor.py:257-281 | an object of 10 characters that a budget of 5 turns into one of 42 |
| JsonCompaction.CompactToolResultContent | agent/runtime/context_compactor.py:153-189 | for a JSON object the printed result is within the budget or is the two markers |
| ArtifactMetadata.EditKeepsConsistent | storage/artifact_metadata_store.py:71-143 | create, update and remove keep ids unique, the count right and both id sets equal |
| ArtifactMetadata.RunsKeepConsistent | storage/artifact_metadata_store.py:71-143 | the same over every run; the index lists the ids in creation order |
| ArtifactMetadata.ReadAfterEdit | storage/artifact_metadata_store.py:71-128 | after an edit the edited id reads as written or as gone, every other id as before |
| ArtifactMetadata.KeysAreIds | artifacts/store.py:81-85 | the dict of latest rows has one key for each id that has a row |
| ArtifactMetadata.ProjectedIds | artifacts/store.py:88-97 | the projection lists exactly the ids that have a row, by their last row |
| ArtifactMetadata.ListsEveryRecordOnce | artifacts/store.py:79-97 | whatever the index has lost or kept too long, every id with a row is listed exactly once |
| ArtifactMetadata.ListingIsCreationOrder | artifacts/store.py:79-97 | along every run the listing is the current rows in creation order, although updates reorder the rows |
| ArtifactMetadata.ArtifactMetadataStore.UpsertArtifactRecord | storage/artifact_metadata_store.py:71-77 | rows and index after an upsert |
| ArtifactMetadata.ArtifactMetadataStore.RemoveArtifactRecord | storage/artifact_metadata_store.py:80-98 | rows and index after a removal; found exactly when a row had the id |
| ArtifactMetadata.ArtifactMetadataStore.RecordsInIndexOrder | artifacts/store.py:79-97 | the three loops compute the index-ordered projection |
| ArtifactMetadata.ArtifactMetadataStore.LoadIndex | artifacts/store.py:100-116 | the ids of the index, or those of the rows when it has none |
| ArtifactMetadata.ArtifactMetadataStore.ProjectLatest | artifacts/store.py:88-97 | ids without a row are passed over |
| ArtifactMetadata.KeepOthers | storage/artifact_metadata_store.py:123-127 | the rows of other ids, in order |
| ArtifactMetadata.FoundIffShorter | storage/artifact_metadata_store.py:84-87 | comparing lengths tells whether a row was found |
| FileStores.FileStore.GetFileRecord | storage/file_store.py:397-403 | the record of an id in the map view |
| FileStores.FileStore.CreateFileRecord | storage/file_store.py:97-151 | the new record is the last of the map |
| FileStores.FileStore.SoftDeleteFile | storage/file_store.py:419-432 | an unknown or purged file is refused, a soft deleted one stays, any other is marked |
| FileStores.FileStore.PurgeFile | storage/file_store.py:435-451 | marked purged when the payload could go; done exactly then or when it was purged already |
| FileStores.FileStore.DeleteFilePermanently | storage/file_store.py:454-465 | the record goes exactly when it exists and the payload could be unlinked |
| FileStores.CompactionKeepsIff | storage/index.py:226-240 | a compaction keeps exactly the records whose lifecycle is none of `soft_deleted`, `deleted` and `purged` |
| FileStores.CompactionDropsDeleted | storage/file_store.py:419-451 | a soft delete, and a purge whose payload is gone, mark what a compaction takes: followed by one, each removes its file from what a compaction would have left, and nothing else |
| FileStores.MarkedAreDropped | storage/index.py:226-240 | marking a file and compacting is compacting and removing it |
| FileStores.ViewedIsFound | storage/index.py:149-207 | a record that is read is also found by an update or a delete of the text |
| ArtifactLinkage.StepKeepsConsistent | artifacts/store.py:336-641 | every artifact operation edits the metadata in one of the allowed ways |
| ArtifactLinkage.StepKeepsLinked | artifacts/store.py:336-641 | every operation that revives nothing keeps a file record for each artifact that is not deleted |
| ArtifactLinkage.HardDeleteKeepsLinked | artifacts/store.py:543-583 | a hard delete never takes a file that another artifact still needs |
| ArtifactLinkage.OthersReadTheSame | artifacts/store.py:336-641 | an operation changes no artifact but its own |
| ArtifactLinkage.SavedReads | artifacts/store.py:338-402 | what a saved artifact reads as, over which file, and that content with a secret leaves the recorded files alone |
| ArtifactLinkage.OwnReadsRewritten | artifacts/store.py:531-641 | what its own artifact reads as afterwards |
| ArtifactLinkage.RunsKeepLinked | artifacts/store.py:336-641 | the linkage over every run without a revival |
| ArtifactLinkage.LiveArtifactsHaveFiles | artifacts/store.py:336-591 | from an empty workspace, every artifact that is not deleted and names a file has its record |
| ArtifactLinkage.SharedInRows | artifacts/store.py:549-555 | sharing as the code sees it in the index order is sharing among the rows |
| ArtifactLinkage.HardDeleteIsExact | artifacts/store.py:548-583 | of the files a hard delete drops exactly its own, exactly when it can be unlinked and nobody who is not deleted shares it |
| ArtifactLinkage.PromoteKeepsLinkedIff | artifacts/store.py:624-641 | promoting keeps the linkage if and only if the artifact is not deleted, names no file, or its file is still recorded |
| ArtifactLinkage.SoftDeletedIsInactive | storage/file_store.py:419-432 | soft deleting a file makes it, and no other, inactive |
| ArtifactLinkage.SoftDeleteKeepsActiveIff | artifacts/store.py:583-588 | soft deleting keeps the files of all other artifacts active if and only if nobody shares the file |
| ArtifactLinkage.RevivalLosesTheFile | artifacts/store.py:336-641 | a run from the empty workspace, for any two artifacts and any file: both saved over the file, one soft deleted and one hard deleted, and promoting the first leaves it without a file record |
| ArtifactLinkage.TwoSavesShare | artifacts/store.py:336-406 | a run of two saves from the empty workspace leaves two artifacts of one file |
| ArtifactLinkage.SharedSoftDeleteBreaks | artifacts/store.py:583-588 | after such a run soft deleting one of the two leaves the other without an active file |
| ArtifactLinkage.PurgeInUseBreaks | storage/file_store.py:435-451 | after a run of one save, purging the file leaves the artifact without an active one |
| ArtifactLinkage.RevivedFileIsInactive | artifacts/store.py:543-641 | and so does promoting the artifact after soft deleting it |
| ArtifactLinkage.PromoteKeepsActiveIff | artifacts/store.py:624-641 | promoting keeps an active file for each artifact that is not deleted if and only if the artifact is not deleted, names no file, or its file is active still |
| ArtifactLinkage.PurgeKeepsActiveIff | storage/file_store.py:435-451 | so does a purge if and only if the payload cannot be removed or no artifact that is not deleted has the file |
| ArtifactLinkage.StepKeepsActiveIff | artifacts/store.py:336-641 | every operation keeps an active file for each artifact that is not deleted if and only if it is gentle: these conditions for promoting and purging, nobody sharing the file for a soft delete, and none for the others |
| ArtifactLinkage.ActiveThroughoutIff | artifacts/store.py:336-641 | a run keeps them active all along if and only if all its steps are gentle |
| ArtifactLinkage.LiveArtifactsHaveActiveFiles | artifacts/store.py:336-641 | from an empty workspace, over every run of gentle steps, every artifact that is not deleted and names a file has an active one |
| ArtifactStores.ArtifactStore.GetArtifact | artifacts/store.py:416-426 | the last row of the id, read backwards |
| ArtifactStores.ArtifactStore.AdoptFile | artifacts/store.py:338-380 | an active file of the caller is reused unless the content held a secret; else a new one is recorded |
| ArtifactStores.ArtifactStore.SaveArtifact | artifacts/store.py:336-406 | metadata and files after a save; the saved artifact has its file record |
| ArtifactStores.ArtifactStore.UpdateArtifactTags | artifacts/store.py:531-540 | metadata after a tag update |
| ArtifactStores.ArtifactStore.PromoteArtifact | artifacts/store.py:624-641 | metadata after a promotion, or nothing changed |
| ArtifactStores.ArtifactStore.DropUnsharedFile | artifacts/store.py:548-562 | the file goes only when nobody shares it |
| ArtifactStores.ArtifactStore.DeleteArtifact | artifacts/store.py:543-591 | metadata and files after a hard or a soft delete |
| ArtifactStores.IsShared | artifacts/store.py:550-555 | the `any` over the listed records |
| Governance.SameKeyIff | artifacts/governance.py:40-55 | two records that are not contextual have the same key if and only if both are inspections of one domain whose asset and profile are the same or differ by a shifted colon, or one brings along the key of the other, or both the same |
| Governance.SamePairIff | artifacts/governance.py:53 | when asset and profile read the same with a colon between them |
| Text.StripParts | artifacts/governance.py:58 | stripping takes white space from both ends and leaves none there |
| Governance.DomainsCompeteIff | artifacts/governance.py:25-55 | records of different domains have the same key if and only if one that is no inspection of an asset brings along the key of the other |
| Governance.ShiftedColonsCompete | artifacts/governance.py:53 | asset `a:b` with profile `c` loses its authority to a later inspection of asset `a` with profile `b:c` |
| Governance.WrittenKeyCompetes | artifacts/governance.py:54-55 | an inspection loses its authority to a later record of another kind, and of another domain, that brings along its key |
| Governance.OnlyCapturesGovernIff | artifacts/governance.py:3-7 | over any records with unique ids: whatever has the current-state authority is a baseline capture, if and only if every complete claim (an inspection without an assurance kind that declares the current state) has a later complete record of its key that is neither contextual nor a claim |
| Governance.ClaimTakesCurrentState | artifacts/governance.py:25-37 | a baseline capture loses the current-state authority to a later claim of the same asset and profile |
| Governance.ClaimBreaksTheRule | artifacts/governance.py:3-7 | the rule does not hold of these two records |
| Governance.SomeSelected | artifacts/governance.py:87-91 | every key outside the contextual domain has a chosen record, complete exactly when the key has a complete one |
| Governance.OneSelected | artifacts/governance.py:87-91 | ... and only one |
| Governance.OneAuthorityPerKey | artifacts/governance.py:87-102 | exactly one record of a key is authoritative or provisional: authoritative iff the key has a complete record, and then the latest complete one |
| Governance.OrderDoesNotMatter | artifacts/governance.py:63-131 | status, rank and count do not depend on the order of the records |
| Governance.ContextualIsIndependent | artifacts/governance.py:68-85 | a contextual record changes nobody else |
| Governance.IncompleteDoesNotDemote | artifacts/governance.py:94-102 | a record that is not complete demotes nobody while its key has a complete one |
| Governance.LessIff | artifacts/governance.py:88-89 | the order of creation times and ids is that of Python strings: a proper beginning comes first, else the smaller character where two first differ |
| GovernanceReport.CollectStreams | artifacts/governance.py:64-86 | the first loop groups the records by key and projects the contextual ones |
| GovernanceReport.StrictlySorted | artifacts/governance.py:88-89 | with unique ids the sorted stream is strictly increasing by creation time and id |
| GovernanceReport.PlaceIsVersion | artifacts/governance.py:93-94 | the place in the sorted stream is one more than the number of earlier peers |
| GovernanceReport.ChooseSelected | artifacts/governance.py:89-91 | the last complete place or, without one, the last place |
| GovernanceReport.ChosenIsSelected | artifacts/governance.py:89-91 | that place holds the record the policy selects |
| GovernanceReport.LastIsLatest | artifacts/governance.py:92 | the last place holds the latest record |
| GovernanceReport.EntryReports | artifacts/governance.py:94-130 | the entry written in the loop says what the policy decides |
| GovernanceReport.ProjectStream | artifacts/governance.py:87-130 | one stream is written and nothing else is touched |
| GovernanceReport.BuildGovernance | artifacts/governance.py:63-131 | every record with a key is reported under its id as the policy decides, and nothing else is; and as the records themselves say: authoritative or historical exactly when the stripped `evidence_quality` is `complete`, and authoritative when no later rival says so too; else provisional when no rival is complete or later, or incomplete |
| GovernanceReport.ReportIsAsSaid | artifacts/governance.py:58-130 | the quality and the status of a competing record, over the stripped `evidence_quality` of the records |
| GovernanceReport.SelectedAsSaid | artifacts/governance.py:87-91 | the policy selects a record exactly when no rival is complete and later or, if it is not complete itself, complete or later |
| GovernanceReport.RecordIsReported | artifacts/governance.py:63-131 | each record with a key is in the result with that quality and status |
| GovernanceReport.ProjectionIsOrderFree | artifacts/governance.py:63-131 | two projections of the same records in any order are the same map |
| GovernanceReport.SummarySnoc | artifacts/governance.py:134-155 | one more record is counted in one place |
| GovernanceReport.TotalIsAll | artifacts/governance.py:134-155 | the counts add up to the number of records |
| GovernanceReport.LabelsAgree | artifacts/governance.py:137-155 | what the projection shows for a record is what the policy decides for it |
| GovernanceReport.CountsAsSaid | artifacts/governance.py:134-155 | each count is the number of records with that status, as the records themselves say |
| GovernanceReport.GovernanceSummary | artifacts/governance.py:134-155 | the five status counts and the deliverables count the records by what they say, and add up to their number |
| Listing.ListedPlaces | artifacts/store.py:249-274 | the listing is an in-order subsequence: exactly the last record of every display key |
| Listing.KeyIsListed | artifacts/store.py:249-274 | every record with a key is listed or replaced by a later listed one with its key |
| Listing.OtherKindsAreListed | artifacts/store.py:231-232 | whatever is not a report is listed |
| Listing.TitledIsListedIff | artifacts/store.py:240-246 | a report with a title of its own and of no inspection task is listed if and only if no later one has its title and its day |
| Listing.DraftIsListedIff | artifacts/store.py:240-245 | a report without a title of its own and of no inspection task is listed if and only if no titled report is of its day and no later such draft is |
| Listing.TitlesAreListed | artifacts/store.py:240-246 | reports of different titles are listed side by side, each by the last one of its title and day |
| Listing.FormatsAreListed | artifacts/store.py:235-238 | the report of an inspection task is listed in each of its formats |
| Listing.ListedKeysDiffer | artifacts/store.py:264-274 | no two listed records have the same key |
| Listing.DedupeIdempotent | artifacts/store.py:249-274 | listing a listing changes nothing |
| Listing.DayShowsNamedIff | artifacts/store.py:235-274 | a day with named reports, which hide its drafts, shows one if and only if one of them is not replaced by a later report of the same inspection task and format |
| Listing.HiddenBehindNothing | artifacts/store.py:235-246 | a day whose only named report was replaced by one of another day shows no named report, and its draft stays hidden |
| Listing.NoteKeys | artifacts/store.py:255-262 | the first loop records the last place of every key and the key of every id |
| Listing.LatestIsLast | artifacts/store.py:271 | the identity test holds exactly for the last record of a key |
| Listing.DedupeArtifactsForListing | artifacts/store.py:249-274 | the two loops compute the listing |
| History.CollectMessages | agent/runtime/ssot_runtime.py:1066-1077 | the loop keeps the first usable message of every key, in order |
| History.OnePerKey | agent/runtime/ssot_runtime.py:1073-1077 | one message is kept for every key |
| History.CollectedSpeak | agent/runtime/ssot_runtime.py:1069-1072 | only non-empty messages of users and assistants are kept |
| History.DistinctAreKept | agent/runtime/ssot_runtime.py:1066-1077 | messages with message ids of their own are all kept, in order, each with its own role and its stripped content |
| History.HistoryOverlap | agent/runtime/ssot_runtime.py:1024-1035 | the largest k for which the last k persisted messages are the first k in memory |
| History.MergeContinues | agent/runtime/ssot_runtime.py:1020-1021 | the merged history starts with what was persisted and ends with what is in memory |
| History.MergeIsShortest | agent/runtime/ssot_runtime.py:1020-1035 | it is the only shortest history that does |
| History.LoadContextMessages | agent/runtime/ssot_runtime.py:996-1021 | collecting and merging both histories |
| History.FormatRecentHistory | agent/runtime/ssot_runtime.py:1038-1063 | the lines are those of the newest messages, in order, within the budget, and as many as fit |
| History.ShownInOrder | agent/runtime/ssot_runtime.py:1038-1063 | each line names the role and the truncated content of its message, in the order of the messages |
| PromptBudget.BoundIdempotent | prompts/renderer.py:220-229 | cutting strings twice with one cap is cutting once |
| PromptBudget.CutKeepsStart | prompts/renderer.py:227-228 | a cut string starts with the first `cap` characters; a short one stays |
| PromptBudget.BoundedWithin | prompts/renderer.py:220-229 | after cutting no string, also inside tuples, is longer than the cap and its dots |
| PromptBudget.DropsOneItem | prompts/renderer.py:232-246 | a drop removes exactly one list item |
| PromptBudget.DropIsUnique | prompts/renderer.py:232-246 | there is only one way to drop the last item |
| PromptBudget.DropAt | prompts/renderer.py:235-243 | the last child with an item decides |
| PromptBudget.BoundShrinks | prompts/renderer.py:220-229 | cutting changes strings only, and a string to its first characters and three dots |
| PromptBudget.DropShrinks | prompts/renderer.py:232-246 | dropping shortens lists only; dicts keep all keys |
| PromptNodes.DropInPlace | prompts/renderer.py:232-246 | in place: True exactly when a list item can be reached, and then exactly the last one is gone; else nothing changed |
| PromptNodes.DropInChildren | prompts/renderer.py:235-243 | children are tried from the last to the first |
| PromptNodes.BoundCopy | prompts/renderer.py:220-229 | the bounded copy shares nothing with the value copied, nor between its own parts, whatever the value shares |
| PromptNodes.TryCap | prompts/renderer.py:209-212 | one cap, and whether it is small enough |
| PromptNodes.CutUntilFit | prompts/renderer.py:207-214 | the largest cap that fits, or none |
| PromptNodes.DropProgress | prompts/renderer.py:215-216 | every turn of the dropping loop makes progress and only shrinks |
| PromptNodes.DropUntilFit | prompts/renderer.py:215-217 | dropping ends with a value that fits or has no list item left |
| PromptNodes.FitContextBudget | prompts/renderer.py:203-217 | terminates with a value that fits or has no list item left, obtained by the mildest step that suffices; the value passed in is never changed |
| TemplateConditionals.PassShortens | prompts/renderer.py:86-96 | a pass that finds a block makes the text shorter |
| TemplateConditionals.PassKeepsOutside | prompts/renderer.py:86-96 | the text outside the blocks is kept, in order, and each block found gives way to its branch |
| TemplateConditionals.ReplaceOnce | prompts/renderer.py:89-96 | the substitution loop computes one pass |
| TemplateConditionals.ReplaceConditionals | prompts/renderer.py:81-97 | the passes end for every text and leave no block |
| Sessions.TrimmedSize | agent/app/session_manager.py:97-106 | trimming leaves exactly as many sessions as the table has room for |
| Sessions.TrimmedAreOlder | agent/app/session_manager.py:99-106 | no trimmed session was used later than one that stays |
| Sessions.EvictionIsExact | agent/app/session_manager.py:87-106 | an eviction keeps only unexpired sessions, all of them if there is room, else the most recently used |
| Sessions.EvictionByTimes | agent/app/session_manager.py:87-106 | the same with the recorded times of last access themselves |
| Sessions.KeptOk | agent/app/session_manager.py:87-106 | an eviction keeps the session table and the lock table in step |
| Sessions.KeptIds | agent/app/session_manager.py:87-106 | at most `max_sessions` remain, those that EvictionIsExact describes |
| Sessions.AddedOk | agent/app/session_manager.py:39-43 | a new session with a new lock keeps every lock with one session |
| Sessions.SessionManager.PopAll | agent/app/session_manager.py:93-95 | the victims leave both tables |
| Sessions.SessionManager.EvictExpired | agent/app/session_manager.py:87-106 | the tables after an eviction |
| Sessions.SessionManager.Serve | agent/app/session_manager.py:38-58 | the named session, or a new one for a new or foreign id, with its lock; it belongs to the workspace unless it is an existing one of no workspace |
| Sessions.SessionManager.GetOrCreate | agent/app/session_manager.py:35-60 | equal keys in both tables, at most one session above the limit, and for every session ever handed out always the same lock, shared with no other; the session belongs to the workspace exactly when it is not an existing one of no workspace, hence always as long as every call names one |
| Sessions.AskForOwn | agent/app/session_manager.py:46-60 | a session that stays is served, with its lock, to its own workspace, and to every one if it is of none |
| Sessions.AskForForeign | agent/app/session_manager.py:46-60 | whoever asks for a session of another workspace gets a new one under a new id, and the other stays |
| Sessions.AskForNew | agent/app/session_manager.py:38-45 | whoever asks for a session that is not there gets a new one under the id named, or under a new id |
| Sessions.AskTwice | agent/app/session_manager.py:35-60 | a run from an empty table in which a session made for no workspace is served to a workspace |
| MemoryGate.SavedMember | storage/memory_governance.py:140-150 | after a save the store holds the redacted record and every record of another id, and nothing else |
| MemoryGate.SaveKeeps | storage/memory_governance.py:140-150 | saving keeps one active record for each slot if it meets no other active one |
| MemoryGate.PlacedKeeps | storage/memory_governance.py:418-466 | placing a judged candidate keeps it, through duplicates, conflicts and supersession |
| MemoryGate.WrittenKeeps | storage/memory_governance.py:319-466 | so does every way a write can end |
| MemoryGate.RetiredKeeps | storage/memory_governance.py:485-501 | so do reject and expire |
| MemoryGate.RetiringGivesStatus | storage/memory_governance.py:485-501 | rejecting or expiring replaces the record of the id by itself, redacted, with the given status and time; every other record stays; without one nothing changes |
| MemoryGate.WritingStores | storage/memory_governance.py:319-466 | a write that answers a status has stored the redacted candidate with it; one that refuses or finds a duplicate has stored nothing, or the candidate as rejected |
| MemoryGate.StepKeeps | storage/memory_governance.py:319-501 | so does every step |
| MemoryGate.RunsKeepOneActive | storage/memory_governance.py:319-501 | over every run no slot ever has two active records |
| MemoryGate.OtherKindsAreCareful | storage/memory_governance.py:438-445 | the condition on supersession concerns core_rule records only |
| MemoryGate.SubagentNotActive | storage/memory_governance.py:371-413 | what a subagent proposes is judged pending, whatever status it claims |
| MemoryGate.RunsKeepSubagentsOut | storage/memory_governance.py:371-466 | over every run, nothing a subagent proposed is active |
| MemoryGate.StoredActiveIff | storage/memory_governance.py:319-466 | exactly which candidates the gate stores as active |
| MemoryGate.ActivesStay | storage/memory_governance.py:418-466 | a write takes no other active record out of force, except the one a superseding rule finds updated last |
| MemoryGate.SupersedeKeepsIff | storage/memory_governance.py:438-445 | a superseding rule leaves one active record if and only if the record updated last is the active one, if any is active |
| MemoryGate.CarelessRunBreaks | storage/memory_governance.py:319-466 | a run of four writes from the empty store that leaves two active rules of one slot |
| MemoryGate.RenamedKeyBreaks | storage/memory_governance.py:291-308 | if redaction renames a key, two notes under it are both active |
| MemoryGate.PlacingKeepsIff | storage/memory_governance.py:291-308 | placing keeps the invariant for all stores and candidates that supersede nothing if and only if redaction renames no key |
| MemoryStores.MemoryStore.FindConflicts | storage/memory_governance.py:291-308 | the loop finds exactly the other active and pending records of the same scope, kind and stripped key and, in a session or task, of the same one |
| MemoryStores.MemoryStore.Retire | storage/memory_governance.py:485-501 | found exactly when a record has the id; then each record of the id is an old one, redacted, with the given status and time, and every record of another id is there exactly if it was before; else nothing changes |
| MemoryStores.MemoryWriteGate.Write | storage/memory_governance.py:319-466 | records and outcome of a write, branch by branch |
| MemoryStores.MemoryWriteGate.Place | storage/memory_governance.py:418-466 | records and outcome once the candidate is judged |
| ToolNames.RoundTripIff | agent/llm/tool_adapter.py:17-36 | decoding the name gives the id back if and only if no `_` stands directly before `_` or `.` |
| ToolNames.NamesCollide | agent/llm/tool_adapter.py:17-36 | the ids `a.b` and `a__b` have one name, which reads back as the first |
| ToolNames.SafeNamesDiffer | agent/llm/tool_adapter.py:17-25 | two such ids never share a name |
| ToolNames.NameHasNoDot | agent/llm/tool_adapter.py:17-25 | a name never has a dot |
| ToolNames.NameRoundTripIff | agent/llm/tool_adapter.py:17-36 | encoding what a name decodes to gives the name back if and only if it has no dot |

## Left out

What the modelled code does and the model does not:

- The extra per-process lock around row-log operations (`records._LOCKS`) is not modelled: the claims hold with the file lock alone, over more interleavings.
- Fairness, timeouts in seconds, deadlock, and deletion of lock files or workspaces under live locks are not modelled; retries are counted instead, and whether a lock file can be opened and the system grants a free lock are inputs.
- Entering one lock object twice before leaving it is not modelled: `Enter` requires a fresh object for each with-block, as all callers in the repository do.
- The body of a mutator is a pure function of the rows it gets; rows are opaque and blank lines are not among the lines of a log, so characters that `splitlines` treats as line ends inside a row are not modelled.
- JSON encoding of index records is a pair of functions of which only the round trip and the absence of line breaks in what is written are assumed; record values are strings.
- Decoding errors and I/O errors while reading an index, fsync and the temporary files of an atomic replace are not modelled; a write replaces the whole file.
- Readers of the index that run beside a writer without the lock see the file before or after the replace; that interleaving is not modelled.
- `validate_file_index` is not modelled.
- Approval records on disk, their reload and garbage collection, and the order of the pending listing are not modelled: the claims are about one process.
- Summary texts, token estimates and the metadata of a compaction other than its count are not modelled; a summary is any message without calls and call ids.
- Lower-casing, JSON parsing and the line-based scrubber of non-JSON tool results are parameters; list values are cut by count, not by size, as in the code.
- Artifact fields that no decision depends on, references, run indexes, events and the knowledge index are not modelled; content checks before a save and the sensitivity rules of a promotion are inputs.
- Payloads on disk are not modelled: whether one can be unlinked is an input of the operations that unlink.
- Artifacts without a file id that own a payload by its relative path are not modelled beyond their metadata.
- The explanatory texts of the authority projection and the finer counts of its summary are not modelled.
- Titles in a listing are taken as normalized (stripped, single spaces, lower case).
- `truncate_text_to_tokens` and `estimate_text_tokens` are parameters; only the limit is assumed. Summaries and retrieved references of the history block are not modelled.
- `TemplateConditionals.ReplaceConditionals`: the regular expression and the choice of a branch are parameters of which only their extents are assumed.
- Template loops and variables are not modelled; loop values may contain tags, and then the repetition need not end.
- `Sessions.SessionManager.GetOrCreate`: the time of last access is kept in a table of the manager instead of an attribute of the session object; restoring a session is not modelled.
- `confirm_memory` is not modelled: a later conflict overwrites the group it relies on, and it can leave two active records.
- Secret patterns, low-value patterns, redaction and text similarity of the memory gate are parameters; projections, events and the summary kept from the consolidator are not modelled.
- The description and parameter schema built for a tool are not modelled.
- Routes, sockets, model calls, jobs, captured packets, token usage and configuration merging are not modelled: they are plumbing or small folds.
