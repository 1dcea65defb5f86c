# Verification of Runyte

Runyte is a terminal editor. This project models the parts of it whose
correctness is easy to lose and hard to see, and proves what they are for:

- **Live diff.** Two texts are aligned line by line (`Alignments`, `Scripts`,
  `Lcs`, `Align`, `LeastRows`, `Groups`, `AlignLines`); an edit patches the
  alignment in place until a worker has compared the texts again (`Cells`,
  `Splices`, `SpliceLaws`); a session keeps track of which revisions its alignment
  is of (`TextRows`, `LineLaws`, `DiffSessions`, `NoteLaws`, `ReplayLaws`,
  `SessionRuns`, `ComparisonLaws`, `Facing`, `AlignedViewports`).
- **Buffers.** A transaction's inverse (`Texts`, `Checkpoints`), grouped undo and
  redo on bounded stacks (`Histories`, `UndoGroups`), the save that compares,
  writes beside, exchanges, inspects and restores while other programs interfere
  (`Disks`, `Interference`), the disk baseline and the dirty flag (`Documents`,
  `Baselines`), and the object that holds them all (`Buffers`).
- **The editable explorer.** Rows of text with filesystem identities hidden behind
  them, carried through every edit (`Directories`, `DirectoryPasses`,
  `RowIdentities`, `DirectoryLaws`, `DirectoryRuns`, `TransferRuns`, `RenameRuns`,
  `DirectoryBuffers`).
- **The viewport.** What is shown of folded and wrapped rows, and moving back
  through it (`Viewports`).
- **Search, listings, patch rows.** The one-pass search inside selections
  (`SearchSweeps`), the cache of directory listings (`Listings`, `ListingRuns`)
  and the names of patch rows (`DiffRows`).

Code that changes things step by step is a method with loops, or a class with
methods, proved equal to a function of its inputs or of the old state; what the
source promises is then proved of those functions, for all inputs and for all
runs. `dafny verify dfyconfig.toml` checks everything.

**Where the code does not keep its promise.** Two places:

- `note_transaction` is to keep every row that an edit does not touch level with
  the row it faced (src/diff_view.rs:208-210, and the test at 357-376). It does
  not when a change starts inside a row and ends exactly where a later row starts:
  that later row is dropped from the alignment and put back as new, so that it
  faces filler until the texts are compared again. `NoteLaws.LevelIffNotSevered`
  says exactly which rows keep their place, of those whose start no change reaches
  over (all that are not `Severed`, a condition on the transaction alone),
  `ReplayLaws.HistoryLevelIffNotSevered` says it of the transactions of an undo or
  redo, and `NoteLaws.ACutRowLosesItsPlace` is a concrete edit that loses one.
- A settled listing is to be as good as reading the directory again
  (src/directory_listing.rs:18-24). Its times are asked for before its entries are
  read, and if the path is given to another directory in between, that directory's
  entries are kept under the first one's identity and served while the first one is
  left alone. `ListingRuns.SettledHitIsFresh` says when such an answer is wrong,
  `ListingRuns.EveryAnswerIsTrue` that nothing else goes wrong in any run, and
  `ListingRuns.ASwapIsServed` is a run in which it does.

## Model

| member | source | states |
|---|---|---|
| Alignments.RunAtIs | src/diff.rs:318-329 | on a well-formed alignment the binary search finds run i for exactly the rows of run i, zero-width runs notwithstanding |
| Alignments.RowAtIs | src/diff.rs:356-370 | an offset into a run shows that run's row on each side, or filler past the side's end |
| Alignments.EveryRowIsFoundAgain | src/diff.rs:348-370 | every row, real or past the end, is found again at its aligned row, and only real rows lie inside the aligned space |
| Alignments.EveryShownRowMapsBack | src/diff.rs:348-370 | a row shown at an aligned row has that aligned row |
| Alignments.AlignedRowIncreases | src/diff.rs:348-353 | aligned positions strictly increase on each side |
| Alignments.ChangeReadsTheRun | src/diff.rs:332-341 | a row reads as changed exactly if it lies in a run that is not equal: as changed in a replaced run, added in an inserted one, removed in a deleted one |
| Lcs.NoneIsLonger | src/diff.rs:505-514 | no pair of increasing index sequences of equal lines is longer than the table's entry |
| Lcs.SuffixAddsItsLength | src/diff.rs:387-395 | a common suffix adds exactly its own length to the longest common length of any two tails |
| Lcs.PrefixAddsItsLength | src/diff.rs:381-386 | so does a common prefix |
| Align.TrimmingLosesNothing | src/diff.rs:381-395 | trimming the common ends takes exactly their lines off the longest common length of the whole texts |
| Lcs.WalkAttains | src/diff.rs:516-553 | the greedy walk through the table keeps as many lines as the table's entry says |
| Lcs.KeptIsCommon | src/diff.rs:516-553 | the lines the walk keeps are a common subsequence |
| Align.AlignedIsWellFormed | src/diff.rs:381-461 | the runs of any two texts are contiguous and cover both exactly, with aligned offsets that add up the heights |
| Align.AlignedReplays | src/diff.rs:381-461 | equal runs match line for line, alternate with changed ones, and replaying the runs turns left into right |
| Align.EqualRunsAreLongest | src/diff.rs:381-553 | within the size limit no common subsequence of the whole texts is longer than the equal runs |
| Align.EqualRunsAreCommon | src/diff.rs:381-553 | the rows of the equal runs, side by side, are a common subsequence of the whole texts, at any size |
| Align.OversizedKeepsTheEnds | src/diff.rs:477-497 | over the size limit nothing but the common ends is kept |
| LeastRows.WalkKeepsTheFirst | src/diff.rs:516-553 | of all longest common subsequences of two tails the walk keeps the one whose right rows come first, each of them |
| LeastRows.AlignedKeepsTheFirst | src/diff.rs:381-553 | so does the alignment between the common ends |
| Groups.LaidOutAsDrawn | src/diff.rs:417-453 | laying grouped changes out as runs draws the edit script they came from |
| AlignLines.FillTable | src/diff.rs:500-514 | the flat table, filled from the end, holds the longest common length of every pair of suffixes |
| AlignLines.AlignedGroups | src/diff.rs:500-553 | the walk over the table gathers exactly the groups of the greedy script |
| AlignLines.GroupsFor | src/diff.rs:477-497 | a side that is empty or a region over the limit is one group, anything else is walked |
| AlignLines.TrimEnds | src/diff.rs:381-395 | counts the common prefix and then the common suffix of what is left |
| AlignLines.AlignTexts | src/diff.rs:381-461 | the whole alignment as computed equals the one specified |
| Splices.EncodeIsExact | src/diff.rs:162-284 | cells encoded as runs unfold to the same cells, with no empty run |
| Splices.EncodeIsMerged | src/diff.rs:175-215 | no encoded run is of two kinds of row, and neighbouring runs differ in kind |
| Splices.MergedIsEncoded | src/diff.rs:175-215 | such runs are the only ones: unfolding them to cells and encoding those gives them back |
| Splices.SplicedIsMerged | src/diff.rs:162-284 | so a splice leaves no replaced run and merges every two neighbours of one kind |
| Splices.Splice | src/diff.rs:162-284 | the cut-and-copy loops compute the alignment whose cells are the old ones patched at the edit |
| SpliceLaws.SpliceLineCounts | src/diff.rs:162-284 | splicing keeps alignments well-formed, with exactly the new line counts |
| SpliceLaws.SurvivorsStayLevel | src/diff.rs:162-284 | a surviving row, renumbered, is level with an opposite row exactly if it was |
| SpliceLaws.InsertedFaceFiller | src/diff.rs:162-284 | an inserted row is level with nothing |
| SpliceLaws.RemovedLeaveFiller | src/diff.rs:162-284 | what a removed row was level with faces filler afterwards |
| SpliceLaws.InsertedTakeThePlace | src/diff.rs:162-284 | inserted rows take the aligned place of the first removed row, in order, and what is above keeps its place on both sides |
| Texts.InverseRestores | src/text.rs:188-212 | the inverse of an ordered transaction fits the new text and restores the old one |
| Texts.InverseOfInverse | src/text.rs:188-212 | the inverse of the inverse is the transaction itself |
| Texts.Apply | src/text.rs:188-212 | applying changes from the last to the first gives the text and the inverse specified |
| LineLaws.LineIsRowText | src/diff.rs:374-379 | line k of a text is the stretch from after its k-th line break to the next or the end, without a carriage return right before a break; no line holds a break |
| LineLaws.LinesWriteOut | src/diff.rs:374-379 | written out with their breaks the lines are the text again, but for carriage returns in front of breaks |
| DiffSessions.PendingIsLevelByNumber | src/diff.rs:125-157 | the provisional alignment levels rows of equal number and gives the rest filler |
| DiffSessions.DiffSession.constructor | src/diff_view.rs:71-85 | a new session is aligned to its texts and knows no revision |
| DiffSessions.DiffSession.RequestUpdate | src/diff_view.rs:178-188 | asks once per pair of revisions, and goes provisional only if the geometry is of others |
| DiffSessions.AskingKeepsWhatIsCarried | src/diff_view.rs:178-188 | asking about texts whose geometry is known keeps the alignment as edits have carried it, asking about others levels rows by number |
| DiffSessions.DiffSession.NoteTransaction | src/diff_view.rs:211-255 | splices in reverse order and corrects the tail, for the buffer and revision it is about and no other |
| DiffSessions.DiffSession.NoteHistory | src/diff_view.rs:260-288 | replays the transactions of an undo or redo one by one |
| DiffSessions.DiffSession.ApplyAlignment | src/diff_view.rs:290-299 | takes a result exactly if its revisions are the pending ones |
| DiffSessions.DiffSession.Update | src/diff_view.rs:302-307 | compares the live texts at once |
| NoteLaws.KeptRowStaysLevel | src/diff_view.rs:211-255 | after any multi-range transaction a row whose start no change reaches over, edited inside or not, moved by the net line breaks above it, is level with what it was level with, unless it was severed; then nothing is level with that row |
| NoteLaws.LevelIffNotSevered | src/diff_view.rs:211-255 | such a row that was level stays level if and only if no change cuts it |
| NoteLaws.SwallowedRowLeavesFiller | src/diff_view.rs:211-255 | a row that a change takes away, line break included, leaves the row it was level with facing nothing |
| NoteLaws.EditsInsideRowsMoveNothing | src/diff_view.rs:211-255 | a transaction that adds and removes no line break leaves the alignment as it was, as long as as many rows are visible |
| NoteLaws.CleanChangesNeverCut | src/diff_view.rs:211-255 | transactions whose changes above the row each start at a row start, only insert, or do not end at a row start cut nothing |
| NoteLaws.ACutRow | src/diff_view.rs:211-255 | a one-change transaction that cuts the row below it without touching it |
| NoteLaws.ACutRowLosesItsPlace | src/diff_view.rs:211-255 | that edit makes a level, untouched row face filler |
| ReplayLaws.NotedKeepsNobody | src/diff_view.rs:211-255 | a row that was level with nothing is level with nothing after any transaction of the other side |
| ReplayLaws.ReplayedRowStaysLevel | src/diff_view.rs:260-288 | a row whose start no transaction of a replay reaches over, where it is by then, is level with what it was level with, unless one of them severs it; then nothing is level with that row |
| ReplayLaws.HistoryLevelIffNotSevered | src/diff_view.rs:260-288 | undo and redo keep such a level row level if and only if none of their transactions severs it where it is by then |
| SessionRuns.StepKeepsInv | src/diff_view.rs:166-308 | edits, replacements, replays, requests, answers and updates each keep the session's invariant |
| SessionRuns.EveryRunIsFaithful | src/diff_view.rs:166-308 | in every run the line counts are those of the texts at the geometry revisions, and an alignment that needs no update is the alignment of the live texts |
| SessionRuns.StaleAnswersAreRefused | src/diff_view.rs:178-188 | in every run, once a session has asked again about texts that have moved on, an answer to an earlier question changes nothing, however much later it comes |
| SessionRuns.AskingSettles | src/diff_view.rs:178-188 | asking and then hearing about the live revisions leaves nothing to update |
| SessionRuns.FollowingGoesOn | src/diff_view.rs:166-308 | a session whose geometry is that of a live text keeps it so through edits, undo, redo, questions and updates, so that every edit is carried |
| ComparisonLaws.EqualRowsSayTheSame | src/diff.rs:374-461 | rows side by side in an equal run of two texts have the same characters |
| ComparisonLaws.LevelDifferencesAreMarked | src/diff.rs:332-461 | level rows that say different things are both marked as changed |
| ComparisonLaws.EveryRunMarksDifferences | src/diff_view.rs:166-315 | in every run, whenever no update is needed, a visible row that is not marked is level with a row of the other live text that says the same |
| ComparisonLaws.UpdatedRowsAgree | src/diff_view.rs:302-307 | an update compares the two texts it is handed, row by row |
| ComparisonLaws.AskingAfterAnEditKeepsRows | src/diff_view.rs:178-255 | when an edit of a session that follows both texts is asked about, rows stay level until the answer, exactly those it does not sever |
| Facing.LookupIsScan | src/diff_view.rs:328-339 | the lookup equals the backward scan for the last real row at or above, or 0 |
| Facing.FacingIsNearest | src/diff_view.rs:317-339 | a row faces the row it is level with, or over filler the nearest one above, or the first if there is none |
| Facing.FacingAscends | src/diff_view.rs:322-325 | facing rows never go backwards |
| Facing.FacingIsMutual | src/diff_view.rs:322-325 | facing is its own inverse on rows that do not face filler, and a row facing filler is level with nothing |
| AlignedViewports.ProjectAlignedRows | src/app.rs:997-1030 | one side's rows of the aligned stretch, to the height or the end of the text |
| AlignedViewports.EveryLineIsInPlace | src/app.rs:997-1030 | every line whose aligned row is in the stretch is on the screen row of that aligned row |
| AlignedViewports.PanesStayLevel | src/app.rs:889-901 | rows on the same screen row of two panes with one start are level |
| Checkpoints.TakingBackRestores | src/buffer.rs:3224-3244 | the reversed inverses of a checkpoint take its result back, and theirs are the checkpoint |
| Histories.StepKeepsTimeline | src/buffer.rs:3151-3271 | every operation keeps one timeline of texts that the undo and redo entries connect; a group is open from its beginning to the next operation that is not an edit |
| Histories.EveryRunKeepsATimeline | src/buffer.rs:3151-3271 | every run keeps the timeline of the texts its edits and closed groups led to, undo and redo are possible throughout, and both stacks together never exceed the limit |
| Histories.RedoUndoesUndo | src/buffer.rs:3224-3271 | undo then redo restores the whole history exactly |
| Histories.UndoUndoesRedo | src/buffer.rs:3224-3271 | redo then undo restores the whole history exactly |
| Histories.UndoThenRedo | src/buffer.rs:3224-3271 | k undos reach the state k before on the timeline, and k redos lead back, stacks and all |
| UndoGroups.AGroupIsOneCheckpoint | src/buffer.rs:3151-3271 | whatever edits follow a beginning, closing the group adds one entry if one of them changes anything and none otherwise; undo then gives the text the group began at, and redo everything as it was when closed |
| Disks.FailureKeepsTheTemporary | src/buffer.rs:1063-1076 | a write that failed after preparing keeps a file at the temporary, the prepared one unless it swapped the two paths |
| Disks.RestoringKeepsBoth | src/buffer.rs:1437-1454 | a failed settlement swaps the displaced file back to the destination and what stands there to the temporary; if it cannot, both stay where they are |
| Disks.RefusedWritePutsBack | src/buffer.rs:996-1088 | a write that fails, under any policy, undisturbed after its swap and able to swap back, leaves the destination as the others alone would have, and its own file at the temporary if it was prepared |
| Disks.LeavingTheTemporaryWarns | src/buffer.rs:1419-1436 | a write that goes through leaves nothing at the temporary unless removing it failed twice, and warns whenever it failed once |
| Disks.FailingEarlyMovesNothing | src/buffer.rs:996-1088 | a write that fails before its rename or swap moves nothing |
| Disks.UndisturbedWrite | src/buffer.rs:996-1088 | left alone, a write goes through exactly if its policy allows what is there |
| Disks.Folder.ReplaceFile | src/buffer.rs:1383-1473 | the operations carried out among outside steps, recorded one by one, are the steps specified, end where specified, and lead there from where they began |
| Disks.Folder.AtomicWrite | src/buffer.rs:996-1088 | so are those of the whole write |
| Disks.Folder.DropGuard | src/buffer.rs:872-894 | the guard of the temporary removes what is still there, also after an unlink that failed |
| Interference.SettlingAccounts | src/buffer.rs:1419-1455 | after the swap the displaced file is removed only if it is the recorded one and the write goes through; otherwise it is at one of the paths in the end |
| Interference.ReplacingAccounts | src/buffer.rs:1383-1473 | the steps of a replacement lead where it ends, each of its own is possible where it is taken, and it takes nothing but the recorded version off both paths, and nothing at all if it fails |
| Interference.WritingAccounts | src/buffer.rs:996-1088 | the same of a whole write from any state, under every interleaving; only a draft that could not be finished may go as well |
| Interference.OnlyTheBaselineIsDestroyed | src/buffer.rs:996-1088 | a version that is at one of the paths before some step of a write's own and at neither after it matches the baseline, and then the write has gone through, or is an unfinished draft |
| Interference.AnyOtherVersionIsKept | src/buffer.rs:996-1088 | a version that some step of a write's own takes from the destination matches the baseline and the write has gone through, or it is at one of the paths when the write returns |
| Interference.UnlinkingAnotherIsNot | src/buffer.rs:1421-1436 | removing any other version would not be harmless |
| Interference.RenamingOverAnotherIsNot | src/buffer.rs:1395-1411 | nor would renaming over one, which only a forced write does |
| Interference.SavingIsHarmless | src/buffer.rs:3403-3447 | the same of a whole save: its steps lead to the folder it leaves; a save that fails loses nothing, keeps whatever it displaced at one of the paths, and leaves the document alone |
| Documents.CleanOnlyIfVerified | src/buffer.rs:3403-3447 | a save marks clean exactly if what is found at the destination is the text, and otherwise changes nothing |
| Documents.FailedSaveChangesNothing | src/buffer.rs:3403-3447 | a failed save leaves text, dirty flag and baseline as they were |
| Documents.UndisturbedSave | src/buffer.rs:3403-3447 | left alone, a save goes through exactly if the file is gone or is the recorded one |
| Documents.ConflictStopsTheSave | src/buffer.rs:3403-3447 | a save that is not forced and finds another version, or cannot tell, takes no step at all |
| Documents.UndisturbedForcedSave | src/buffer.rs:3403-3447 | left alone, a forced save always goes through |
| Documents.RefusedSavePutsBack | src/buffer.rs:3403-3447 | a save that fails leaves the destination as the others alone would have, on the same terms as a write |
| Documents.StepIsSound | src/buffer.rs:2037-2170 | each event keeps the dirty flag exact, raises the generation by one if it accepts a baseline and not otherwise, and otherwise leaves what the disk is taken to hold |
| Documents.EveryRunIsExact | src/buffer.rs:3366-3447 | in every reachable state dirty means uncertain, unsaved or different, and the generation counts the baselines accepted |
| Documents.OldObservationsAreIgnored | src/buffer.rs:2037-2047 | an observation asked for before some baseline was accepted, even one with the same contents, changes nothing |
| Baselines.AcceptedSaveIsTheBaseline | src/buffer.rs:3366-3380 | an accepted report leaves its own text as the saved one and its state as the recorded one, and the document dirty exactly if it has moved on |
| Baselines.StepKeepsBelief | src/buffer.rs:2037-2170 | each accepted baseline brings the text and state it is about, and nothing else changes them |
| Baselines.EveryRunComparesWithTheLastBaseline | src/buffer.rs:3366-3447 | in every run the document is dirty exactly if a write is uncertain since the last baseline or its text is not the one that baseline brought |
| Baselines.ReportedTextStaysTheBaseline | src/buffer.rs:3366-3380 | after an accepted report and further events without another baseline or an uncertain write, it is dirty exactly if its text is not the reported one |
| Baselines.EveryRunTellsTheLastObservation | src/buffer.rs:2084-2122 | in every run the status is that of the last observation that found something else than the baseline, synchronized if there is none since |
| Baselines.ToldOnce | src/buffer.rs:2116-2121 | the same stale observation is told only once in a row |
| Buffers.Buffer.Apply | src/buffer.rs:3151-3173 | an edit extends the timeline, clears redo and keeps the dirty flag exact |
| Buffers.Buffer.BeginUndoGroup | src/buffer.rs:3176-3178 | opens a group unless one is open |
| Buffers.Buffer.CommitUndoGroup | src/buffer.rs:3181-3193 | closing a group makes one entry of its edits |
| Buffers.Buffer.Undo | src/buffer.rs:3224-3244 | undoing moves the cursor back and records what redoes it |
| Buffers.Buffer.Redo | src/buffer.rs:3251-3271 | redoing moves it on again |
| Buffers.Buffer.AcceptDocumentSave | src/buffer.rs:3366-3380 | a save reported back counts only for its own path and generation, and then its text is the saved one and the buffer dirty exactly if it says something else |
| Buffers.Buffer.ApplyFileObservation | src/buffer.rs:2037-2122 | an observation counts only for its own path and generation, and settles, converges or marks stale |
| Buffers.Buffer.Reload | src/buffer.rs:3564-3576 | the disk's text becomes the text and the baseline, and the history starts anew |
| Buffers.Buffer.SaveWith | src/buffer.rs:3403-3447 | the save as carried out ends as specified, for the document and for the folder |
| Directories.LabelId | src/directory_buffer.rs:577-582 | the id a label names in the baseline, if any entry has that name |
| Directories.Unclaimed | src/directory_buffer.rs:548-551 | the first row with a label that no row has claimed |
| DirectoryPasses.ClaimByLabel | src/directory_buffer.rs:535-568 | the first pass, row by row: labels claim the rows that said them, pasted copies share their source |
| DirectoryPasses.RestoreFromBaseline | src/directory_buffer.rs:570-591 | the second: labels of the baseline that no row carries come back |
| DirectoryPasses.TakeUpDetached | src/directory_buffer.rs:593-601 | the third: transfers that were cut away are taken up again |
| DirectoryPasses.KeepInPlace | src/directory_buffer.rs:605-618 | the fourth: with as many rows as before, unclaimed rows keep what they had |
| DirectoryPasses.HandOut | src/directory_buffer.rs:620-631 | the rest goes to the remaining rows in order |
| DirectoryPasses.SetAside | src/directory_buffer.rs:632-641 | transfers left over are put aside under their labels |
| RowIdentities.ReconciledIs | src/directory_buffer.rs:527-644 | after any edit every row stands for exactly what a description of the labels, places and waiting transfers gives it: the old row with as many copies above it, a shared copy, a returning entry, a waiting transfer, its own old identity, or the next one left over |
| RowIdentities.PutAsideIs | src/directory_buffer.rs:527-644 | what waits under a label afterwards is what waited there, less what rows took from the end, and then the transfers nobody used, in the order of their rows |
| RenameRuns.RenamedRowKeepsItsIdentity | src/directory_buffer.rs:605-618 | with as many rows as before, a row renamed where it stands keeps what it stood for, nothing included, and so does one left alone |
| RenameRuns.RenamedRowKeepsItsIdentityAlong | src/directory_buffer.rs:605-618 | and through any run of such edits, whatever happens to the other rows |
| RenameRuns.RenamingKeepsEveryIdentity | src/directory_buffer.rs:605-618 | a run of nothing but renames in place, told from its texts alone, changes no identity |
| DirectoryLaws.FilledIsTold | src/directory_buffer.rs:527-644 | every identity on a row is accounted for, and no old row is used twice or forgotten |
| DirectoryLaws.IdentitiesStayDistinct | src/directory_buffer.rs:527-644 | distinct identities stay distinct whenever the new labels are |
| DirectoryLaws.NoTransferIsLost | src/directory_buffer.rs:527-644 | a transfer on a row that says something ends up on some row, or put aside under what its row said |
| DirectoryRuns.PutAsideIsKept | src/directory_buffer.rs:593-641 | a transfer that waits is taken up by some row or waits on |
| DirectoryRuns.MovingKeepsEntries | src/directory_buffer.rs:527-644 | rows bound to their own entries stay bound through one edit that reorders, deletes and brings back |
| DirectoryRuns.EveryRunKeepsEntries | src/directory_buffer.rs:527-644 | and through any number of them |
| DirectoryRuns.ListingIsBound | src/directory_buffer.rs:122-149 | a listing just laid out, in any order, binds every label to its own entry |
| DirectoryRuns.FreshListingsKeepEntries | src/directory_buffer.rs:122-149 | from a fresh listing on, every visible label stays bound to its own entry in every run of such edits |
| TransferRuns.EveryRunKeepsTransfers | src/directory_buffer.rs:527-644 | through any number of edits a transfer stays on some row or put aside, unless an edit finds it on empty rows only |
| TransferRuns.SparingRunsKeepLabels | src/directory_buffer.rs:527-644 | if no edit empties a row where it stands, every transfer that some label names keeps a label through the whole run |
| TransferRuns.AnEmptiedTransferIsLost | src/directory_buffer.rs:605-641 | two edits, one emptying a row where it stands and one adding a row, after which its transfer is nowhere |
| DirectoryBuffers.DirectoryBuffer.FromSnapshot | src/directory_buffer.rs:122-149 | one row an entry, in the order given, and a last empty one, with the identities behind them; refused exactly if a name cannot be shown |
| DirectoryBuffers.DirectoryBuffer.Reconcile | src/directory_buffer.rs:527-644 | all passes together compute what is specified, every row stands for what the labels and places give it, and no row stands for an entry the baseline does not have |
| DirectoryBuffers.ReconciledIsKnown | src/directory_buffer.rs:527-644 | identities on rows are never stale |
| DirectoryBuffers.PickRows | src/directory_buffer.rs:672-692 | the entries the text names, in the order it first names them, and then all others in the snapshot's |
| DirectoryBuffers.OrderedArranges | src/directory_buffer.rs:672-692 | that is every entry of the snapshot, once |
| DirectoryBuffers.RefreshedIsBound | src/directory_buffer.rs:661-712 | after a refresh every label is bound to its own entry again |
| DirectoryBuffers.DirectoryBuffer.RefreshBaselinePreservingOrder | src/directory_buffer.rs:661-712 | a refresh keeps the order and drops what was put aside; an unreadable line or an unprintable name changes nothing |
| DirectoryBuffers.SurvivorIsListed | src/directory_buffer.rs:762-783 | an entry that was not removed is found under its path in the new snapshot |
| DirectoryBuffers.Renumber | src/directory_buffer.rs:773-783 | every row stands for the same path under the new ids |
| DirectoryBuffers.DirectoryBuffer.RebaseAfterExternalRemovals | src/directory_buffer.rs:721-788 | refused exactly if a row still stands for something removed or anything else changed; otherwise every row keeps what it stands for |
| Viewports.HidingFold | src/app.rs:858-864 | the fold that hides a row with the first anchor and the farthest end, if any hides it |
| Viewports.PreviousVisibleRow | src/app.rs:866-875 | the walk up ends on the nearest shown row |
| Viewports.NextVisibleRow | src/app.rs:877-887 | the walk down ends on the nearest shown row, or stays if there is none |
| Viewports.PreviousThenNext | src/app.rs:1033-1065 | one back and one on is where it began, and only the very top has nothing before it |
| Viewports.NothingBetween | src/app.rs:877-887 | no shown segment lies between one and the next |
| Viewports.ForwardLeavesNothingOut | src/app.rs:919-990 | a projection contains every shown segment from its start on until it is full |
| Viewports.JumpLeavesNothingOut | src/app.rs:944-948 | jumping past the fold that hides a row leaves nothing out |
| Viewports.HiddenRowsStartAbove | src/app.rs:938-941 | asked for a hidden row, a projection begins on the nearest shown row above, if the outermost fold hangs on a shown row |
| Viewports.MarksTellWhatIsHidden | src/app.rs:949-977 | a mark of n lines is on the last segment of a row whose next n rows are hidden, and a row without one is right above one that is not |
| Viewports.ProjectVisibleRows | src/app.rs:919-990 | the rows pushed are exactly the consecutive shown segments from the start, with their fold marks |
| Viewports.MoveProjectedStartBackward | src/app.rs:1033-1065 | moves back one shown segment at a time, from any row and segment |
| Viewports.BackIsShown | src/app.rs:1033-1065 | however hidden the row it began on, once it has left that row it is at a segment that is shown |
| Viewports.MovingBackShowsTheSpot | src/app.rs:1033-1065 | after moving back n, projecting n + 1 rows ends on the original row and segment; stopped at the top after k, it is at index k |
| SearchSweeps.PrefixCountsChars | src/app.rs:4829-4837 | counting the characters of a prefix gives the offset of the character after it |
| SearchSweeps.KeptAreContained | src/app.rs:4838-4851 | a range is kept exactly if it is the characters of a match that some one region contains |
| SearchSweeps.FarthestContains | src/app.rs:4838-4851 | of the regions that start by a match, one contains it exactly if the farthest does |
| SearchSweeps.TextMatches | src/app.rs:4811-4859 | the one pass over sorted regions keeps what asking every region about every match keeps, and its running count equals counting each prefix anew |
| Listings.NamedEntriesAreListed | src/directory_listing.rs:210-224 | every entry with a name is listed in order as what it is, a link as where it leads and marked as one |
| Listings.RefreshingReadsAgain | src/directory_listing.rs:263-281 | asking the links again makes a kept listing equal to reading the directory with them |
| Listings.EvictingKeepsTheLatest | src/directory_listing.rs:244-255 | eviction keeps the longest run of most recent listings within the bounds, never less than the last |
| Listings.CacheStaysBounded | src/directory_listing.rs:169-255 | whatever is asked, one listing a directory is kept, within the bounds |
| Listings.AnswerIsKeptLast | src/directory_listing.rs:169-255 | whoever was answered last is the most recent listing kept, with the entries answered |
| Listings.AnswersAreUsedAgain | src/directory_listing.rs:169-208 | whoever was answered is answered again from what is kept, without reading, exactly as long as that may be used |
| Listings.ReadingIsUsedWhileItHolds | src/directory_listing.rs:169-239 | a directory just read is read again only once the system tells something else about it, or, if its time did not vouch for it, once the window has passed |
| Listings.UnreadIsForgotten | src/directory_listing.rs:178-213 | a directory that cannot be read is not kept, and the others are |
| Listings.DirectoryListings.ReadAt | src/directory_listing.rs:169-239 | the lookup, reuse, read and eviction as carried out |
| ListingRuns.LeftAloneBetween | src/directory_listing.rs:63-69 | between two moments at which a time that vouches reads the same, a directory did not change |
| ListingRuns.SettledHitIsFresh | src/directory_listing.rs:195-204 | a settled listing used again was kept under a directory that has not changed since; the answer equals a fresh read if and only if the listing was read from that content, as it was unless the path had been swapped by then |
| ListingRuns.YoungHitIsRecent | src/directory_listing.rs:195-204 | any other listing used again is younger than VOLATILE |
| ListingRuns.EveryAnswerIsTrue | src/directory_listing.rs:169-239 | in every run against a changing file system each answer is fresh, or younger than VOLATILE, or comes from a reading that found another directory under the path than the one asked about |
| ListingRuns.WithoutSwapsAllIsTrue | src/directory_listing.rs:169-239 | without such a swap each answer is fresh or younger than VOLATILE |
| ListingRuns.ASwapIsServed | src/directory_listing.rs:170-177 | a run in which such a swap is served long after |
| DiffRows.DiffRowIdentity | src/app.rs:2709-2724 | the header above a row, its text, and its count among equal rows since that header |
| DiffRows.DiffRowForIdentity | src/app.rs:2726-2742 | finds the row a name is for, and none only if there is none |
| DiffRows.NamedOnce | src/app.rs:2726-2742 | a name is for at most one row |
| DiffRows.OwnNameNames | src/app.rs:2709-2742 | a row's own name is for a row at or above it with the same header and text, and for that very row exactly if no earlier hunk with the same header says the same |
| DiffRows.LoneHeaderNamesTheRow | src/app.rs:2709-2742 | if the header occurs once the name is for that row alone |

## Left out

- Align.EqualRunsAreLongest: only within `MAX_REGION_CELLS`; over it the code makes the region one replacement and promises no more than that the runs replay.
- NoteLaws.LevelIffNotSevered: the promise of `note_transaction` holds only for rows that are not severed, as said above, and is not stated of a row whose beginning a change replaces in a transaction that also moves line breaks; the code is modelled as it is.
- SessionRuns.EveryRunIsFaithful: the two sides are distinct buffers, and a revision stamp is used for one text only; stamps are unbounded, and -1 stands for the stamp a new session has not seen.
- Interference.SavingIsHarmless: one save at a time, each with a temporary name of its own that nobody else knows and that names nothing before; a program that writes into the displaced file through a handle it already held is not part of the model, because the code cannot guard against it.
- Disks.DiskState.MatchesDisplaced: a digest is taken to determine the contents.
- DirectoryRuns.FreshListingsKeepEntries: labels that name no entry, and rows emptied where they stand while another label is gone, are outside it; the code then passes identities on in order, which is what renaming in place is for.
- TransferRuns.EveryRunKeepsTransfers: a transfer that an edit finds on empty rows only may be dropped, as `TransferRuns.AnEmptiedTransferIsLost` shows; the code keeps it there for the text that is typed next.
- DirectoryBuffers.DirectoryBuffer.RefreshBaselinePreservingOrder: how a line is read as a path is a parameter; so is the order in which a new listing is sorted.
- DirectoryBuffers.DirectoryBuffer.Reconcile: takes the text as its lines.
- Viewports.MovingBackShowsTheSpot: rows that a fold hides start right below its anchor, as resolved folds do, and every row of the document wraps into at least one segment; how many is a parameter.
- SearchSweeps.TextMatches: the matches are given, in order and apart, on character boundaries; patterns and compiling them are not modelled.
- ListingRuns.SettledHitIsFresh: assumes that a directory that is written to is stamped less than `SETTLED` behind the clock, and that the clock does not run backwards.
- File system calls themselves, access control lists, metadata, syncing, symbolic links on the way to a save, and the Windows and macOS ways of replacing a file.
- Directory, provider and virtual buffers in observation and saving, apart from the explorer's identities; row hints, details and display names.
- Plans made from the explorer's identities and carried out on disk.
- Wrapping geometry, graphemes, ropes, the running of regular expressions, Git, language servers, terminals, plugins and the rest of the application: other code, or easy members.
- Hiding the marks of a comparison while an answer is awaited, a guard in front of what `Alignments.ChangeReadsTheRun` says.
- Wrap-around of 64-bit generations and revisions: counters are unbounded.
