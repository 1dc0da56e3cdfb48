# Orca: a verified model of its state machines and text transformations

Orca is a desktop client with a CLI, a mobile companion and native helpers. This project models the parts
of it whose behaviour is hardest to see from the code and proves what they are for. Classes and loops of
the original are classes and loops here, each proved against a specification function or step relation;
the results are lemmas about those specifications over every input, every run or every interleaving.

- **Active-view writer** (`ActiveViewSteps`, `ActiveViewSafety`, `ActiveViewSync`, `ActiveViewExits`,
  `ActiveViewConsumers`, `ActiveViewErrors`, `ActiveViewQuit`, `ActiveViewLate`, `ActiveViewLastView`, class
  `ActiveViewPreference`). A debounced, generation-stamped, promise-chained writer of
  one small file, with a synchronous flush that vetoes a parked rename and a quit flush. Its state is the
  object's fields, the queued promises with the await each is parked at, and the disk. One step is one turn
  of the JavaScript thread between two awaits, or one operation of the file system.
- **Key file** (`KeyFileProtocol`, class `KeyDirectory` in `KeyFileServer`). Any number of processes, any
  interleaving of their file-system calls, crashes between any two of them, failing calls, and a stale lock
  that is removed from outside only while no process holds it.
- **Windows argument quoting** (`WindowsQuoting`). The launcher's printer, and the Microsoft rules
  ("Parsing C command-line arguments", the `CommandLineToArgvW` rules for arguments after the program name)
  as an independent parser.
- **Accessibility tree** (`RenderedLines`, `AccessibilityTree`, `TabCompaction`, `RepeatedCompaction`,
  `TreeRendering`, `TreeReading`, `TabReading`, `BoundedSearch`). The capped pre-order walk with its compaction of browser tabs in place at
  every level, path resolution, and the bounded search on any graph.
- **CLI** (`EditDistance`, `CommandSuggestion`, `ArgumentParser`, `ShellWords`, `CodexClassification`).
- **Small machines** (`ResetCredits`, `TerminalStreams`, `ChunkGuard`, `ReleaseVersion`).

## Where the code does not keep a promise everywhere

The model follows the code. In these places the property holds under an exact condition, and a lemma gives
the run on which it fails.

- `flushOrThrow` and the drain may leave with a stale view on disk: they trust `persistedActiveView`, and a
  superseded rename that lands changes the file without updating that field
  (`src/main/active-view-preference.ts:120-124`, `155-157`, `222-224`). `FlushCanLeaveStaleView` is the run.
  `EarlyExitIsStaleIff` carries the history of landed renames along any run, I/O errors included: the exit
  is stale exactly when a superseded rename landed after the write that `persistedActiveView` speaks of and
  its view is not the active one. `FirstStaleExitIff` adds that without I/O errors the first stale exit is
  one that drops an armed timer.
- `flushAsync` that joins a drain which has returned, but whose `finally` has not run yet, does not drain
  again; a view switch in that gap leaves an armed timer behind (`src/main/active-view-preference.ts:189-211`).
  `QuitFlushCanMissAWrite` is the run; `QuitFlushFinishesIff` proves the condition exact.
- `flushAsync` is meant never to reject (`src/main/active-view-preference.ts:179`), but joining a drain that
  its consumers' aborts have ended already makes it reject: `QuitFlushCanReject`, `QuitFlushRejectsIff`.
- A view switch after the quit flush need not be saved: it arms nothing
  (`src/main/active-view-preference.ts:75-79`), and `LateSwitchIsNotSaved` is a run. It does reach the disk
  while the drain still has to go round again because the write it awaits was superseded (`:230-232`);
  `LateSwitchIsSavedIff` proves that this, or picking the view that is being saved anyway, is the exact
  condition, and `QuitFlushSaves` says which view a quit flush leaves. `RestingFileIsKnown` says what holds
  in any case.
- The quoting round trip fails for an argument with a NUL, which no command line can carry: `RoundTripIff`.
- A repeated flag loses empty values and splits values at a NUL: `RepeatedFlagRoundTripIff`.
- Compacting tabs removes records by index (`native/computer-use-linux/runtime.py:477`), and a new index is the
  number of records left (`:408`), so indexes may repeat once a compaction has removed some
  (`RowKeepsUniqueIff`). `CompactionKeepsTogetherIff` proves that exactly the dropped lines' records go if and
  only if no line that stays has an index of a dropped one, and `CompactingTreeIff` the same for a whole
  compacting walk. `SecondStripLosesTab` is the run: with two strips of ten tabs the second compaction removes
  the record of the first strip's active tab.
- Key agreement needs one read to be faithful, the one under the lock; all others may fail. `StepKeepsInvIff`
  proves that exactly its failure on a valid key breaks the protocol's invariant, and
  `FailedLockedReadBreaksAgreement` is a run from an empty directory on which two processes return two keys.
- The bounded search never looks at a node twice, so on a graph that is no tree a node first met at the depth
  limit is not expanded when it is met again higher up, and a match below it is missed although it lies within
  the limit (`native/computer-use-linux/runtime.py:589-609`): `LimitCanHideMatch` is the graph, and
  `NothingReachableMatches` says when finding nothing means that there is nothing.
- `--name text` in front of the command does not always mean `--name=text`: a text at which a command starts is
  left to the command (`src/cli/args.ts:114-121`). `SpacedBeforeCommandIff` proves the condition exact.
- The patch-bump loop does not end when the closed ceiling is in a later train: `LoopEndsIff`.

## Model

| member | source | states |
|---|---|---|
| ActiveViewPreferences.ActiveViewPreference.constructor | src/main/active-view-preference.ts:47-53 | the stored view wins over the legacy one; the object starts in the initial state of the step system |
| ActiveViewPreferences.ActiveViewPreference.SetActiveView | src/main/active-view-preference.ts:59-73 | the state moves by the Set step and stays valid; reports exactly whether a known view differs from the active one |
| ActiveViewPreferences.ActiveViewPreference.ScheduleSave | src/main/active-view-preference.ts:75-88 | raises the generation and arms the timer, or nothing after the quit flush |
| ActiveViewPreferences.ActiveViewPreference.TimerCallback | src/main/active-view-preference.ts:84-87 | the timer's callback is the TimerFires step |
| ActiveViewPreferences.ActiveViewPreference.EnqueueWrite | src/main/active-view-preference.ts:90-104 | appends one write chained behind the pending promise, which it becomes |
| ActiveViewPreferences.ActiveViewPreference.BeginWrite | src/main/active-view-preference.ts:90-93 | a write starts only when the promise in front of it has settled |
| ActiveViewPreferences.ActiveViewPreference.WriteTempFile | src/main/active-view-preference.ts:106-111 | the temporary file of this generation exists with the write's view, or the write fails |
| ActiveViewPreferences.ActiveViewPreference.CheckAndClaim | src/main/active-view-preference.ts:112-118 | generation check and claim of the temporary file in one turn |
| ActiveViewPreferences.ActiveViewPreference.RenameTempFile | src/main/active-view-preference.ts:119-120 | the rename lands, finds no entry after a veto, or is refused |
| ActiveViewPreferences.ActiveViewPreference.ContinueAfterRename | src/main/active-view-preference.ts:120-137 | persisted changes only for a landed rename of the current generation; a vetoed one is an error only while current |
| ActiveViewPreferences.ActiveViewPreference.RemoveTempFile | src/main/active-view-preference.ts:138-143 | the leftover temporary file goes, or removal fails silently |
| ActiveViewPreferences.ActiveViewPreference.SettleWrite | src/main/active-view-preference.ts:91-104 | the promise settles, clears the pending write only if it is still the last one, and reports a failure once |
| ActiveViewPreferences.ActiveViewPreference.FlushOrThrow | src/main/active-view-preference.ts:145-177 | every branch of the synchronous flush, throws included, leaves the state that the step system says |
| ActiveViewPreferences.ActiveViewPreference.FlushAsync | src/main/active-view-preference.ts:180-187 | one-shot quit flush |
| ActiveViewPreferences.ActiveViewPreference.FlushPendingAsync | src/main/active-view-preference.ts:189-211 | joins the running drain or starts one, unless its signal is aborted |
| ActiveViewPreferences.ActiveViewPreference.DrainPendingWrites | src/main/active-view-preference.ts:213-234 | one turn of the drain from the top of its loop to its next await or its end |
| ActiveViewPreferences.ActiveViewPreference.ResumeDrainAfterWrite | src/main/active-view-preference.ts:226-233 | one turn of the drain from its await on |
| ActiveViewPreferences.ActiveViewPreference.FinishFlush | src/main/active-view-preference.ts:202-208 | the `finally` forgets the drain and its consumers |
| ActiveViewSafety.StepKeepsInv | src/main/active-view-preference.ts:90-234 | every step of every kind keeps the writer's invariant |
| ActiveViewSafety.RunKeepsInv | src/main/active-view-preference.ts:90-234 | so does every run |
| ActiveViewSafety.StampsRise | src/main/active-view-preference.ts:106-177 | a step changes the file only by a write of a strictly later generation |
| ActiveViewSafety.RunStampsRise | src/main/active-view-preference.ts:106-177 | over any run the generation on disk never falls, and the file is the same unless it rose |
| ActiveViewSafety.FlushWriteIsFinal | src/main/active-view-preference.ts:145-177 | once the flush wrote, the file holds the view active at that call and only a later generation can ever replace it, whatever older writes were parked |
| ActiveViewExits.FlushLeavesActiveViewIff | src/main/active-view-preference.ts:145-177 | over every run, a flush that returned left the active view on disk if and only if it wrote or no superseded rename with another view had landed since the write that memory speaks of |
| ActiveViewExits.EarlyExitIsStaleIff | src/main/active-view-preference.ts:120-124 | in every run, I/O errors and earlier stale exits included, where an exit test passes the disk misses the active view exactly when such a rename landed with another view |
| ActiveViewExits.FirstStaleExitIff | src/main/active-view-preference.ts:155-157 | without I/O errors and up to the first stale exit, exactly when in addition the timer is armed |
| ActiveViewSync.UnarmedExitIsRight | src/main/active-view-preference.ts:222-224 | with no timer armed, a passed exit test means that the disk holds the active view |
| ActiveViewSafety.FlushCanLeaveStaleView | src/main/active-view-preference.ts:120-124 | the run on which it leaves early with another view on disk |
| ActiveViewSafety.SingleWriter | src/main/active-view-preference.ts:90-104 | in every reachable state only the first queued write is past its start, and generations strictly increase |
| ActiveViewSafety.TempNamesNeverCollide | src/main/active-view-preference.ts:106-111 | no temporary file is ever created over an existing one, by a queued write or by a flush |
| ActiveViewSafety.CurrentWriteCarriesCurrentView | src/main/active-view-preference.ts:84-87 | before the quit flush a queued write of the current generation carries the active view |
| ActiveViewSync.StepKeepsClean | src/main/active-view-preference.ts:106-143 | a step without I/O error keeps: with no write to come, memory, disk and active view agree |
| ActiveViewSync.IdleIsSynced | src/main/active-view-preference.ts:106-143 | at rest after a run without I/O errors in which no flush dropped an armed timer where memory missed the disk, the file is what memory believes, and the active view once anything was stored; no vetoed write was reported as failed |
| ActiveViewSync.SwitchesAreSaved | src/main/active-view-preference.ts:59-73 | after any such run in which a view was selected, with or without a stored view at the start: with no timer and no pending write the file holds the active view |
| ActiveViewSync.LastSelectedIsSaved | src/main/active-view-preference.ts:59-73 | which is the view that the last selection of the run named |
| ActiveViewSync.NothingIsWrittenInVain | src/main/active-view-preference.ts:65-71 | at rest, selecting the view on disk arms nothing, and if it is the active one a flush of any kind leaves disk and queue alone |
| ActiveViewConsumers.GivenUpIff | src/main/active-view-preference.ts:189-242 | with the history of who joined and who aborted kept apart from the state: in every run a drain is given up at a step if and only if it is resumed there and each consumer that joined it gave a signal and has aborted |
| ActiveViewConsumers.DrainServesCallers | src/main/active-view-preference.ts:189-211 | a drain runs exactly while somebody waits for it, and a caller that had aborted before changes nothing |
| ActiveViewErrors.FailuresAreReported | src/main/active-view-preference.ts:94-143 | in every run each write that fails is reported exactly once, when it settles, and nothing else is |
| ActiveViewErrors.ThrownFlushLosesNothing | src/main/active-view-preference.ts:145-177 | a flush that throws leaves file and memory as they were; unable to veto a parked rename it queues the active view behind it under a later generation |
| ActiveViewErrors.FlushThrowsOnlyOnErrors | src/main/active-view-preference.ts:145-177 | a flush is refused after the quit flush, and otherwise throws only when a file operation fails, and then always |
| ActiveViewLate.RestingFileIsKnown | src/main/active-view-preference.ts:75-143 | the same with switches after the quit flush allowed: the file is what memory believes, and before that flush it is the active view |
| ActiveViewLate.LateSwitchIsNotSaved | src/main/active-view-preference.ts:75-79 | the run on which a switch after the quit flush stays unsaved at rest |
| ActiveViewLastView.LateSwitchIsSavedIff | src/main/active-view-preference.ts:213-234 | however the rest of the quit drain falls, a late switch is on disk when it ends if and only if the drain had to go round again or the view was the one being saved |
| ActiveViewLastView.LateSwitchCanBeSaved | src/main/active-view-preference.ts:224-232 | a run to a drain that has to go round again |
| ActiveViewQuit.QuitFlushFinishesIff | src/main/active-view-preference.ts:180-234 | every schedule on which the quit flush resolves ends with no timer and no pending write, if and only if it did not join a finished drain with work left |
| ActiveViewQuit.QuitFlushCanMissAWrite | src/main/active-view-preference.ts:198-208 | the run on which it joins one and an armed timer survives it |
| ActiveViewQuit.QuitFlushRejectsIff | src/main/active-view-preference.ts:179-211 | some schedule makes the quit flush reject if and only if it joins a drain that aborts have ended |
| ActiveViewQuit.QuitFlushCanReject | src/main/active-view-preference.ts:213-234 | the run on which it joins one |
| ActiveViewQuit.QuitRun | src/main/active-view-preference.ts:180-234 | after the quit flush no run arms a timer, and the generation rises at most within its budget of one, also when further pending flushes join |
| ActiveViewQuit.QuietRun | src/main/active-view-preference.ts:75-79 | once quiet, no run without a further pending flush changes the file or the generation |
| ActiveViewQuit.QuitFlushIsFinal | src/main/active-view-preference.ts:180-234 | whoever joins it, when the quit flush resolves there is no timer and no pending write, the generation rose at most once, and until another pending flush is asked for the file never changes again |
| ActiveViewQuit.QuitMeasure | src/main/active-view-preference.ts:213-234 | every internal step after the quit flush lowers a measure that no outside event raises, a joining flush included |
| ActiveViewQuit.QuitTerminates | src/main/active-view-preference.ts:213-234 | so the drain ends: no schedule takes more internal steps than the measure |
| ActiveViewQuit.DrainCanProceed | src/main/active-view-preference.ts:213-234 | and a running drain always has an internal step to take |
| ActiveViewLastView.QuitFlushSaves | src/main/active-view-preference.ts:180-234 | without I/O errors, when the quit flush that leaves no work behind resolves, the disk holds the view active when it was asked for, or the last one selected while its drain had to go round again |
| KeyFileProtocol.StepKeepsInv | mobile/scripts/mock-server-key-pair.ts:53-167 | every call, failure and crash of any process keeps the protocol's invariant and a valid key file |
| KeyFileProtocol.MutualExclusion | mobile/scripts/mock-server-key-pair.ts:53-89 | in every run at most one live process holds the lock, and its file is there |
| KeyFileProtocol.ValidKeyIsForever | mobile/scripts/mock-server-key-pair.ts:108-167 | a valid key file is never replaced |
| KeyFileProtocol.Agreement | mobile/scripts/mock-server-key-pair.ts:135-167 | all processes that return a key pair return the same one, the one on disk |
| KeyFileProtocol.SelectedIsOnDisk | mobile/scripts/mock-server-key-pair.ts:145-167 | a key that a process has settled on is already published |
| KeyFileProtocol.CallsAreBounded | mobile/scripts/mock-server-key-pair.ts:53-106 | no process makes more than 115 calls, whatever the others do |
| KeyFileProtocol.FaultFreeRunsProduceAKey | mobile/scripts/mock-server-key-pair.ts:135-167 | without faults and without an initial lock, when all processes have ended there is a valid key and no lock |
| KeyFileProtocol.StepKeepsInvIff | mobile/scripts/mock-server-key-pair.ts:34-51 | with any call allowed to fail, a step keeps the protocol's invariant if and only if it is not a failed read of a valid key under the lock |
| KeyFileProtocol.FailedLockedReadBreaksAgreement | mobile/scripts/mock-server-key-pair.ts:135-167 | the run from an empty directory on which two processes return different keys |
| KeyFileProtocol.ThrowsAfterFiftyOneBusyOpens | mobile/scripts/mock-server-key-pair.ts:53-89 | without faults a process throws only after fifty-one opens that found the lock taken and fifty-three reads |
| KeyFileProtocol.ReadKeyIsReturned | mobile/scripts/mock-server-key-pair.ts:34-51 | wherever a process reads a valid key without failure it ends up with that key |
| KeyFileProtocol.FailedCallThrows | mobile/scripts/mock-server-key-pair.ts:53-117 | a process that cannot create the lock for another reason than its being taken, cannot write its temporary file or cannot restrict it, never returns a key in any continuation and publishes none |
| KeyFileProtocol.TransientRenamesAreOvercome | mobile/scripts/mock-server-key-pair.ts:91-106 | up to four transient failures of the rename are overcome and the key is published |
| KeyFileProtocol.FifthFailureGivesUp | mobile/scripts/mock-server-key-pair.ts:91-106 | the fifth ends the attempts without a key |
| KeyFileServer.KeyDirectory.constructor | mobile/scripts/mock-server-key-pair.ts:135-141 | a directory with any lock and key file and no process satisfies the protocol's invariant |
| KeyFileServer.KeyDirectory.ReadKeyPair | mobile/scripts/mock-server-key-pair.ts:34-51 | yields the key exactly when the read succeeds and the file is a valid one |
| KeyFileServer.KeyDirectory.OpenLockFile | mobile/scripts/mock-server-key-pair.ts:58-62 | exclusive creation succeeds exactly when there is no lock file and no fault |
| KeyFileServer.KeyDirectory.AcquireKeyLock | mobile/scripts/mock-server-key-pair.ts:53-89 | under interference and failing reads the retry loop ends with the lock, a competitor's key, or a throw |
| KeyFileServer.KeyDirectory.LastAttempt | mobile/scripts/mock-server-key-pair.ts:71-88 | after the last attempt: a competitor's key, the lock, a late key, or a throw |
| KeyFileServer.KeyDirectory.WriteAndRename | mobile/scripts/mock-server-key-pair.ts:108-118 | writing, restricting and renaming ends with the key selected or the error pending |
| KeyFileServer.KeyDirectory.RenameKeyFile | mobile/scripts/mock-server-key-pair.ts:91-106 | at most five attempts, retried only on transient errors |
| KeyFileServer.KeyDirectory.PersistKeyPair | mobile/scripts/mock-server-key-pair.ts:108-124 | a published key is the one on disk when the lock is about to be released |
| KeyFileServer.KeyDirectory.ReleaseKeyLock | mobile/scripts/mock-server-key-pair.ts:126-133 | releasing ends the call with the selected key, still the one on disk |
| KeyFileServer.KeyDirectory.SelectUnderLock | mobile/scripts/mock-server-key-pair.ts:149-167 | the second read under the lock wins over a new key |
| KeyFileServer.KeyDirectory.LoadOrCreate | mobile/scripts/mock-server-key-pair.ts:135-167 | under any interference the returned key is the one on disk; a key already there is returned when the first read succeeds, and no other key ever is |
| WindowsQuoting.QuoteArgument | native/windows-cli-launcher/OrcaCliLauncher.cs:89-127 | the two loops compute the quoted form |
| WindowsQuoting.BuildArguments | native/windows-cli-launcher/OrcaCliLauncher.cs:78-87 | the quoted path and arguments joined by blanks |
| WindowsQuoting.ParsePlain | native/windows-cli-launcher/OrcaCliLauncher.cs:91-100 | an argument written without quotes parses as itself |
| WindowsQuoting.ParseEscaped | native/windows-cli-launcher/OrcaCliLauncher.cs:102-126 | inside quotes the escaped text parses as the pending backslashes and the value, for any run of backslashes |
| WindowsQuoting.ParseQuoted | native/windows-cli-launcher/OrcaCliLauncher.cs:89-127 | any quoted argument in front of a boundary parses as its value and leaves the rest |
| WindowsQuoting.ParseCommandLine | native/windows-cli-launcher/OrcaCliLauncher.cs:78-127 | parsing the command line gives back the argument list, empty arguments and embedded quotes included |
| WindowsQuoting.RoundTripIff | native/windows-cli-launcher/OrcaCliLauncher.cs:78-127 | what a process receives is the path and the arguments if and only if none contains a NUL |
| RenderedLines.DecimalRoundTrip | native/computer-use-linux/runtime.py:520-523 | a decimal numeral reads back as its number |
| RenderedLines.ElementIndexRoundTrip | native/computer-use-linux/runtime.py:520-523 | the index read from a rendered line is the one it was rendered with |
| TreeRendering.Renderer.Walk | native/computer-use-linux/runtime.py:402-441 | the walk, with compaction on or off, does exactly the acts of the specified walk to records and lines, and sets the flags with it |
| TreeRendering.Renderer.WalkChildren | native/computer-use-linux/runtime.py:402-441 | the same for a node's children |
| TreeRendering.PlainWalk | native/computer-use-linux/runtime.py:402-441 | with compaction off these acts append exactly the first visible elements that fit, as records and lines; the flags say that the walk turned back at the caps, or at the depth |
| TreeRendering.PlainTree | native/computer-use-linux/runtime.py:349-444 | rendering a whole tree without compaction yields the records and lines of its first 1200 visible elements |
| TreeRendering.CompactingTreeIff | native/computer-use-linux/runtime.py:402-478 | from the first row to the last compaction of a compacting walk, records and lines stay together if and only if no compaction drops a tab whose index a line that stays has as well |
| AccessibilityTree.FindByPath | native/computer-use-linux/runtime.py:730-736 | the loop resolves a path, or nothing when an index is out of range |
| AccessibilityTree.VisibleIsFound | native/computer-use-linux/runtime.py:402-441 | every visible element's path resolves from the app to the node it shows, through elided ancestors too |
| AccessibilityTree.VisibleInOrder | native/computer-use-linux/runtime.py:402-441 | visible elements stand in strict pre-order of their paths |
| AccessibilityTree.VisibleIsShown | native/computer-use-linux/runtime.py:397-441 | a visible element is not elided, within the depth limit, and under no hidden children |
| AccessibilityTree.ShownIsVisible | native/computer-use-linux/runtime.py:397-441 | and every such node is visible |
| AccessibilityTree.UncutIsComplete | native/computer-use-linux/runtime.py:402-406 | a walk that set no truncation flag shows every element there is at any depth |
| AccessibilityTree.DeepIsCut | native/computer-use-linux/runtime.py:402-407 | the depth flag is never set without the truncation flag |
| AccessibilityTree.LineCarriesIndex | native/computer-use-linux/runtime.py:408-432 | a rendered line carries its record's index |
| AccessibilityTree.RecordsResolve | native/computer-use-linux/runtime.py:330-346 | with compaction off the k-th record has index k and the k-th line, there are at most 1200, and its runtime id resolves from the app to the very node it was made from |
| AccessibilityTree.RecordsInPreOrder | native/computer-use-linux/runtime.py:402-444 | records stand in pre-order and no two share a runtime id |
| TreeReading.BranchingNodeHasRecord | native/computer-use-linux/runtime.py:397-441 | told by records and paths: where the paths of two records part, the node has a record too, in front of both |
| TreeReading.RecordedNodeMatters | native/computer-use-linux/runtime.py:397-402 | a recorded node has a telling role, a name, id, value or action, a text summary, or two children |
| TreeReading.NoRecordBelow | native/computer-use-linux/runtime.py:436-437 | no record lies below a node that stands for its children |
| TreeReading.TellingNodeHasRecord | native/computer-use-linux/runtime.py:397-441 | when the walk was not truncated, every node with a telling role, name, id, value or action that no node above stands for has a record, however deep |
| TreeReading.TellingNodeWithinLimits | native/computer-use-linux/runtime.py:397-441 | truncated or not, such a node at most 64 levels down has a record unless 1200 nodes that come before it have theirs |
| TreeReading.LineTells | native/computer-use-linux/runtime.py:414-432 | a line shows tabs, index, role and title, and says the value, the actions and the row summary, each behind its own mark |
| TabCompaction.TabLinesExact | native/computer-use-linux/runtime.py:447-458 | the tab lines found are exactly those from the start line on with the tab shape at this depth |
| TabCompaction.RenderedElements.DeleteInactive | native/computer-use-linux/runtime.py:462-475 | deleting from the last to the first removes exactly the inactive lines and collects their indexes and count |
| TabCompaction.RenderedElements.CompactTabs | native/computer-use-linux/runtime.py:447-478 | lines and records in place become the compacted ones, or stay as they are |
| TabCompaction.KeepIsOrderedSelection | native/computer-use-linux/runtime.py:462-475 | the remaining lines are the original ones in order, under exactly the numbers not dropped |
| TabCompaction.KeepCount | native/computer-use-linux/runtime.py:462-476 | as many lines disappear as the marker counts |
| TabCompaction.TabLineDepth | native/computer-use-linux/runtime.py:481-498 | a tab line found at a depth was rendered at that depth |
| TabCompaction.OmittedAreDropped | native/computer-use-linux/runtime.py:462-478 | given unique indexes, an index is omitted exactly when its line is dropped |
| TabCompaction.WithoutOmittedIff | native/computer-use-linux/runtime.py:477-477 | exactly the dropped lines' records are removed if and only if no record of a line that stays shares an index with one of them |
| TabCompaction.CompactionKeepsTogetherIff | native/computer-use-linux/runtime.py:447-478 | one marker with the true count stands where the first tab line stood and all other lines are kept in order; exactly their records are kept, in that order, if and only if no such index is shared |
| TabCompaction.CompactionKeepsAlignment | native/computer-use-linux/runtime.py:447-478 | given unique indexes records and lines therefore stay together, and indexes stay unique, so the next compaction may follow |
| TabCompaction.RecordStaysIff | native/computer-use-linux/runtime.py:477-477 | given unique indexes, a record stays exactly when its line does |
| TabCompaction.MarkerIsNoTab | native/computer-use-linux/runtime.py:478-488 | a marker line never passes for a tab line |
| TabCompaction.CompactionAfterWalk | native/computer-use-linux/runtime.py:402-441 | the first compaction of what a walk left always keeps records and lines together |
| RepeatedCompaction.RowKeepsUniqueIff | native/computer-use-linux/runtime.py:408-414 | a further row keeps indexes unique exactly when no kept record has the number of records as its index |
| RepeatedCompaction.RunStaysMatchedIff | native/computer-use-linux/runtime.py:402-478 | over any sequence of rows and compactions, records and lines stay together throughout if and only if no compaction clashes |
| RepeatedCompaction.SecondStripLosesTab | native/computer-use-linux/runtime.py:408-478 | the run on which two strips of ten tabs share an index and the second compaction removes the first strip's active record while its line stays |
| TabCompaction.CompactionAppliesIff | native/computer-use-linux/runtime.py:447-461 | something is dropped exactly with at least ten tab lines, one active and one inactive |
| TabCompaction.MarkerTellsCount | native/computer-use-linux/runtime.py:478-478 | the number read from a marker line behind its dots is the one it was made with |
| TabCompaction.MarkerIsTrue | native/computer-use-linux/runtime.py:462-478 | and that is the number of lines that have gone |
| TabReading.TabRowIsTabLine | native/computer-use-linux/runtime.py:481-488 | a row whose label is that of a tab, in any case and with or without a state behind it, counts as a tab line whatever else it says |
| TabReading.OtherRowIsNoTabLine | native/computer-use-linux/runtime.py:481-488 | a row whose label begins neither with `tab` nor with `page` does not, at any depth |
| TabReading.ActiveIff | native/computer-use-linux/runtime.py:491-498 | a tab line is active exactly when it says so, or when the last record of its index is selected or has the value 1 |
| BoundedSearch.FirstDescendant | native/computer-use-linux/runtime.py:589-609 | the explicit-stack loop ends on any graph and computes the search |
| BoundedSearch.SearchTestsOnce | native/computer-use-linux/runtime.py:589-609 | each node is tested at most once, at most `max_nodes` in all, and the result is the only tested match, tested last |
| BoundedSearch.SearchOnTrees | native/computer-use-linux/runtime.py:589-609 | from a stack of trees the result is the first match in their joint pre-order within the budget |
| BoundedSearch.SearchOnTree | native/computer-use-linux/runtime.py:589-609 | on a tree the result is the first match among the first `max_nodes` nodes of the depth-limited pre-order |
| BoundedSearch.FirstMatchMeans | native/computer-use-linux/runtime.py:589-609 | what that first match is: nothing before it matches, or nothing at all within the budget |
| BoundedSearch.SearchExhausts | native/computer-use-linux/runtime.py:589-609 | on any graph a search that ends with budget left has covered everything on its stack, and explored each node it visited above the depth limit |
| BoundedSearch.NothingReachableMatches | native/computer-use-linux/runtime.py:589-609 | so when no node with children was met at the depth limit, nothing that can be reached from the root matches |
| BoundedSearch.LimitCanHideMatch | native/computer-use-linux/runtime.py:589-609 | the graph on which a node first met at the depth limit hides a match within it |
| EditDistance.Levenshtein | src/cli/command-suggestion.ts:49-71 | the two swapped rows compute the recursive distance for all strings |
| EditDistance.Symmetric | src/cli/command-suggestion.ts:49-71 | the distance is symmetric |
| EditDistance.ZeroIffEqual | src/cli/command-suggestion.ts:49-71 | zero exactly on equal strings |
| EditDistance.LengthBounds | src/cli/command-suggestion.ts:49-71 | between the difference and the sum of the lengths |
| EditDistance.Triangle | src/cli/command-suggestion.ts:49-71 | triangle inequality |
| EditDistance.NoShorterScript | src/cli/command-suggestion.ts:49-71 | no sequence of insertions, deletions and substitutions is shorter than the distance |
| EditDistance.ShortestScript | src/cli/command-suggestion.ts:49-71 | and one has that length |
| EditDistance.DistanceCountsEdits | src/cli/command-suggestion.ts:49-71 | at most n exactly when at most n edits lead from one string to the other |
| CommandSuggestion.DestructiveVerbs | src/cli/command-suggestion.ts:20-30 | exactly the last words of destructive paths and aliases |
| CommandSuggestion.IntendsDestructionOf | src/cli/command-suggestion.ts:35-42 | true exactly when some such verb is within distance one |
| CommandSuggestion.SuggestCommands | src/cli/command-suggestion.ts:83-110 | the suggestions are the best three, in order and each once, of all permitted candidates of the input's depth at distance one to three |
| CommandSuggestion.RankIsBest | src/cli/command-suggestion.ts:73-80 | filtering, sorting and cutting scored labels yields the best three |
| CommandSuggestion.SortSorts | src/cli/command-suggestion.ts:77-77 | the ranking is an ordered permutation of what it ranks |
| CommandSuggestion.BestIsUnique | src/cli/command-suggestion.ts:73-110 | with a total order on labels there is only one such list |
| CommandSuggestion.DestructiveNeedsIntent | src/cli/command-suggestion.ts:32-42 | a label that only destructive commands answer to is suggested only to an input that reaches for one |
| CommandSuggestion.IntentMeans | src/cli/command-suggestion.ts:13-42 | an input reaches for destruction if and only if its last word is within one edit of the last word of a destructive path or alias |
| CommandSuggestion.NearMeans | src/cli/command-suggestion.ts:83-110 | a label may be suggested if and only if it is at one to three edits and a permitted command has it as the first word of a path, for a one-word input, or else as a whole path of exactly as many words |
| CommandSuggestion.BestMeans | src/cli/command-suggestion.ts:73-110 | the suggestions are at most three, in rank, and any other near label ranks behind three |
| CommandSuggestion.SuggestionsAreWholePaths | src/cli/command-suggestion.ts:94-100 | for an input of several words every suggestion is a whole registered path or alias of as many words |
| ArgumentParser.CommandPathStartsAt | src/cli/args.ts:72-86 | the cursor loop finds a command path behind skipped flags exactly when it is there |
| ArgumentParser.ParseArgs | src/cli/args.ts:88-132 | the token loop computes the parse |
| ArgumentParser.PrintedParsesBack | src/cli/args.ts:88-132 | printing path tokens, then `--k=v` and `--k`, and parsing gives the result back, whatever commands are registered |
| ArgumentParser.ParseKeepsWellFormed | src/cli/args.ts:88-132 | the parser only produces results of that printable form |
| ArgumentParser.ParseIsStable | src/cli/args.ts:88-132 | so printing and parsing any parse again changes nothing |
| ArgumentParser.SpacedReadsAsJoined | src/cli/args.ts:91-129 | behind a command, `--name text` at any position parses as `--name=text`, unless the flag is boolean or the text looks like a flag |
| ArgumentParser.FlagBeforeCommand | src/cli/args.ts:114-121 | a flag in front of a registered command is set without swallowing the command's first word |
| ArgumentParser.SpacedBeforeCommand | src/cli/args.ts:114-129 | in front of the command `--name text` parses like `--name=text`, and only if a command starts at the text and none behind it like `--name` followed by the text |
| ArgumentParser.SpacedBeforeCommandIff | src/cli/args.ts:114-129 | if and only if not (a command starts at the text and none behind it) both forms parse alike, for any rest that does not give the flag again |
| ArgumentParser.SpacedBeforeRegisteredCommand | src/cli/args.ts:114-129 | in particular a flag in front of a registered command takes its value |
| ArgumentParser.GivenAgainHidesIt | src/cli/args.ts:114-129 | an input that shows why the flag must not be given again: what it said first is then lost in both forms |
| ArgumentParser.InterleavedCommandStarts | src/cli/args.ts:72-86 | a command starts wherever its words stand in order, with any flags and their values in front of each |
| ArgumentParser.JoinedSplitsBack | src/cli/flags.ts:31-39 | non-empty NUL-free values joined by the separator split back in order |
| ArgumentParser.RepeatedFlagRoundTripIff | src/cli/args.ts:60-70 | among any command words, other flags and switches, the values given for a repeatable flag come back in order if and only if each is non-empty and NUL-free |
| ArgumentParser.RepeatedAloneRoundTripIff | src/cli/args.ts:60-70 | in particular when the flag, once per value, is all there is |
| ShellWords.TokenizeLeadingShellWords | src/cli/codex-command-classification.ts:86-122 | for a limit of at least one, exactly the first words of the unlimited split; what a limit of zero returns |
| ShellWords.PrintSplitsBack | src/cli/codex-command-classification.ts:86-122 | non-empty words without single quotes, each in single quotes and joined by blanks, split back to themselves |
| ShellWords.LeadingWordsOfPrint | src/cli/codex-command-classification.ts:86-122 | so the leading words of a printed list are its first words |
| ShellWords.WordsAreNotEmpty | src/cli/codex-command-classification.ts:100-120 | no split word is empty |
| ShellWords.SplitIsStable | src/cli/codex-command-classification.ts:86-122 | quoting what was split and splitting again changes nothing |
| ShellWords.WrittenWordsSplitBack | src/cli/codex-command-classification.ts:86-122 | words written with quotes of either kind around any stretch of them and any white space between them split into what they mean |
| ShellWords.OpenQuoteRunsOn | src/cli/codex-command-classification.ts:86-122 | a quote that is never closed runs to the end of the command |
| CodexClassification.StripShellLaunchPrefix | src/cli/codex-command-classification.ts:141-170 | the loops drop assignments, and `env` with its own arguments |
| CodexClassification.FindCodexSubcommand | src/cli/codex-command-classification.ts:190-218 | the loop computes the search whose meaning the next three rows state, and stays within the words |
| CodexClassification.FindsFirstWord | src/cli/codex-command-classification.ts:190-218 | behind any list of flags (alone, with the value as the next word, or with `=`) the search finds the next word, where it stands |
| CodexClassification.FindsNoWord | src/cli/codex-command-classification.ts:190-218 | behind flags and nothing else it finds nothing |
| CodexClassification.FoundBehindFlags | src/cli/codex-command-classification.ts:190-218 | conversely, what it finds as a word stands behind flags only |
| CodexClassification.WordDecides | src/cli/codex-command-classification.ts:220-286 | `codex FLAGS WORD ...` is a session if and only if the word is no one-shot subcommand |
| CodexClassification.BareLaunchIsSession | src/cli/codex-command-classification.ts:220-229 | `codex FLAGS` alone is a session |
| CodexClassification.HelpIsOneShot | src/cli/codex-command-classification.ts:203-206 | a help or version flag behind other flags makes a launch one-shot |
| CodexClassification.PromptIsSession | src/cli/codex-command-classification.ts:198-200 | a word behind `--` is a prompt and starts a session, even if it names a subcommand |
| CodexClassification.LoginWordDecides | src/cli/codex-command-classification.ts:232-250 | `codex FLAGS login FLAGS WORD` is a session unless a token flag, a help flag or a one-shot word stands behind it |
| CodexClassification.CloudWordDecides | src/cli/codex-command-classification.ts:251-266 | `codex FLAGS cloud FLAGS WORD` is one-shot if and only if help or the version is asked for behind it or the word is a one-shot command; bare `cloud` is a session |
| CodexClassification.PrintedCommandDecides | src/cli/codex-command-classification.ts:271-307 | for a printed command line with assignments and `env` in front, both classifiers decide by the first word behind the flags of `codex` |
| CodexClassification.CodexSessionsAreInteractive | src/cli/codex-command-classification.ts:271-307 | whatever the first accepts the second accepts, and among Codex commands nothing else |
| CodexClassification.LaunchPrefixIsTransparent | src/cli/codex-command-classification.ts:141-170 | a printed launch behind assignments, or behind `env` with its assignments, options and `-u NAME` pairs, is classified by the launch alone |
| CodexClassification.NamedIsAssignment | src/cli/codex-command-classification.ts:137-139 | what stands before the first `=` is an assignment exactly when it is an identifier |
| CodexClassification.AgentInAnyDirectory | src/cli/codex-command-classification.ts:124-135 | an agent is recognised by its file name in any case, in any directory, with slashes of either kind |
| CodexClassification.ClaudeArgumentsDecide | src/cli/codex-command-classification.ts:300-307 | a Claude launch is a session exactly when none of its arguments asks for help, the version or a print |
| ResetCredits.MockAccounts.constructor | mobile/scripts/mock-server-account-state.ts:37-51 | the fixture starts with one credit for each account |
| ResetCredits.MockAccounts.ResetMockAccountState | mobile/scripts/mock-server-account-state.ts:53-63 | back to the initial fixture, with no operation and no owner |
| ResetCredits.MockAccounts.SelectMockCodexAccount | mobile/scripts/mock-server-account-state.ts:78-90 | selects null or a known account; anything else changes nothing and is an error |
| ResetCredits.MockAccounts.GetMockCodexResetScope | mobile/scripts/mock-server-account-state.ts:130-137 | a scope is offered exactly while the active account has its credit and a usable date |
| ResetCredits.MockAccounts.ConsumeMockCodexResetCredit | mobile/scripts/mock-server-account-state.ts:139-193 | every branch, errors included, answers and changes state as specified |
| ResetCredits.StepKeepsInv | mobile/scripts/mock-server-account-state.ts:78-193 | every select and consume keeps conservation and the pairing of keys and offers |
| ResetCredits.CreditsAreConserved | mobile/scripts/mock-server-account-state.ts:53-63 | over every run each account's credits plus the resets recorded for it stay one |
| ResetCredits.OwnersInvertOperations | mobile/scripts/mock-server-account-state.ts:177-186 | operation keys and offer owners are in bijection |
| ResetCredits.OnOfferIsUnowned | mobile/scripts/mock-server-account-state.ts:177-181 | the offer on hand never has an owner, so the conflict error cannot arise in one process |
| ResetCredits.RetryRepeatsAnswer | mobile/scripts/mock-server-account-state.ts:156-166 | after any later calls the same key and scope get the first outcome and change nothing |
| ResetCredits.KeyIsBoundToItsScope | mobile/scripts/mock-server-account-state.ts:158-161 | the same key with another scope is refused for ever |
| ResetCredits.OfferIsTakenOnce | mobile/scripts/mock-server-account-state.ts:168-181 | an offer taken up is answered as changed under any other key, for ever |
| ResetCredits.RedeemsIff | mobile/scripts/mock-server-account-state.ts:168-192 | a new key redeems exactly when its scope is the one on offer |
| ResetCredits.UsageFollowsResets | mobile/scripts/mock-server-account-state.ts:44-51 | over every run an account has its first usage until one reset is recorded for it, and then the spent one, a millisecond later and with the same expiry |
| ResetCredits.OfferedIff | mobile/scripts/mock-server-account-state.ts:130-137 | a scope is on offer exactly for the account that the calls of the run selected last, while no reset is recorded for it and its date is a safe integer; and the scope is spelled out |
| TerminalStreams.TerminalBackend.constructor | mobile/scripts/mock-server-terminal-stream.ts:11-12 | no stream at the start |
| TerminalStreams.TerminalBackend.ClearTerminalStream | mobile/scripts/mock-server-terminal-stream.ts:14-21 | stops the registered stream's interval and unregisters it |
| TerminalStreams.TerminalBackend.BeginTerminalStream | mobile/scripts/mock-server-terminal-stream.ts:23-33 | clears the old stream and registers a new one |
| TerminalStreams.TerminalBackend.RespondGuarded | mobile/scripts/mock-server-rpc-handlers.ts:112-124 | a response is sent at once if its guard holds, or queued unconditionally |
| TerminalStreams.TerminalBackend.SubscribeTerminal | mobile/scripts/mock-server-terminal-stream.ts:70-114 | new stream, scrollback, running interval |
| TerminalStreams.TerminalBackend.IntervalCallback | mobile/scripts/mock-server-terminal-stream.ts:98-112 | stops when superseded or out of chunks, else responds with the next chunk |
| TerminalStreams.TerminalBackend.UnsubscribeTerminal | mobile/scripts/mock-server-terminal-stream.ts:124-127 | clears the stream |
| TerminalStreams.TerminalBackend.DeliverQueued | mobile/scripts/mock-server-rpc-handlers.ts:113-117 | a due response is sent only if its guard holds then |
| TerminalStreams.StepKeepsInv | mobile/scripts/mock-server-terminal-stream.ts:14-127 | every step keeps: live intervals are registered ones, and sent plus queued frames make up the stream's script |
| TerminalStreams.AtMostOneInterval | mobile/scripts/mock-server-terminal-stream.ts:9-33 | in every run each socket and terminal has at most one live interval, the registered stream's |
| TerminalStreams.SupersededIsSilent | mobile/scripts/mock-server-terminal-stream.ts:35-37 | a stream that is not current never becomes current and sends nothing more |
| TerminalStreams.NothingAfterTheEnd | mobile/scripts/mock-server-rpc-handlers.ts:112-124 | from any reachable state, no frame of a resubscribed, unsubscribed or disconnected stream is sent, even one queued before |
| TerminalStreams.DeliveredInOrder | mobile/scripts/mock-server-terminal-stream.ts:86-112 | a client sees scrollback and then the chunks from the first on, in order and without a gap, and all of them once the queue is empty |
| TerminalStreams.IntervalsEnd | mobile/scripts/mock-server-terminal-stream.ts:98-112 | each callback lowers a count that nothing else raises |
| TerminalStreams.TicksAreBounded | mobile/scripts/mock-server-terminal-stream.ts:98-112 | in no run does the interval of a stream call back more than six times |
| TerminalStreams.SubscribeStartsStream | mobile/scripts/mock-server-terminal-stream.ts:70-98 | a subscription on an open socket makes a new stream the current one, with a running interval and its scrollback sent or queued |
| TerminalStreams.CurrentStreamSendsAll | mobile/scripts/mock-server-terminal-stream.ts:86-112 | from any reachable state, a stream that is still current has sent or queued its scrollback and one chunk for each callback up to five, without a delay all of it sent, and its interval runs until the sixth callback |
| ChunkGuard.CollectReachableChunks | config/build-plugins/plain-node-entry-guard.ts:76-99 | ends on any import graph with exactly the present chunks reachable by static or dynamic edges, each once |
| ChunkGuard.AssertNoElectronRequire | config/build-plugins/plain-node-entry-guard.ts:101-117 | names an offending chunk if and only if a reachable one matches the test |
| ChunkGuard.ClosedContainsReachable | config/build-plugins/plain-node-entry-guard.ts:76-99 | a set closed under imports contains the end of every path that starts in it |
| ReleaseVersion.FormatParses | mobile/fastlane/ios_release_version.rb:11-23 | a formatted version parses back |
| ReleaseVersion.StripMeans | mobile/fastlane/ios_release_version.rb:6-13 | stripping takes blanks off both ends, and all of them |
| ReleaseVersion.ParsesIff | mobile/fastlane/ios_release_version.rb:4-16 | a text is a version if and only if, stripped, it is three runs of digits with dots between them, and it is those numbers |
| ReleaseVersion.LoopEndsIff | mobile/fastlane/ios_release_version.rb:39-54 | some number of bumps leaves the closed range exactly when the ceiling is not in a later train |
| ReleaseVersion.Resolve | mobile/fastlane/ios_release_version.rb:47-55 | a requested version is used as it is; a bump yields the least version of the current train above both the current version and the ceiling; a version that does not parse is an error |
| ReleaseVersion.LeastAboveIs | mobile/fastlane/ios_release_version.rb:39-54 | the version so described has one patch more than the greater of the two when both are in one train, and than the current one otherwise |

## Left out

- Screens, settings pages, help text, formatters, handler manifests and benchmark scripts: interface and plumbing.
- Sockets, encryption, AT-SPI, clipboard, screenshots and process spawning appear only as atomic steps or opaque values; `waitForPendingWrite` is not modelled.
- File-system calls are atomic: a partly written temporary file is not observable, and an asynchronous rename takes effect between two turns of the JavaScript thread.
- `quitFlushPromise` and `quitFlushStarted` are one flag; the content of the view file is its view, so parsing it back is not modelled.
- KeyFileProtocol.StepKeepsInv: assumes that the one read under the lock does not fail on a valid key; every other call may fail, and `StepKeepsInvIff` proves the assumption exact.
- Key pairs are opaque numbers; base64, file modes, stat details and wait times are not modelled, and neither is the call without a key file.
- ActiveViewLastView.QuitFlushSaves: excludes I/O errors, and flushes that drop an armed timer where memory missed the disk.
- ActiveViewQuit.QuitFlushIsFinal: assumes no further `flushPendingAsync` call after the quit flush has resolved, as such a call may write again; calls before that only join.
- KeyFileProtocol.FaultFreeRunsProduceAKey: assumes no lock file at the start, because a stale lock makes every process throw.
- CommandSuggestion.SuggestCommands: the built-in sort is a stable insertion sort as a function, and `localeCompare` any total preorder; flag suggestions use the same ranking and are left out.
- ReleaseVersion.Resolve: asks that the loop ends, by the condition that `LoopEndsIff` proves exact; `max_version` is not modelled.
- ShellWords.PrintSplitsBack: is stated in one direction; when words that contain single quotes happen to split back is not characterised.
- CodexClassification.LaunchPrefixIsTransparent: is about printed word lists within the limit of 32; case folding is that of ASCII letters.
- TerminalStreams.DeliveredInOrder: the delay is that of the subscribe method, one for the whole run, so that the timers of a stream come due in order; frames are their kind and index, not their text, and the unguarded acknowledgements are left out.
- ResetCredits.CreditsAreConserved: scopes are compared as the fields their serialization shows; the Claude account and the snapshot view are left out.
- TreeRendering.CompactingTreeIff: the index-based lookup of a tab's record, which decides activity, is that of the code, so a shared index may also change which tabs count as active.
- Text snippets, role names and whitespace collapsing of accessibility nodes are attributes of a node; tab patterns use ASCII digits and letters; frames and handles of records are left out.
- BoundedSearch.FirstDescendant: nodes are stable identities, while the original remembers the addresses of wrapper objects that nothing keeps alive, so an address may be reused.
- The `require('electron')` pattern is a predicate parameter of the chunk guard; the smoke load of the daemon is left out.
- Flag getters other than the repeated and optional string ones, `normalizeCommandPositionals` and command validation: short lookups.
- .NET and JavaScript strings are sequences of characters; lone surrogates are not represented.
