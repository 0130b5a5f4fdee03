# Patch engine, plan digest, scheduler lock and run envelope: a verified model

The project models the parts of the repository that hold real algorithms and state machines:

* **The LobeHub patch engine** (`PatchTypes`, `PatchContexts`, `TopologicalSort`, `Reconciling`, `Handling`, `Convergence`,
  `OneCall`, `Tightness`, `Applying`, `CrashSafety`, `Engines`, `EngineRuns`, `ManifestFiles`, `PatchIntegrity`). Three stores have to agree: the working
  tree, the constant upstream tree and the manifest of who wrote what. A patch is an arbitrary program that talks to
  its context and branches on every answer it gets. `Engines.Engine` has the methods of the source, each proved
  against a function on the pair (tree, manifest); the lemmas are about those functions.
* **The canonical JSON of a plan** (`KeyedLists`, `CanonicalJson`, `JsonStrings`, `OrderIndependence`,
  `OrderDependence`, `TextIsExact`, `DataExact`). Mappings and sets are sequences in iteration order, so that the order is there to be forgotten.
* **The scheduler's file lock** (`SchedulerLock` with whole calls as steps, `SchedulerLockSteps` with every system
  call as a step).
* **The run envelope** of agents and teams (`RunEnvelopes`, `EnvelopeTraces`).
* **Smaller algorithms**: protocol reachability and finding reduction (`ProtocolScan`), the trace migration
  (`TraceMigration`), the directory splitter and test organiser (`DirectorySplit`), the member relay (`MemberRelay`).

## Main results

* Patch engine: `EngineRuns.HarmlessPatchesStaySilent` and `DriftGuardStaysSilent` (ownership over whole runs),
  `EngineRuns.CrashesEndOwnedIff`, `CrashSafety.CrashKeepsOwnershipIff`, `CrashSafety.NamelessKeepsOwnershipIff`,
  `Reconciling.ReconcileEndsOwnedIff`, `Reconciling.ColdStartMatchesUpstream`, `Convergence.FixedIffQuiet`,
  `Convergence.Converges` with `Tightness.BoundIsTight`, `OneCall.OneCallSufficesIff`, `TopologicalSort.Sort`,
  `Handling.IntactPatchesAreLeftAlone` with `FirstDamagedPatchIsReset`, `Applying.ReportsMeanThis`,
  `PatchIntegrity.CaptureIsRightIff`.
* Plan digest: `OrderIndependence.CanonicalTextIgnoresOrder`, `OrderDependence.OrderShowsIffKeysClash`,
  `DataExact.TextTellsData`, `JsonStrings.EscapedIsReadBack`.
* Lock: `SchedulerLock.AcquiredIffExpired`, `YoungHoldersExclude`, `SecondHolderIffOverdue`, `CrashedLockComesBack`,
  `SchedulerLockSteps.GentleRunsExclude` with `LiveReapLeadsToTwoHolders`.
* Envelope: `EnvelopeTraces.BalancedIffQuiet`, `RunEnvelopes.TeamEqualsSimpleEnvelope`, `AgentJournal`.
* Smaller algorithms: `ProtocolScan.InheritsProtocol`, `ProtocolScan.DroppedIsOutdone`, `TraceMigration.Migrate` with
  `NothingElseIsLost`, `StoredFileReplacedIff` and `SecondMigrationIsIdle`, `DirectorySplit.NoTargetOverflows`,
  `MemberRelay.InvokeSequential` with `OutcomeIsDetermined`.

## What the proofs found out about the code

* A patch that lets an exception other than SystemExit escape ends `apply_patches` before the manifest is saved, so
  what the interrupted patches wrote has no owner on record (`EngineRuns.CrashLosesOwnership`). Interrupted calls with
  a patch set end owned under every upstream, tree and manifest if and only if from no tree do its programs crash
  after having changed a file that is not ignored (`EngineRuns.CrashesEndOwnedIff`); programs that never raise, or
  where only the first one does and then before it writes, meet this (`EngineRuns.NeverRaisingIsHarmless`,
  `CrashSafety.EarlyRaisingCrashesClean`). What counts is change, not writing (`CrashSafety.RewritingCrashesClean`).
* A patch whose name is empty keeps ownership exactly if it changes only what is listed already
  (`CrashSafety.NamelessKeepsOwnershipIff`; `EngineRuns.NamelessPatchOwnsNothing` is an input where it does not).
* If names repeat, a cold start ends owned exactly if every divergent declared file that is not ignored is declared by
  the first module of some name, or by a later one that has lost its marker when its turn comes
  (`Reconciling.ColdStartOwnedIff`, `ReconcileEndsOwnedIff`; `EngineRuns.SecondTwinIsOverlooked` is an input where it
  does not).
* One reconcile call is in general not a fixed point. `Convergence.FixedIffQuiet` says exactly which states are. That
  nobody else can restore a module's check file is not enough (`Tightness.SourceChangeNeedsTwoCalls`); for modules
  whose check files are not restored on behalf of another, other files shared or not, `OneCall.OneCallSufficesIff`
  gives the exact condition on the state that the sweep and the orphans leave. For every n there are n modules and an owned state that need the full n + 1
  calls (`Tightness.BoundIsTight`).
* With no modules at all the bound of |modules| + 1 calls fails in one family of states
  (`Convergence.EmptyPatchSetConverges` gives the exact condition, `EmptyPatchSetNeedsTwoCalls` an input); two calls
  are always enough.
* The lock is not exclusive under arbitrary interleaving of its system calls: an empty file, seen between creation and
  the writing of the record, counts as written at time 0 and is reaped (`EmptyFileIsReaped`). It is exclusive as long
  as no reap hits the file of a process at work, and any such reap can lead to two holders (`GentleRunsExclude`,
  `LiveReapLeadsToTwoHolders`).
* Keys that become equal under `str` make the canonical JSON depend on the iteration order, exactly when their values
  differ in text (`OrderShowsIffKeysClash`).
* The Finished event of an agent run that does not converge reports 0 steps although the returned result carries the
  number taken (`FinishedMirrorsResult`). A cancelled team run ends its iteration with the outcome "success"
  (`CancelledTeamReportsSuccess`).
* The migration deletes a doctor report that parses to `null` without embedding it (`DeletedDoctorIsEmbedded`, with
  `NullReportIsLost` as an input). It
  replaces a file that a run's directory already holds exactly if that is the diagnostic file and a flat one with
  other content moves in (`StoredFileReplacedIff`, with `DiagnosticIsOverwritten` as an input), although the script's
  documentation promises not to overwrite. When it fails, it fails again until the plain file in its way is removed
  (`FailureRepeats`), and the doctor files of the runs it has migrated stay behind for good (`DoctorsAreStranded`,
  with `DoctorIsStranded` as an input). The run-id pattern also accepts one final line feed
  (`FinalLineFeedIsAccepted`).
* The integrity check's capture can hold other bytes than the real run leaves for patches that create a file over
  one with other text, that read back what they wrote, or that branch on what a write returned
  (`CreatingOverAFileMisleads`, `ReadingBackMisleads`, `BranchingOnAnswersMisleads` are inputs). Where a patch does
  neither of the last two, the capture is wrong at exactly the paths where no write and no create_file with
  the text that is there came after the last create_file over other text (`CaptureIsRightIff`).

## Model

| member | source | states |
|---|---|---|
| PatchContexts.PatchContext.Record | deploy/lobehub/engine.py:256-264 | a write is recorded once under the running patch, whose entry is created if absent; outside a patch nothing is recorded |
| PatchContexts.PatchContext.ReadText | deploy/lobehub/engine.py:271-275 | reading changes nothing and reports a missing file |
| PatchContexts.PatchContext.WriteText | deploy/lobehub/engine.py:277-281 | the file gets the text and the writer is recorded; tree and manifest otherwise stay |
| PatchContexts.PatchContext.WriteTextIfChanged | deploy/lobehub/engine.py:283-297 | an equal file is neither written nor recorded |
| PatchContexts.PatchContext.Create | deploy/lobehub/engine.py:330-337 | an existing file is neither written nor recorded |
| PatchContexts.PatchContext.Invoke | deploy/lobehub/engine.py:670-678 | running any patch program step by step on the real stores equals its run as a function of tree and manifest |
| PatchContexts.WrittenIsRead | deploy/lobehub/engine.py:271-281 | a patch reads what it wrote, and no other file reads differently |
| PatchContexts.ConditionalWrites | deploy/lobehub/engine.py:283-337 | write_if_changed writes exactly where that changes the tree and says so; create_file writes exactly where no file is there and says so |
| PatchContexts.RecordedLast | deploy/lobehub/engine.py:256-264 | a write is recorded once, last; a new entry is skipped and without a hash; no other entry changes |
| PatchTypes.IgnoredIff | deploy/lobehub/engine.py:783-815 | which paths are ignored, written out |
| TopologicalSort.Sort | deploy/lobehub/engine.py:428-448 | raises exactly if the dependencies among known names have a cycle; otherwise the result holds each known name once, every known direct dependency earlier; a list that is in such an order already is returned as it is |
| TopologicalSort.Sorter.Visit | deploy/lobehub/engine.py:433-444 | the depth-first visit fails only on a real cycle, keeps the result a dependency order, and terminates on the known names not on the stack |
| TopologicalSort.OrderedMeansAcyclic | deploy/lobehub/engine.py:428-448 | an order of all known names with dependencies first exists only if there is no cycle |
| TopologicalSort.Filter | deploy/lobehub/engine.py:451-462 | rejects exactly a cyclic patch set or an unknown name; otherwise orders the requested patches by the dependencies among themselves; what is in order already, all or as requested, stays as it is |
| TopologicalSort.Pick | deploy/lobehub/engine.py:455-461 | the modules with the requested names, in that order, or an unknown name |
| TopologicalSort.SubgraphKeepsPaths | deploy/lobehub/engine.py:455-462 | a selection out of an acyclic patch set is acyclic, so the second sort cannot raise |
| Reconciling.ReconcileMovesTowards | deploy/lobehub/engine.py:501-644 | after reconcile every file is as before or as upstream has it; nothing disappears and files unknown to upstream are untouched |
| Reconciling.ReconcileKeepsBooks | deploy/lobehub/engine.py:527-528 | the final manifest lists exactly the modules plus the old entries that could not be loaded, the latter unchanged unless a module has the name |
| Reconciling.ReconcileEndsOwnedIff | deploy/lobehub/engine.py:530-638 | for any patch set, from an empty manifest and any tree or from an owned state: every divergent file that is not ignored has a recorded writer afterwards, exactly unless it is a cold start and such a file is declared, but neither by the first module of a name nor by a later one that lost its marker |
| Reconciling.ModuleKeepsOwnership | deploy/lobehub/engine.py:584-638 | handling one module never loses the owner of a divergent file, except for declared files that a cold start has yet to reach |
| Handling.ListedPatchIsHandled | deploy/lobehub/engine.py:584-633 | a listed patch: nothing happens if its source is the recorded one and the marker is in the file that verify_file names, or else in the first declared one; otherwise exactly its written files are reset, its declared ones too if the marker is not there, and the entry is pending with the current hash |
| Handling.NewPatchIsHandled | deploy/lobehub/engine.py:604-638 | a patch that is not listed: pending with its hash; only a cold start resets what it declares, where both trees have it |
| Handling.IntactPatchesAreLeftAlone | deploy/lobehub/engine.py:584-644 | a whole call changes neither tree nor manifest if every patch is listed with its hash and has its marker in place |
| Handling.FirstDamagedPatchIsReset | deploy/lobehub/engine.py:584-644 | after a whole call the first patch whose source changed or whose marker is missing is pending, its written files are upstream's, and its declared ones if the marker was missing |
| Handling.OrphansAreReset | deploy/lobehub/engine.py:564-578 | a listed patch nobody provides goes, and what it wrote ends as upstream has it |
| Handling.VerifyFileIsLookedAt | deploy/lobehub/engine.py:592-600 | an input where verify_file is not the first declared file |
| Reconciling.ColdStartMatchesUpstream | deploy/lobehub/engine.py:530-562 | from any tree and an empty manifest, every common file that is not ignored ends equal to upstream, no file comes or goes, and the manifest lists the modules as pending with no writes; the tree is given in closed form |
| Reconciling.ColdStartTree | deploy/lobehub/engine.py:530-624 | the tree after a cold start, for any patch set: reset is what the first module of a name declares, what nobody declares and is not ignored, and what a later module of a name declares if its marker is lost at its turn |
| Reconciling.ColdStartOwnedIff | deploy/lobehub/engine.py:583-633 | the same condition for an empty manifest; being owned and being equal to upstream are then one thing |
| Reconciling.UnmarkedColdStartOwnedIff | deploy/lobehub/engine.py:583-604 | its form when repeated names carry no marker |
| Convergence.FixedIffQuiet | deploy/lobehub/engine.py:582-638 | a state is a fixed point of reconcile exactly if nobody is orphaned, nothing is left to sweep and each module is settled, all of which can be read off the state |
| Convergence.TwinsAreFixedButNotQuiet | deploy/lobehub/engine.py:584-633 | an input where two modules of one name overwrite each other's hash in every call and the state is a fixed point all the same |
| Convergence.ResetsGrow | deploy/lobehub/engine.py:616-633 | the measure: each further call that changes something strictly enlarges the set of modules that a broken marker has reset |
| Convergence.Converges | deploy/lobehub/engine.py:582-638 | from any state, \|modules\| + 1 calls, or two if there are no modules, reach a fixed point of tree and manifest |
| Convergence.EmptyPatchSetConverges | deploy/lobehub/engine.py:530-583 | without modules one call suffices exactly if no orphan removal uncovers unowned divergence; two always do |
| Convergence.EmptyPatchSetNeedsTwoCalls | deploy/lobehub/engine.py:530-583 | an input where one does not |
| OneCall.OneCallSufficesIff | deploy/lobehub/engine.py:582-638 | where no check file is restored on behalf of another module, listed or not, cold or warm: one call reaches a fixed point exactly if each module has nothing pending, or keeps its marker through its own restore, or has all declared files at upstream once all restores are done |
| OneCall.HandledAll | deploy/lobehub/engine.py:584-638 | there the modules together leave what each of them would leave by itself, in closed form |
| OneCall.DoneAtOnceSuffices | deploy/lobehub/engine.py:582-638 | one call is enough if check files are apart and each module by itself is done at once, whatever other files they share |
| OneCall.IndependentModulesIff | deploy/lobehub/engine.py:582-638 | exact, with a condition on each module alone, if no module can restore what another one watches |
| OneCall.StepSettlesIff | deploy/lobehub/engine.py:584-638 | one handling of a module settles it exactly if it is done at once, with no assumption about the others |
| Convergence.OneCallSuffices | deploy/lobehub/engine.py:582-638 | one call is enough if all modules are listed with current hashes and no later module can restore an earlier one's check file |
| Tightness.BoundIsTight | deploy/lobehub/engine.py:582-638 | for every n > 0, n modules and an owned state from which no number of calls up to n reaches a fixed point |
| Tightness.SourceChangeNeedsTwoCalls | deploy/lobehub/engine.py:587-633 | one module with a changed source takes two calls though nobody else touches its check file |
| Convergence.ColdStartIsFixed | deploy/lobehub/engine.py:583-624 | after a cold start a second call changes nothing, exactly unless a module whose marker is not in the cold-start tree, given in closed form, declares a file that upstream has and the tree lacked |
| Applying.ScriptKeepsOwnership | deploy/lobehub/engine.py:256-297 | no program of a patch with a name, whatever it reads, writes or branches on, creates divergence without an owner; with or without a name it drops no recorded file |
| Applying.ApplyKeepsOwnership | deploy/lobehub/engine.py:664-710 | applying any patches with names in any order keeps ownership; entries come only for the applied names and no recorded file is dropped |
| Applying.ScriptKeepsOtherEntries | deploy/lobehub/engine.py:256-264 | a patch never changes another patch's entry |
| Applying.ApplyReportsTruly | deploy/lobehub/engine.py:669-710 | one result for each patch, in order; unless broken, the manifest carries the reported status and the current hash |
| Applying.ReportsMeanThis | deploy/lobehub/engine.py:669-710 | the i-th report is applied iff that program returned True, broken iff it exited, or returned False while a declared marker was not in the file to look in at that moment, and skipped otherwise; the manifest says the same with the current hash, except that an exit leaves status and hash |
| Applying.MissingFileIsBroken | deploy/lobehub/engine.py:680-700 | an input: returning False where the file is missing is reported as broken |
| Engines.Engine.RestoreFromUpstream | deploy/lobehub/engine.py:471-481 | listed files that upstream has become copies of it; nothing else changes, nothing is deleted |
| Engines.Engine.ColdStartSweep | deploy/lobehub/engine.py:530-562 | resets exactly the divergent files that are neither ignored nor declared |
| Engines.Engine.RestoreOrphans | deploy/lobehub/engine.py:564-578 | drops exactly the entries nobody provides, restores what they wrote and reports each once |
| Engines.Engine.ReconcileOne | deploy/lobehub/engine.py:584-638 | the branch for one module, stale source, broken marker, cold divergence and first sight included; the dirty flag is set exactly unless the module is listed, current and has its marker |
| Engines.Engine.Reconcile | deploy/lobehub/engine.py:501-644 | one call refines the specification on tree and stored manifest and reports the sweep if it found anything, or each orphan once; not saving a clean manifest loses nothing |
| Engines.Engine.ApplyPatches | deploy/lobehub/engine.py:650-714 | rejected exactly for a cycle or an unknown name and then changes nothing; otherwise reconcile, then the selected patches; a crash leaves the stored manifest as reconcile saved it |
| Engines.Engine.Conclude | deploy/lobehub/engine.py:680-709 | the status of a patch that returned, with the marker looked for only if it did not apply |
| Engines.Engine.DriftGuard | deploy/lobehub/engine.py:818-874 | reports exactly the uncovered new files, the uncovered divergent files with their hint, and the listed patches with writes that nobody provides |
| EngineRuns.CallEndsOwned | deploy/lobehub/engine.py:650-714 | a reconcile or apply with any patch set ends owned and lists only provided or unloadable patches, also when it is interrupted after changing only files that are ignored or listed before it |
| EngineRuns.RunsStayConsistent | deploy/lobehub/engine.py:501-714 | the invariant over any sequence of calls, each with its own patch set |
| EngineRuns.DriftGuardStaysSilent | deploy/lobehub/engine.py:832-859 | after any safe run from any tree and an empty manifest, the drift guard reports no modified file and no orphan, only files upstream does not have |
| EngineRuns.HarmlessPatchesStaySilent | deploy/lobehub/engine.py:650-714 | the same from a condition on the patch programs alone, checked before the run |
| EngineRuns.NeverRaisingIsHarmless | deploy/lobehub/engine.py:669-677 | patches that let nothing but SystemExit escape interrupt no call and meet that condition |
| EngineRuns.SelectedIsWellFormed | deploy/lobehub/engine.py:659-660 | the order that apply_patches selects makes a call the run theorems speak of |
| EngineRuns.ReconcileAfterApplyIsIdleIff | deploy/lobehub/engine.py:650-714 | after an apply, reconciling again changes nothing exactly if every module without its marker has nothing left to reset |
| EngineRuns.CrashesEndOwnedIff | deploy/lobehub/engine.py:650-712 | interrupted calls end owned, whatever upstream, tree and manifest, if and only if from no tree do the programs crash after having changed a file that counts |
| CrashSafety.CrashKeepsOwnershipIff | deploy/lobehub/engine.py:669-712 | for one manifest: over all owned states, a crash keeps ownership if and only if from no tree is a file changed before it that is neither listed nor ignored |
| CrashSafety.ApplyIgnoresManifest | deploy/lobehub/engine.py:664-678 | what patches do to the tree, and whether they crash, does not depend on the manifest |
| CrashSafety.NeverRaisingNeverCrashes | deploy/lobehub/engine.py:669-677 | programs that never raise never crash an apply |
| CrashSafety.EarlyRaisingCrashesClean | deploy/lobehub/engine.py:669-677 | a first program that raises only before it writes, followed by programs that never raise, crashes clean |
| CrashSafety.RewritingCrashesClean | deploy/lobehub/engine.py:277-281 | a program that writes back what it read and then raises does no harm |
| EngineRuns.CrashLosesOwnership | deploy/lobehub/engine.py:671-677 | a write followed by an exception other than SystemExit leaves a divergent file without an owner |
| CrashSafety.NamelessKeepsOwnershipIff | deploy/lobehub/engine.py:256-264 | a patch with an empty name keeps ownership, over all owned states with one manifest, if and only if from no tree does it change a file that is neither listed nor ignored |
| EngineRuns.NamelessPatchOwnsNothing | deploy/lobehub/engine.py:257-258 | an input where a patch with an empty name does not keep it |
| EngineRuns.SecondTwinIsOverlooked | deploy/lobehub/engine.py:604-605 | an input where a cold start overlooks the divergence that the second of two patches with one name declares |
| ManifestFiles.SaveThenLoad | deploy/lobehub/engine.py:134-167 | loading a saved manifest gives it back, order included, each entry under the name it is filed under |
| ManifestFiles.SavedForm | deploy/lobehub/engine.py:134-147 | the members of a saved manifest, by name and in order |
| ManifestFiles.MissingMembersLoad | deploy/lobehub/engine.py:150-167 | missing members get their defaults; an empty file loads |
| ManifestFiles.OtherEntriesAreSkipped | deploy/lobehub/engine.py:158-160 | what is not an object among the patches is passed over |
| PatchIntegrity.CaptureContext.Invoke | scripts/check_patch_integrity.py:41-104 | the capturing context touches no file and runs a program as the capture specification says |
| PatchIntegrity.CaptureIsRightIff | scripts/check_patch_integrity.py:56-104 | for programs that do not read what they wrote and ignore the answers of writes, the capture is wrong at exactly the paths where no write and no create_file with the text that is there came after the last create_file over other text, and right throughout if and only if there are none |
| PatchIntegrity.CaptureSimulatesRun | scripts/check_patch_integrity.py:56-104 | for such programs that create only absent files, the capture holds exactly the bytes the real run leaves, which changes nothing else |
| PatchIntegrity.CheckTargets | scripts/check_patch_integrity.py:158-176 | which declared files are missing and which have drifted |
| PatchIntegrity.CleanVerdictIffReapplyIsIdle | scripts/check_patch_integrity.py:158-178 | a clean verdict means exactly that all declared files are there and applying once more leaves each as it is |
| PatchIntegrity.CreatingOverAFileMisleads | scripts/check_patch_integrity.py:102-104 | creating a file over other text: tree and capture differ |
| PatchIntegrity.ReadingBackMisleads | scripts/check_patch_integrity.py:56-63 | copying what was written before: the real run leaves the new text, the capture holds the old |
| PatchIntegrity.BranchingOnAnswersMisleads | scripts/check_patch_integrity.py:65-69 | branching on what a write returned: the capture records a file the real run leaves alone |
| KeyedLists.SortedDictIs | lca/harness/plan.py:309-313 | a dict built from sorted entries: keys strictly ascending, the last value of each key wins |
| KeyedLists.LeIs | lca/harness/plan.py:309-313 | keys are ordered by code point: a prefix first, else by the first difference |
| KeyedLists.SortedIsUnique | lca/harness/plan.py:309-317 | sorting leaves one order where the key determines the value, ties included |
| CanonicalJson.AsDictFlag | lca/harness/plan.py:307-308 | canonicalising a dataclass's fields under the flag is canonicalising what asdict makes of them |
| CanonicalJson.EmbedIsPlain | lca/harness/plan.py:304-318 | on data that is already plain, the canonical form is the plain one |
| CanonicalJson.PlainJsonIsDumps | lca/harness/plan.py:31-36 | canonical_json of data with distinct keys is its sorted dump: canonicalising once more is invisible in the text |
| OrderIndependence.CanonicalTextIgnoresOrder | lca/harness/plan.py:31-42 | values that differ only in the iteration order of mappings and sets, at any depth and with ties, have one text and one digest |
| OrderIndependence.CanonicalTextOfCanonical | lca/harness/plan.py:31-36 | canonical_json of a canonicalised value is canonical_json of the value |
| OrderIndependence.SetText | lca/harness/plan.py:316-317 | the text of a set is determined by the multiset of its elements' texts, since the sort key is that text |
| OrderIndependence.MappingText | lca/harness/plan.py:309-313 | the text of a mapping, from the texts of its entries |
| OrderDependence.OrderShowsIffKeysClash | lca/harness/plan.py:309-313 | all rearrangements of a mapping give one text exactly if entries with equal stringified keys have values with equal text |
| OrderDependence.ClashShows | lca/harness/plan.py:309-313 | any clash of stringified keys with different values has a rearrangement with another text |
| DataExact.TextTellsData | lca/harness/plan.py:31-42 | two values have one canonical text, and so one digest, if and only if they carry the same data: Enums as their scalars, dataclasses as the mappings of their fields, mappings under the text of their keys, tuples and lists item by item, sets up to order; for keys with distinct texts |
| DataExact.SetsMatchUpToOrder | lca/harness/plan.py:316-317 | sets have one text exactly if their elements can be paired with equal data |
| DataExact.TupleItemsCount | lca/harness/plan.py:314-315 | tuples have one text, also with a list, exactly if they agree item by item |
| DataExact.ScalarsLookLike | lca/harness/plan.py:34-36 | the literals of JSON, and quoted strings |
| DataExact.ArraysLookLike | lca/harness/plan.py:34-36 | arrays, with a compact separator |
| DataExact.ObjectsLookLike | lca/harness/plan.py:34-36 | objects, with compact separators |
| JsonStrings.EscapedIsReadBack | lca/harness/plan.py:34-36 | a reader of RFC 8259 strings (section 7) gets back exactly what was written |
| JsonStrings.OnlyTheseAreEscaped | lca/harness/plan.py:34-36 | nothing is escaped but the quotation mark, the reverse solidus and control characters |
| TextIsExact.CanonicalTextIsExact | lca/harness/plan.py:31-36 | equal canonical text exactly for equal canonical data, for keys that clash as well |
| TextIsExact.WriteIsExact | lca/harness/plan.py:31-36 | compact JSON can be read back from the left in one way only |
| TextIsExact.QuoteIsExact | lca/harness/plan.py:31-36 | a quoted and escaped string determines the string and where it ends |
| SchedulerLock.SchedulerFileLock.Acquire | lca/infrastructure/scheduler_file_lock.py:55-87 | succeeds exactly if there is no file, or one that may be unlinked and is older than twice the interval or than 90 minutes, an unreadable one counting as written at time 0; the file then carries the new owner and time, else it is unchanged |
| SchedulerLock.SchedulerFileLock.Release | lca/infrastructure/scheduler_file_lock.py:89-91 | unlinks whatever is there, if permitted |
| SchedulerLock.AcquiredIffExpired | lca/infrastructure/scheduler_file_lock.py:70-86 | the bound in numbers: a record is taken over if and only if its age in ms exceeds 2000 times the interval in seconds, or 5400000, and unlinking is permitted |
| SchedulerLock.YoungHoldersExclude | lca/infrastructure/scheduler_file_lock.py:70-91 | the exclusion with the bound in numbers: while no live holder is older, there are never two |
| SchedulerLock.PromptRunsAreExclusive | lca/infrastructure/scheduler_file_lock.py:70-91 | if every live holder releases within the stale bound, each reachable state has at most one live holder and its time is the one in the file, crashes included |
| SchedulerLock.PromptRunsFromAnyStart | lca/infrastructure/scheduler_file_lock.py:55-91 | from any leftover file, readable or not, and any clock, with nobody holding the lock, no prompt run has two live holders |
| SchedulerLock.SecondHolderIffOverdue | lca/infrastructure/scheduler_file_lock.py:70-86 | a second process gets a held lock exactly when the holder is overdue |
| SchedulerLock.CrashedLockComesBack | lca/infrastructure/scheduler_file_lock.py:70-86 | a crashed holder's lock is granted exactly once its age exceeds 2000 ms times the interval in seconds, or 5400000 ms |
| SchedulerLockSteps.GentleRunsExclude | lca/infrastructure/scheduler_file_lock.py:59-91 | under any interleaving two processes hold the lock together only if some acquire has reaped the file of a process still at work |
| SchedulerLockSteps.LiveReapLeadsToTwoHolders | lca/infrastructure/scheduler_file_lock.py:79-86 | every such reap can be continued to two holders |
| SchedulerLockSteps.EmptyFileIsReaped | lca/infrastructure/scheduler_file_lock.py:60-72 | a run from scratch that gives two holders: the file is read while still empty |
| RunEnvelopes.Journal.RunEnvelope | lca/agent/run_envelope.py:80-146 | the cascade of except clauses, step by step, yields the specified trace and completion for every outcome of the run, the translations and the callbacks |
| RunEnvelopes.Journal.Finally | lca/agent/run_envelope.py:138-146 | the closing events; what a callback raises there replaces what was on its way |
| RunEnvelopes.TeamEqualsSimpleEnvelope | lca/agent/team_handle.py:42-94 | with the team's translations the envelope equals one that only has a generic except clause and cancelled defaults |
| RunEnvelopes.TeamJournal | lca/agent/team_handle.py:42-94 | the Finished event and the outcome of a team's run, written out for every way it can go; the completion passes through |
| RunEnvelopes.AgentJournal | lca/agent/cognitive_agent.py:88-140 | the Finished event and the outcome of an agent's run, written out for success, cancellation, loop obligation, error, any other exception, and a snapshot stamp that raises |
| RunEnvelopes.AgentOutcomeIff | lca/agent/cognitive_agent.py:88-140 | the iteration ends cancelled iff the run was cancelled, in failure iff an error or a loop obligation was raised, and in success on every other exit |
| RunEnvelopes.AgentCompletion | lca/agent/cognitive_agent.py:62-128 | what the caller of an agent's run gets: the failed result of a loop obligation written out, everything else unchanged |
| RunEnvelopes.RaisingTranslationsReplace | lca/agent/run_envelope.py:100-137 | a translation that raises replaces the exception and leaves the default record; one of success is handled in turn |
| RunEnvelopes.OnlyObligationsReturn | lca/agent/run_envelope.py:114-137 | the record is the translation's; only a loop obligation can turn into a result, and without one it is a RuntimeError |
| RunEnvelopes.CancelledTeamReportsSuccess | lca/agent/team_handle.py:59-73 | a cancelled team run is recorded as canceled by its Finished event and as a success by its iteration end |
| EnvelopeTraces.BalancedIffQuiet | lca/agent/run_envelope.py:92-146 | the trace of any tree of nested runs is balanced exactly if no recording callback or emitter raises in a run whose start is on record, however the runs end and whatever the translations do |
| ProtocolScan.InheritsProtocol | scripts/check_protocol_impl.py:219-237 | true exactly if the protocol is reachable from the given bases, cyclic maps included |
| ProtocolScan.DedupSubsets | scripts/check_protocol_impl.py:329-350 | keeps exactly the findings whose method set is maximal within their class, in order |
| ProtocolScan.HasLarger | scripts/check_protocol_impl.py:342-347 | the test for one finding: some sibling has strictly more methods |
| ProtocolScan.DroppedIsOutdone | scripts/check_protocol_impl.py:329-350 | whatever is dropped has a kept finding of the same class with strictly more methods |
| ProtocolScan.DedupIsIdempotent | scripts/check_protocol_impl.py:329-350 | doing it twice is doing it once |
| TraceMigration.DecodeIsExact | scripts/migrate_traces_flat_to_v2_layout.py:52-113 | a file name decodes to a run id and a suffix exactly if it is made of them, so to at most one pair |
| TraceMigration.RunsDirectory.ScanFlatArtifacts | scripts/migrate_traces_flat_to_v2_layout.py:88-113 | finds exactly the flat artifacts |
| TraceMigration.RunsDirectory.BuildPlan | scripts/migrate_traces_flat_to_v2_layout.py:163-215 | which runs get which moves, writes and deletions |
| TraceMigration.RunsDirectory.MoveJournals | scripts/migrate_traces_flat_to_v2_layout.py:227-268 | each planned journal moves into a fresh directory of its run |
| TraceMigration.RunsDirectory.WriteManifests | scripts/migrate_traces_flat_to_v2_layout.py:227-306 | each planned run gets a manifest, with the doctor report if it has one that parses |
| TraceMigration.RunsDirectory.MoveDiagnostics | scripts/migrate_traces_flat_to_v2_layout.py:227-268 | stops at the first run whose name a plain file bears; the diagnostic files planned before it have moved, and nothing else |
| TraceMigration.RunsDirectory.DeleteDoctors | scripts/migrate_traces_flat_to_v2_layout.py:227-268 | the planned doctor files go, no other |
| TraceMigration.Migrate | scripts/migrate_traces_flat_to_v2_layout.py:88-306 | scan, plan and execution together turn the directory into the migrated one described without plan or loops; they fail exactly if a diagnostic file has to go where a plain file is, and then leave all journals and manifests in place, some diagnostics moved and every doctor file |
| TraceMigration.JournalArrives | scripts/migrate_traces_flat_to_v2_layout.py:163-268 | the journal of a run without directory ends at its new place byte for byte, whether or not the migration fails later |
| TraceMigration.DiagnosticArrives | scripts/migrate_traces_flat_to_v2_layout.py:163-268 | so does the diagnostic file of a run that has a directory or gets one, after a migration that does not fail |
| TraceMigration.DeletedDoctorIsEmbedded | scripts/migrate_traces_flat_to_v2_layout.py:271-306 | a deleted report is in its run's manifest exactly if it parses to something other than null |
| TraceMigration.NothingElseIsLost | scripts/migrate_traces_flat_to_v2_layout.py:227-268 | every journal or diagnostic that leaves the flat layout is found under its run with its bytes, on both exits; doctor files leave only on success |
| TraceMigration.StoredFileReplacedIff | scripts/migrate_traces_flat_to_v2_layout.py:227-268 | on both exits a file in an existing directory is replaced exactly if it is the diagnostic file and a flat one with other content has moved in |
| TraceMigration.DiagnosticIsOverwritten | scripts/migrate_traces_flat_to_v2_layout.py:227-268 | an input where the old diagnostic is gone afterwards |
| TraceMigration.DoctorsAreStranded | scripts/migrate_traces_flat_to_v2_layout.py:227-268 | after a failed migration no later one collects the doctor files of the runs that were migrated |
| TraceMigration.FailureRepeats | scripts/migrate_traces_flat_to_v2_layout.py:227-268 | a failed migration leaves what made it fail, so it fails again |
| TraceMigration.DoctorIsStranded | scripts/migrate_traces_flat_to_v2_layout.py:227-268 | an input for both |
| TraceMigration.NullReportIsLost | scripts/migrate_traces_flat_to_v2_layout.py:271-306 | an input where a doctor report is deleted and not embedded |
| TraceMigration.RunIdIs | scripts/migrate_traces_flat_to_v2_layout.py:52-52 | a run id is run_, then 4 to 26 small letters and digits, then at most one line feed |
| TraceMigration.FinalLineFeedIsAccepted | scripts/migrate_traces_flat_to_v2_layout.py:52-52 | a run id with a final line feed is accepted |
| TraceMigration.OthersStay | scripts/migrate_traces_flat_to_v2_layout.py:163-215 | orphans and files that are no flat artifact are left alone, on both exits |
| TraceMigration.SecondMigrationIsIdle | scripts/migrate_traces_flat_to_v2_layout.py:163-268 | migrating again moves, writes and deletes nothing |
| DirectorySplit.HeuristicGroups | scripts/split_oversized_directories.py:69-87 | each file is in exactly one group, the one its key and chunk name, and no group exceeds the cap |
| DirectorySplit.CollectMoves | scripts/split_oversized_directories.py:100-129 | a directory within the cap is left alone; otherwise every file moves once, to its target |
| DirectorySplit.ModuleKey | scripts/split_oversized_directories.py:72-76 | a bucket key is non-empty and has no underscore |
| DirectorySplit.ModuleKeyIs | scripts/split_oversized_directories.py:72-76 | the key is what stands between the leading underscores and the next one, and internal for a stem of underscores |
| DirectorySplit.TestKey | scripts/organize_tests_root.py:24-27 | the same for the test organiser |
| DirectorySplit.TestKeyIs | scripts/organize_tests_root.py:24-27 | the key is the run of small letters and digits after test_, and misc if that is empty |
| DirectorySplit.OtherFilesAreMisc | scripts/organize_tests_root.py:26-27 | a name that does not begin with test_ is misc |
| DirectorySplit.PlanTestMoves | scripts/organize_tests_root.py:30-43 | every test file moves once, to its target, with a cap of 5 |
| DirectorySplit.NoTargetOverflows | scripts/split_oversized_directories.py:69-87 | no target receives more than the cap: bucket and chunk names never collide |
| DirectorySplit.PlansRespectCap | scripts/organize_tests_root.py:30-43 | in any plan of either script, at most cap moves lead to one target |
| DirectorySplit.DigitsAreExact | scripts/split_oversized_directories.py:81-86 | chunk numbers are told apart by their digits |
| DirectorySplit.ChunkNameIs | scripts/split_oversized_directories.py:86-86 | a chunk is named after its key and its number in decimal |
| MemberRelay.InvokeSequential | lca/agent/member_invoke.py:51-96 | exactly a prefix of the members is called, each with the specified task, up to a winner, a failure or the end; the total is the sum of the steps of members that returned |
| MemberRelay.RelayIsDetermined | lca/agent/member_invoke.py:63-96 | two relays over one world agree on every call both make |
| MemberRelay.OutcomeIsDetermined | lca/agent/member_invoke.py:63-96 | the specification fixes which members are called, every task and reply, and the result |
| MemberRelay.FailureIsReported | lca/agent/member_invoke.py:63-79 | the failed result for an empty team or a first member that throws, and the first task, written out |
| MemberRelay.LastResultIsReturned | lca/agent/member_invoke.py:74-96 | otherwise the last result that arrived goes back with the steps of all; the relay ends early exactly on an exception or on a completion that is enough |
| MemberRelay.TaskComesFromLastOutput | lca/agent/member_invoke.py:63-96 | a task is the stripped last non-empty output before it plus handoff when outputs are passed on, and the objective otherwise |
| RunEnvelopes.AgentFailsClosed | lca/agent/cognitive_agent.py:113-128 | an agent that does not converge returns a failed result with an error; every other completion passes through unchanged |
| RunEnvelopes.FinishedMirrorsResult | lca/agent/cognitive_agent.py:62-128 | the Finished event mirrors status, output and error of the returned result; the step count exactly unless a run that did not converge had taken steps |

## Left out

Patch engine:

- Hashing, timestamps, release names, patch discovery by import, the legacy stamp migration, command line and console output are not modelled; a module's hash is a given value.
- The variant of reconcile that discovers patches itself and discards the names that failed to load is not modelled; `Reconcile` takes both as arguments, as apply_patches passes them.
- The early exits for a missing working tree or upstream directory, unreadable files (OSError branches), path aliases and directories in place of files are not modelled; a tree is a map from relative path to text.
- Text and bytes are the same thing here: decoding, encoding and newline translation are left out.
- The manifest is a store of its own; that its file lies in the working tree, under an ignored name, is left out.
- Patch programs end after a number of actions that each module carries and that every theorem leaves arbitrary; programs that never end are not modelled. The string helpers and has_marker are a read followed by computation inside the program.
- Details of result texts and the order in which orphans are reported are left out.
- Convergence.OneCallSuffices: is sufficient, not necessary; OneCall.OneCallSufficesIff is exact where no check file is restored on behalf of another module. Where one is, the only exact statement is FixedIffQuiet, which tests a given state.
- Convergence.FixedIffQuiet: that a fixed point is quiet, and Convergence.ResetsGrow and Convergence.Converges, are stated for distinct names; TwinsAreFixedButNotQuiet is an input with repeated ones where it fails.
- Convergence.ResetsGrow: is stated for distinct names and a patch set that is not empty; the empty one is EmptyPatchSetConverges.
- Convergence.Converges: is stated for distinct names.
- Convergence.ColdStartIsFixed: is stated for distinct names, as FixedIffQuiet is.
- Reconciling.ColdStartMatchesUpstream: is stated for distinct names; ColdStartTree and ColdStartOwnedIff cover any patch set.
- Applying.ScriptKeepsOwnership: keeps ownership for non-empty names; the empty name is NamelessKeepsOwnershipIff.
- Applying.ApplyKeepsOwnership: as ScriptKeepsOwnership.
- ManifestFiles.SaveThenLoad: takes the JSON text round trip and the str and int conversions as given functions that keep strings and integers.

Plan digest:

- The digest is any function of the text. Values json.dumps rejects, Enum members with non-scalar values, dict-like objects inside asdict that are not dicts, and the assembly of the plan payload are left out.
- A number is carried as the literal that json.dumps writes, so float formatting is left out; TextIsExact.CanonicalTextIsExact requires such literals.

Lock:

- SchedulerLockSteps.GentleRunsExclude: the record is written in one step and unlinking is always permitted in this finer model; a refused unlink is in SchedulerLock.
- Clocks: in SchedulerLock one clock gives all times; in SchedulerLockSteps every acquire gets an arbitrary time.

Envelope:

- Sibling runs follow one another; their concurrent interleaving, session presence checks and context variables are left out. The snapshot stamp appears only as something that may raise during the success translation.
- Result fields that do not reach the Finished event are left out.

Smaller algorithms:

- ProtocolScan: parsing the classes, and the heuristic that pairs classes with protocols.
- TraceMigration: hashes, sequence numbers and modification times inside the run manifest, undecodable doctor files and the printed report; a manifest is its run and its doctor report.
- DirectorySplit: user-written group plans, import rewriting and the renames themselves; moves of one directory at a time.
- MemberRelay: the transport, and that the returned result is the same object the member returned.
- Iteration orders of sets and maps that cannot influence an outcome are picked arbitrarily.
