/** When a single reconcile call reaches a fixed point, read off the state before the
    modules are handled. */
module OneCall {
  import opened Convergence
  import opened PatchTypes
  import opened Reconciling
  import opened Sequences

  predicate HasMarker(meta: PatchMeta) {
    meta.verifyMarker != "" && CheckFile(meta) != ""
  }

  /** The tree after the restore that a changed source, or a cold start, brings about. */
  function OwnTree(upstream: Tree, w: World, cold: bool, pm: PatchModule): Tree {
    if pm.meta.name in w.patches then RestoreFrom(upstream, w.ui, Elements(w.patches[pm.meta.name].written))
    else if cold then ResetCommon(upstream, w.ui, Elements(pm.meta.files))
    else w.ui
  }

  /** The current source is on record, or the marker is gone already and the module is
      going to be reset altogether. */
  predicate NothingPending(w: World, pm: PatchModule) {
    pm.meta.name in w.patches && (!ShaChanged(w.patches, pm) || MarkerLost(w.ui, pm.meta))
  }

  /** One handling of `pm` is enough: either nothing is pending, or the marker outlives the
      restore of the module's own files, or nothing would be left to restore. */
  ghost predicate DoneAtOnce(upstream: Tree, w: World, cold: bool, pm: PatchModule) {
    var tree := OwnTree(upstream, w, cold, pm);
    NothingPending(w, pm) || !MarkerLost(tree, pm.meta) || AtUpstream(upstream, tree, pm.meta.files)
  }

  /** For one module the condition is exact without any further assumption. */
  lemma StepSettlesIff(upstream: Tree, w: World, cold: bool, pm: PatchModule)
    ensures Settled(upstream, ReconcileModule(upstream, w, cold, pm), pm) <==> DoneAtOnce(upstream, w, cold, pm)
  {
    if NothingPending(w, pm) {
      if MarkerBroken(w.ui, w.patches, pm) {
        BrokenMarkerResets(upstream, w, cold, pm);
        hide MarkerLost, ReconcileModule;
      } else {
        assert ReconcileModule(upstream, w, cold, pm) == w;
      }
    } else {
      PendingStep(upstream, w, cold, pm);
      hide MarkerLost, ReconcileModule, OwnTree, AtUpstream;
    }
  }

  lemma PendingStep(upstream: Tree, w: World, cold: bool, pm: PatchModule)
    requires !NothingPending(w, pm)
    ensures var next := ReconcileModule(upstream, w, cold, pm);
            && next.ui == OwnTree(upstream, w, cold, pm)
            && pm.meta.name in next.patches
            && (var entry := next.patches[pm.meta.name];
                entry.written == [] && entry.status == "pending" && entry.sourceSha == pm.sha)
  {
    hide MarkerLost, AtUpstream;
  }

  // ---- Any number of modules ----

  /** Nobody, in this call, restores the check file of another module with a marker. */
  predicate CheckFilesSpared(upstream: Tree, w: World, cold: bool, modules: seq<PatchModule>) {
    forall i, j :: 0 <= i < |modules| && 0 <= j < |modules| && i != j && HasMarker(modules[i].meta) ==>
      CheckFile(modules[i].meta) !in ToRestore(upstream, w, cold, modules[j])
  }

  /** What the modules restore, each looked at in the state before any of them is handled. */
  function AllRestored(upstream: Tree, w: World, cold: bool, modules: seq<PatchModule>): set<Path>
    decreases modules
  {
    if modules == [] then {}
    else ToRestore(upstream, w, cold, modules[0]) + AllRestored(upstream, w, cold, modules[1..])
  }

  function FinalTree(upstream: Tree, w: World, cold: bool, modules: seq<PatchModule>): Tree {
    RestoreFrom(upstream, w.ui, AllRestored(upstream, w, cold, modules))
  }

  function HandledEntry(w: World, pm: PatchModule): PatchEntry {
    if pm.meta.name !in w.patches then Fresh(pm)
    else if ShaChanged(w.patches, pm) || MarkerBroken(w.ui, w.patches, pm) then
      w.patches[pm.meta.name].(written := [], sourceSha := pm.sha, status := "pending")
    else w.patches[pm.meta.name]
  }

  lemma SameMarkerLost(upstream: Tree, ui: Tree, done: set<Path>, meta: PatchMeta)
    requires HasMarker(meta) ==> CheckFile(meta) !in done
    ensures MarkerLost(RestoreFrom(upstream, ui, done), meta) <==> MarkerLost(ui, meta)
  {
    hide CheckFile, Contains;
  }

  lemma RestoreInTurn(upstream: Tree, ui: Tree, files: set<Path>, done: set<Path>)
    ensures RestoreFrom(upstream, ui, set rel | rel in files && Diverges(upstream, ui, rel)) ==
            ResetCommon(upstream, ui, files)
    ensures ResetCommon(upstream, RestoreFrom(upstream, ui, done), files) ==
            RestoreFrom(upstream, ResetCommon(upstream, ui, files), done)
  {
  }

  /** Handling `pm` later on, after `done` has been restored, comes to the same. */
  lemma HandledLater(upstream: Tree, w: World, s: World, cold: bool, done: set<Path>, pm: PatchModule)
    requires s.ui == RestoreFrom(upstream, w.ui, done)
    requires pm.meta.name in s.patches <==> pm.meta.name in w.patches
    requires pm.meta.name in w.patches ==> s.patches[pm.meta.name] == w.patches[pm.meta.name]
    requires HasMarker(pm.meta) ==> CheckFile(pm.meta) !in done
    ensures var next := ReconcileModule(upstream, s, cold, pm);
            && next.ui == RestoreFrom(upstream, w.ui, done + ToRestore(upstream, w, cold, pm))
            && next.patches == s.patches[pm.meta.name := HandledEntry(w, pm)]
  {
    SameMarkerLost(upstream, w.ui, done, pm.meta);
    var before := ToRestore(upstream, w, cold, pm);
    RestoreTwice(upstream, w.ui, done, before);
    if pm.meta.name in w.patches {
      hide MarkerLost, RestoreFrom;
      assert ToRestore(upstream, s, cold, pm) == before;
      assert before == {} ==> done + before == done;
    } else {
      FreshLater(upstream, w, s, cold, done, pm);
    }
  }

  lemma FreshLater(upstream: Tree, w: World, s: World, cold: bool, done: set<Path>, pm: PatchModule)
    requires s.ui == RestoreFrom(upstream, w.ui, done)
    requires pm.meta.name !in s.patches && pm.meta.name !in w.patches
    ensures ReconcileModule(upstream, s, cold, pm).ui ==
            RestoreFrom(upstream, w.ui, done + ToRestore(upstream, w, cold, pm))
  {
    hide RestoreFrom, MarkerLost, ShaChanged;
    var files := Elements(pm.meta.files);
    var before, now := ToRestore(upstream, w, cold, pm), ToRestore(upstream, s, cold, pm);
    assert before == if cold then set rel | rel in files && Diverges(upstream, w.ui, rel) else {};
    assert now == if cold then set rel | rel in files && Diverges(upstream, s.ui, rel) else {};
    hide ToRestore;
    if cold {
      RestoreInTurn(upstream, w.ui, files, done);
      RestoreInTurn(upstream, s.ui, files, done);
      RestoreTwice(upstream, w.ui, before, done);
      assert before + done == done + before;
    } else {
      RestoreNothing(upstream, s.ui);
      assert done + {} == done;
    }
  }

  lemma RestoreNothing(upstream: Tree, ui: Tree)
    ensures RestoreFrom(upstream, ui, {}) == ui
  {
  }

  /** Restoring `done` and handling others has changed no entry and no check file of these. */
  ghost predicate StillToHandle(w: World, s: World, done: set<Path>, modules: seq<PatchModule>) {
    forall i :: 0 <= i < |modules| ==>
      && (modules[i].meta.name in s.patches <==> modules[i].meta.name in w.patches)
      && (modules[i].meta.name in w.patches ==> s.patches[modules[i].meta.name] == w.patches[modules[i].meta.name])
      && (HasMarker(modules[i].meta) ==> CheckFile(modules[i].meta) !in done)
  }

  ghost predicate HandledEach(w: World, patches: Patches, modules: seq<PatchModule>) {
    forall i :: 0 <= i < |modules| ==>
      modules[i].meta.name in patches && patches[modules[i].meta.name] == HandledEntry(w, modules[i])
  }

  /** If check files are spared, the modules leave what each of them would leave by itself. */
  lemma {:induction false} HandledAll(
    upstream: Tree, w: World, s: World, cold: bool, done: set<Path>, modules: seq<PatchModule>)
    requires DistinctNames(modules) && CheckFilesSpared(upstream, w, cold, modules)
    requires s.ui == RestoreFrom(upstream, w.ui, done) && StillToHandle(w, s, done, modules)
    ensures var after := ReconcileModules(upstream, s, cold, modules);
            && after.ui == RestoreFrom(upstream, w.ui, done + AllRestored(upstream, w, cold, modules))
            && HandledEach(w, after.patches, modules)
    decreases modules
  {
    if modules != [] {
      var pm, rest := modules[0], modules[1..];
      var next, restored := ReconcileModule(upstream, s, cold, pm), ToRestore(upstream, w, cold, pm);
      var later := AllRestored(upstream, w, cold, rest);
      Unfolded(upstream, w, s, cold, modules);
      hide *;
      FirstToHandle(w, s, done, modules);
      HandledLater(upstream, w, s, cold, done, pm);
      RestStaysSpared(upstream, w, cold, modules);
      RestToHandle(upstream, w, s, next, cold, done, modules);
      HandledAll(upstream, w, next, cold, done + restored, rest);
      EntryStays(upstream, next, cold, rest, pm.meta.name);
      assert done + restored + later == done + (restored + later);
      HandledOneMore(w, ReconcileModules(upstream, next, cold, rest).patches, modules);
    } else {
      assert done + {} == done;
    }
  }

  lemma EntryStays(upstream: Tree, w: World, cold: bool, modules: seq<PatchModule>, name: string)
    requires name in w.patches && name !in Names(modules)
    ensures var after := ReconcileModules(upstream, w, cold, modules).patches;
            name in after && after[name] == w.patches[name]
  {
    hide *;
    ModulesKeepBooks(upstream, w, cold, modules);
  }

  lemma Unfolded(upstream: Tree, w: World, s: World, cold: bool, modules: seq<PatchModule>)
    requires modules != [] && DistinctNames(modules)
    ensures DistinctNames(modules[1..]) && modules[0].meta.name !in Names(modules[1..])
    ensures ReconcileModules(upstream, s, cold, modules) ==
            ReconcileModules(upstream, ReconcileModule(upstream, s, cold, modules[0]), cold, modules[1..])
    ensures AllRestored(upstream, w, cold, modules) ==
            ToRestore(upstream, w, cold, modules[0]) + AllRestored(upstream, w, cold, modules[1..])
  {
    hide ReconcileModule, ToRestore;
  }

  lemma HandledOneMore(w: World, patches: Patches, modules: seq<PatchModule>)
    requires modules != [] && HandledEach(w, patches, modules[1..])
    requires modules[0].meta.name in patches && patches[modules[0].meta.name] == HandledEntry(w, modules[0])
    ensures HandledEach(w, patches, modules)
  {
    hide HandledEntry;
    assert modules == [modules[0]] + modules[1..];
  }

  lemma FirstToHandle(w: World, s: World, done: set<Path>, modules: seq<PatchModule>)
    requires modules != [] && StillToHandle(w, s, done, modules)
    ensures var pm := modules[0];
            && (pm.meta.name in s.patches <==> pm.meta.name in w.patches)
            && (pm.meta.name in w.patches ==> s.patches[pm.meta.name] == w.patches[pm.meta.name])
            && (HasMarker(pm.meta) ==> CheckFile(pm.meta) !in done)
  {
    hide HasMarker, CheckFile;
  }

  lemma RestToHandle(
    upstream: Tree, w: World, s: World, next: World, cold: bool, done: set<Path>, modules: seq<PatchModule>)
    requires modules != [] && DistinctNames(modules) && CheckFilesSpared(upstream, w, cold, modules)
    requires StillToHandle(w, s, done, modules)
    requires next.patches == s.patches[modules[0].meta.name := HandledEntry(w, modules[0])]
    ensures StillToHandle(w, next, done + ToRestore(upstream, w, cold, modules[0]), modules[1..])
  {
    hide HasMarker, CheckFile, ToRestore, HandledEntry;
    var rest := modules[1..];
    assert forall i :: 0 <= i < |rest| ==> rest[i] == modules[i + 1];
  }

  lemma RestStaysSpared(upstream: Tree, w: World, cold: bool, modules: seq<PatchModule>)
    requires modules != [] && CheckFilesSpared(upstream, w, cold, modules)
    ensures CheckFilesSpared(upstream, w, cold, modules[1..])
  {
    hide ToRestore, CheckFile, HasMarker;
    assert forall i :: 0 <= i < |modules[1..]| ==> modules[1..][i] == modules[i + 1];
  }

  lemma {:induction false} RestoredBySome(
    upstream: Tree, w: World, cold: bool, modules: seq<PatchModule>, rel: Path)
    ensures rel in AllRestored(upstream, w, cold, modules) <==>
            exists i :: 0 <= i < |modules| && rel in ToRestore(upstream, w, cold, modules[i])
    decreases modules
  {
    hide ToRestore;
    if modules != [] {
      RestoredBySome(upstream, w, cold, modules[1..], rel);
      if j :| 0 <= j < |modules[1..]| && rel in ToRestore(upstream, w, cold, modules[1..][j]) {
        assert modules[1..][j] == modules[j + 1];
      }
      if i :| 0 <= i < |modules| && rel in ToRestore(upstream, w, cold, modules[i]) {
        assert i > 0 ==> modules[1..][i - 1] == modules[i];
      }
    }
  }

  /** The tree of all restores shows a module the same marker as its own restore does. */
  lemma FinalMarker(upstream: Tree, w: World, cold: bool, modules: seq<PatchModule>, i: nat)
    requires CheckFilesSpared(upstream, w, cold, modules) && i < |modules|
    ensures var own := ToRestore(upstream, w, cold, modules[i]);
            && own <= AllRestored(upstream, w, cold, modules)
            && (MarkerLost(FinalTree(upstream, w, cold, modules), modules[i].meta) <==>
                MarkerLost(RestoreFrom(upstream, w.ui, own), modules[i].meta))
  {
    var own, all := ToRestore(upstream, w, cold, modules[i]), AllRestored(upstream, w, cold, modules);
    forall rel | rel in own
      ensures rel in all
    {
      RestoredBySome(upstream, w, cold, modules, rel);
    }
    RestoreTwice(upstream, w.ui, own, all - own);
    assert own + (all - own) == all;
    RestoredBySome(upstream, w, cold, modules, CheckFile(modules[i].meta));
    hide ToRestore, RestoreFrom, MarkerLost, AllRestored;
    SameMarkerLost(upstream, RestoreFrom(upstream, w.ui, own), all - own, modules[i].meta);
  }

  /** As `DoneAtOnce`, but what is left to restore is looked for in the tree of all restores. */
  ghost predicate DoneTogether(upstream: Tree, w: World, cold: bool, modules: seq<PatchModule>, pm: PatchModule) {
    || NothingPending(w, pm)
    || !MarkerLost(OwnTree(upstream, w, cold, pm), pm.meta)
    || AtUpstream(upstream, FinalTree(upstream, w, cold, modules), pm.meta.files)
  }

  lemma MoreIsAtUpstream(upstream: Tree, ui: Tree, rels: set<Path>, more: set<Path>, files: seq<Path>)
    requires rels <= more
    ensures AtUpstream(upstream, RestoreFrom(upstream, ui, rels), files) ==>
              AtUpstream(upstream, RestoreFrom(upstream, ui, more), files)
    ensures Elements(files) <= more ==> AtUpstream(upstream, RestoreFrom(upstream, ui, more), files)
  {
  }

  /** What a module's step restores, by itself. */
  lemma OwnStep(upstream: Tree, w: World, cold: bool, pm: PatchModule)
    ensures var own := ToRestore(upstream, w, cold, pm);
            && (!NothingPending(w, pm) ==> RestoreFrom(upstream, w.ui, own) == OwnTree(upstream, w, cold, pm))
            && (NothingPending(w, pm) && MarkerLost(w.ui, pm.meta) ==> Elements(pm.meta.files) <= own)
            && (NothingPending(w, pm) && !MarkerLost(w.ui, pm.meta) ==> RestoreFrom(upstream, w.ui, own) == w.ui)
  {
    if NothingPending(w, pm) {
      hide MarkerLost;
    } else {
      PendingStep(upstream, w, cold, pm);
      hide MarkerLost, OwnTree;
      assert ToRestore(upstream, w, cold, pm) == {} ==> RestoreFrom(upstream, w.ui, {}) == w.ui;
    }
  }

  lemma SettledIffDoneTogether(
    upstream: Tree, w: World, cold: bool, modules: seq<PatchModule>, i: nat, after: World)
    requires CheckFilesSpared(upstream, w, cold, modules) && i < |modules|
    requires after.ui == FinalTree(upstream, w, cold, modules)
    requires modules[i].meta.name in after.patches
    requires after.patches[modules[i].meta.name] == HandledEntry(w, modules[i])
    ensures Settled(upstream, after, modules[i]) <==> DoneTogether(upstream, w, cold, modules, modules[i])
  {
    var pm := modules[i];
    var own, all := ToRestore(upstream, w, cold, pm), AllRestored(upstream, w, cold, modules);
    OwnStep(upstream, w, cold, pm);
    FinalMarker(upstream, w, cold, modules, i);
    MoreIsAtUpstream(upstream, w.ui, own, all, pm.meta.files);
    assert !ShaChanged(after.patches, pm);
    hide ToRestore, AllRestored, MarkerLost, OwnTree, RestoreFrom, AtUpstream, Elements;
  }

  /** For any number of modules, listed or not, cold or warm, where no module's check file is
      restored on behalf of another: the state one call leaves is a fixed point if and only if
      no module needs more, looked at in the state that the sweep and the orphans leave. */
  lemma OneCallSufficesIff(upstream: Tree, w: World, modules: seq<PatchModule>, failed: set<string>)
    requires DistinctNames(modules) && modules != []
    requires var swept := Swept(upstream, w, modules, failed);
             CheckFilesSpared(upstream, swept, swept.patches == map[], modules)
    ensures var swept := Swept(upstream, w, modules, failed);
            Fixed(upstream, Reconciled(upstream, w, modules, failed), modules, failed) <==>
            forall i :: 0 <= i < |modules| ==>
              DoneTogether(upstream, swept, swept.patches == map[], modules, modules[i])
  {
    hide Swept, Reconciled, Fixed, Settled, DoneTogether, CheckFilesSpared, ReconcileModules;
    FixedIffSettled(upstream, w, modules, failed);
    var swept := Swept(upstream, w, modules, failed);
    forall i | 0 <= i < |modules|
      ensures Settled(upstream, Reconciled(upstream, w, modules, failed), modules[i]) <==>
              DoneTogether(upstream, swept, swept.patches == map[], modules, modules[i])
    {
      SettledInTheEndIff(upstream, w, modules, failed, i);
    }
  }

  lemma SettledInTheEndIff(upstream: Tree, w: World, modules: seq<PatchModule>, failed: set<string>, i: nat)
    requires DistinctNames(modules) && i < |modules|
    requires var swept := Swept(upstream, w, modules, failed);
             CheckFilesSpared(upstream, swept, swept.patches == map[], modules)
    ensures var swept := Swept(upstream, w, modules, failed);
            Settled(upstream, Reconciled(upstream, w, modules, failed), modules[i]) <==>
            DoneTogether(upstream, swept, swept.patches == map[], modules, modules[i])
  {
    hide *;
    var swept := Swept(upstream, w, modules, failed);
    var cold, after := swept.patches == map[], Reconciled(upstream, w, modules, failed);
    NothingHandledYet(upstream, w, modules, failed);
    HandledAll(upstream, swept, swept, cold, {}, modules);
    HandledAt(swept, after.patches, modules, i);
    SettledIffDoneTogether(upstream, swept, cold, modules, i, after);
  }

  lemma NothingHandledYet(upstream: Tree, w: World, modules: seq<PatchModule>, failed: set<string>)
    ensures var swept := Swept(upstream, w, modules, failed);
            var cold := swept.patches == map[];
            && Reconciled(upstream, w, modules, failed) == ReconcileModules(upstream, swept, cold, modules)
            && swept.ui == RestoreFrom(upstream, swept.ui, {})
            && StillToHandle(swept, swept, {}, modules)
            && FinalTree(upstream, swept, cold, modules) ==
               RestoreFrom(upstream, swept.ui, {} + AllRestored(upstream, swept, cold, modules))
  {
    hide Swept, ReconcileModules, AllRestored, HasMarker, CheckFile;
    var swept := Swept(upstream, w, modules, failed);
    RestoreNothing(upstream, swept.ui);
    var all := AllRestored(upstream, swept, swept.patches == map[], modules);
    assert {} + all == all;
  }

  lemma HandledAt(w: World, patches: Patches, modules: seq<PatchModule>, i: nat)
    requires HandledEach(w, patches, modules) && i < |modules|
    ensures modules[i].meta.name in patches && patches[modules[i].meta.name] == HandledEntry(w, modules[i])
  {
    hide HandledEntry;
  }

  /** After one call, being settled is all there is to being a fixed point. */
  lemma FixedIffSettled(upstream: Tree, w: World, modules: seq<PatchModule>, failed: set<string>)
    requires DistinctNames(modules) && modules != []
    ensures var after := Reconciled(upstream, w, modules, failed);
            Fixed(upstream, after, modules, failed) <==> AllSettled(upstream, after, modules)
  {
    hide Reconciled, Fixed, AllSettled, Sweepable;
    ReconcileKeepsBooks(upstream, w, modules, failed);
    assert modules[0].meta.name in Names(modules);
    FixedIffQuiet(upstream, Reconciled(upstream, w, modules, failed), modules, failed);
  }

  // ---- Two conditions that do not look at the other modules' restores ----

  /** The files that handling `pm` can restore at all. */
  function Reach(patches: Patches, pm: PatchModule): set<Path> {
    Elements(pm.meta.files) + (if pm.meta.name in patches then Elements(patches[pm.meta.name].written) else {})
  }

  /** Nobody can restore the check file of another module with a marker; sharing any other
      file is no matter. */
  predicate CheckFilesApart(patches: Patches, modules: seq<PatchModule>) {
    forall i, j :: 0 <= i < |modules| && 0 <= j < |modules| && i != j && HasMarker(modules[i].meta) ==>
      CheckFile(modules[i].meta) !in Reach(patches, modules[j])
  }

  lemma ApartIsSpared(upstream: Tree, w: World, modules: seq<PatchModule>, failed: set<string>, cold: bool)
    requires CheckFilesApart(w.patches, modules)
    ensures CheckFilesSpared(upstream, Swept(upstream, w, modules, failed), cold, modules)
  {
    var swept := Swept(upstream, w, modules, failed);
    forall j | 0 <= j < |modules|
      ensures ToRestore(upstream, swept, cold, modules[j]) <= Reach(w.patches, modules[j])
    {
      assert modules[j].meta.name in Names(modules);
      hide MarkerBroken, ShaChanged;
    }
    hide Swept, ToRestore, Reach;
  }

  /** One call is enough if check files are apart and each module is done at once by itself. */
  lemma DoneAtOnceSuffices(upstream: Tree, w: World, modules: seq<PatchModule>, failed: set<string>)
    requires DistinctNames(modules) && modules != [] && CheckFilesApart(w.patches, modules)
    requires var swept := Swept(upstream, w, modules, failed);
             forall i :: 0 <= i < |modules| ==> DoneAtOnce(upstream, swept, swept.patches == map[], modules[i])
    ensures Fixed(upstream, Reconciled(upstream, w, modules, failed), modules, failed)
  {
    var swept := Swept(upstream, w, modules, failed);
    var cold := swept.patches == map[];
    ApartIsSpared(upstream, w, modules, failed, cold);
    hide Swept, Reconciled, Fixed, CheckFilesSpared;
    forall i | 0 <= i < |modules|
      ensures DoneTogether(upstream, swept, cold, modules, modules[i])
    {
      DoneAloneAndTogether(upstream, swept, cold, modules, i);
    }
    OneCallSufficesIff(upstream, w, modules, failed);
  }

  /** No other module can restore anything that decides whether a module is settled. */
  predicate Independent(patches: Patches, modules: seq<PatchModule>) {
    && CheckFilesApart(patches, modules)
    && forall i, j :: 0 <= i < |modules| && 0 <= j < |modules| && i != j && HasMarker(modules[i].meta) ==>
         Elements(modules[i].meta.files) !! Reach(patches, modules[j])
  }

  lemma DoneAloneAndTogether(upstream: Tree, w: World, cold: bool, modules: seq<PatchModule>, i: nat)
    requires CheckFilesSpared(upstream, w, cold, modules) && i < |modules|
    ensures DoneAtOnce(upstream, w, cold, modules[i]) ==> DoneTogether(upstream, w, cold, modules, modules[i])
    ensures (forall j :: 0 <= j < |modules| && j != i && HasMarker(modules[i].meta) ==>
               Elements(modules[i].meta.files) !! ToRestore(upstream, w, cold, modules[j])) ==>
            (DoneTogether(upstream, w, cold, modules, modules[i]) ==> DoneAtOnce(upstream, w, cold, modules[i]))
  {
    var pm := modules[i];
    var own, all := ToRestore(upstream, w, cold, pm), AllRestored(upstream, w, cold, modules);
    OwnStep(upstream, w, cold, pm);
    FinalMarker(upstream, w, cold, modules, i);
    MoreIsAtUpstream(upstream, w.ui, own, all, pm.meta.files);
    hide NothingPending, OwnTree;
    if DoneTogether(upstream, w, cold, modules, pm) && !DoneAtOnce(upstream, w, cold, pm) &&
       forall j :: 0 <= j < |modules| && j != i && HasMarker(pm.meta) ==>
         Elements(pm.meta.files) !! ToRestore(upstream, w, cold, modules[j]) {
      forall rel | rel in pm.meta.files && rel in all
        ensures rel in own
      {
        RestoredBySome(upstream, w, cold, modules, rel);
      }
      hide ToRestore, AllRestored;
      SameWhereSame(upstream, w.ui, own, all, pm.meta.files);
    }
  }

  lemma SameWhereSame(upstream: Tree, ui: Tree, rels: set<Path>, more: set<Path>, files: seq<Path>)
    requires rels <= more && forall rel :: rel in files && rel in more ==> rel in rels
    ensures AtUpstream(upstream, RestoreFrom(upstream, ui, rels), files) <==>
            AtUpstream(upstream, RestoreFrom(upstream, ui, more), files)
  {
  }

  /** For independent modules the condition for each of them looks at that module alone. */
  lemma IndependentModulesIff(upstream: Tree, w: World, modules: seq<PatchModule>, failed: set<string>)
    requires DistinctNames(modules) && modules != [] && Independent(w.patches, modules)
    ensures var swept := Swept(upstream, w, modules, failed);
            Fixed(upstream, Reconciled(upstream, w, modules, failed), modules, failed) <==>
            forall i :: 0 <= i < |modules| ==> DoneAtOnce(upstream, swept, swept.patches == map[], modules[i])
  {
    var swept := Swept(upstream, w, modules, failed);
    var cold := swept.patches == map[];
    ApartIsSpared(upstream, w, modules, failed, cold);
    forall j | 0 <= j < |modules|
      ensures ToRestore(upstream, swept, cold, modules[j]) <= Reach(w.patches, modules[j])
    {
      assert modules[j].meta.name in Names(modules);
      hide MarkerBroken, ShaChanged;
    }
    hide Swept, Reconciled, Fixed, CheckFilesSpared, CheckFilesApart, ToRestore, Reach, HasMarker;
    hide DoneTogether, DoneAtOnce;
    forall i | 0 <= i < |modules|
      ensures DoneTogether(upstream, swept, cold, modules, modules[i]) <==>
              DoneAtOnce(upstream, swept, cold, modules[i])
    {
      DoneAloneAndTogether(upstream, swept, cold, modules, i);
    }
    OneCallSufficesIff(upstream, w, modules, failed);
  }

  lemma {:induction false} HandleInTwoParts(
    upstream: Tree, w: World, cold: bool, front: seq<PatchModule>, back: seq<PatchModule>)
    ensures ReconcileModules(upstream, w, cold, front + back) ==
            ReconcileModules(upstream, ReconcileModules(upstream, w, cold, front), cold, back)
    decreases front
  {
    if front == [] {
      assert front + back == back;
    } else {
      assert (front + back)[1..] == front[1..] + back && (front + back)[0] == front[0];
      HandleInTwoParts(upstream, ReconcileModule(upstream, w, cold, front[0]), cold, front[1..], back);
    }
  }
}
