/** How often reconcile has to be repeated, with the patch set fixed, until nothing changes. */
module Convergence {
  import opened PatchTypes
  import opened Reconciling

  ghost predicate AtUpstream(upstream: Tree, ui: Tree, files: seq<Path>) {
    forall rel :: rel in files && rel in upstream ==> rel in ui && ui[rel] == upstream[rel]
  }

  /** What a broken marker leaves behind; resetting such a module again changes nothing. */
  ghost predicate IsReset(upstream: Tree, w: World, pm: PatchModule) {
    && pm.meta.name in w.patches
    && (var entry := w.patches[pm.meta.name];
        entry.written == [] && entry.status == "pending" && entry.sourceSha == pm.sha)
    && AtUpstream(upstream, w.ui, pm.meta.files)
  }

  ghost predicate Settled(upstream: Tree, w: World, pm: PatchModule) {
    && pm.meta.name in w.patches
    && !ShaChanged(w.patches, pm)
    && (MarkerBroken(w.ui, w.patches, pm) ==> IsReset(upstream, w, pm))
  }

  ghost predicate AllSettled(upstream: Tree, w: World, modules: seq<PatchModule>) {
    forall i :: 0 <= i < |modules| ==> Settled(upstream, w, modules[i])
  }

  /** A test of one state, made without running reconcile. */
  ghost predicate Quiet(upstream: Tree, w: World, modules: seq<PatchModule>, failed: set<string>) {
    && w.patches.Keys <= Names(modules) + failed
    && (w.patches == map[] ==> Sweepable(upstream, w.ui, modules) == {})
    && AllSettled(upstream, w, modules)
  }

  ghost predicate Fixed(upstream: Tree, w: World, modules: seq<PatchModule>, failed: set<string>) {
    Reconciled(upstream, w, modules, failed) == w
  }

  function Iterate(upstream: Tree, w: World, modules: seq<PatchModule>, failed: set<string>, k: nat): World
    decreases k
  {
    if k == 0 then w else Iterate(upstream, Reconciled(upstream, w, modules, failed), modules, failed, k - 1)
  }

  // ---- A state is a fixed point exactly when it is quiet ----

  lemma StepIsIdleIffSettled(upstream: Tree, w: World, cold: bool, pm: PatchModule)
    ensures ReconcileModule(upstream, w, cold, pm) == w <==> Settled(upstream, w, pm)
  {
    var name := pm.meta.name;
    var next := ReconcileModule(upstream, w, cold, pm);
    if name in w.patches && MarkerBroken(w.ui, w.patches, pm) {
      if next == w {
        assert w.patches[name] == next.patches[name];
        forall rel | rel in pm.meta.files && rel in upstream
          ensures rel in w.ui && w.ui[rel] == upstream[rel]
        {
          assert next.ui[rel] == upstream[rel];
        }
      }
    }
  }

  lemma TowardsAntisymmetric(upstream: Tree, a: Tree, b: Tree)
    requires Towards(upstream, a, b) && Towards(upstream, b, a)
    ensures a == b
  {
    forall rel | rel in a
      ensures a[rel] == b[rel]
    {
      assert rel in b;
    }
  }

  lemma {:induction false} SettledModulesStay(upstream: Tree, w: World, cold: bool, modules: seq<PatchModule>)
    requires AllSettled(upstream, w, modules)
    ensures ReconcileModules(upstream, w, cold, modules) == w
    decreases modules
  {
    if modules != [] {
      StepIsIdleIffSettled(upstream, w, cold, modules[0]);
      SettledModulesStay(upstream, w, cold, modules[1..]);
    }
  }

  lemma FirstStepIsIdle(upstream: Tree, w: World, cold: bool, modules: seq<PatchModule>)
    requires DistinctNames(modules) && modules != []
    requires ReconcileModules(upstream, w, cold, modules) == w
    ensures ReconcileModule(upstream, w, cold, modules[0]) == w
  {
    var pm := modules[0];
    var next := ReconcileModule(upstream, w, cold, pm);
    OneModuleOnly(upstream, w, cold, pm);
    assert ReconcileModules(upstream, next, cold, modules[1..]) == w;
    assert pm.meta.name !in Names(modules[1..]);
    hide *;
    ModulesMoveTowards(upstream, next, cold, modules[1..]);
    TowardsAntisymmetric(upstream, w.ui, next.ui);
    ModulesKeepBooks(upstream, next, cold, modules[1..]);
    SamePatches(w.patches, next.patches, pm.meta.name, Names(modules[1..]));
  }

  lemma SamePatches(before: Patches, next: Patches, name: string, rest: set<string>)
    requires next.Keys == before.Keys + {name} && before.Keys == next.Keys + rest
    requires before[name] == next[name]
    requires forall other :: other in before && other != name ==> next[other] == before[other]
    ensures before == next
  {
  }

  lemma OneModuleOnly(upstream: Tree, w: World, cold: bool, pm: PatchModule)
    ensures var next := ReconcileModule(upstream, w, cold, pm);
            && Towards(upstream, w.ui, next.ui)
            && next.patches.Keys == w.patches.Keys + {pm.meta.name}
            && forall name :: name in w.patches && name != pm.meta.name ==> next.patches[name] == w.patches[name]
  {
  }

  lemma {:induction false} UnchangedModulesAreSettled(upstream: Tree, w: World, cold: bool, modules: seq<PatchModule>)
    requires DistinctNames(modules)
    requires ReconcileModules(upstream, w, cold, modules) == w
    ensures AllSettled(upstream, w, modules)
    decreases modules
  {
    if modules != [] {
      var pm := modules[0];
      FirstStepIsIdle(upstream, w, cold, modules);
      StepIsIdleIffSettled(upstream, w, cold, pm);
      hide Settled, ReconcileModule;
      UnchangedModulesAreSettled(upstream, w, cold, modules[1..]);
      assert modules == [pm] + modules[1..];
    }
  }

  lemma NoOrphansToSweep(upstream: Tree, w: World, modules: seq<PatchModule>, failed: set<string>)
    requires w.patches.Keys <= Names(modules) + failed
    requires w.patches == map[] ==> Sweepable(upstream, w.ui, modules) == {}
    ensures Swept(upstream, w, modules, failed) == w
  {
    assert OrphanWrites(w.patches, Names(modules) + failed) == {};
    assert WithoutOrphans(w.patches, Names(modules) + failed) == w.patches;
  }

  lemma SweepLeavesNothing(upstream: Tree, w: World, modules: seq<PatchModule>, failed: set<string>)
    requires w.patches == map[]
    ensures Sweepable(upstream, Swept(upstream, w, modules, failed).ui, modules) == {}
  {
  }

  /** The exact fixed points, for every state; a quiet state is one even if names repeat. */
  lemma FixedIffQuiet(upstream: Tree, w: World, modules: seq<PatchModule>, failed: set<string>)
    ensures Quiet(upstream, w, modules, failed) ==> Fixed(upstream, w, modules, failed)
    ensures DistinctNames(modules) ==> (Fixed(upstream, w, modules, failed) <==> Quiet(upstream, w, modules, failed))
  {
    var swept := Swept(upstream, w, modules, failed);
    var cold := swept.patches == map[];
    if Quiet(upstream, w, modules, failed) {
      NoOrphansToSweep(upstream, w, modules, failed);
      SettledModulesStay(upstream, w, cold, modules);
    }
    if Fixed(upstream, w, modules, failed) && DistinctNames(modules) {
      ReconcileKeepsBooks(upstream, w, modules, failed);
      ModulesMoveTowards(upstream, swept, cold, modules);
      TowardsAntisymmetric(upstream, w.ui, swept.ui);
      assert swept.patches == w.patches;
      if w.patches == map[] {
        SweepLeavesNothing(upstream, w, modules, failed);
      }
      UnchangedModulesAreSettled(upstream, w, cold, modules);
    }
  }

  const OLD_TWIN: PatchModule := PatchModule(PatchMeta("p", [], [], "", ""), "1", _ => Return(false), 0)
  const NEW_TWIN: PatchModule := OLD_TWIN.(sha := "2")

  /** With two modules of one name a fixed point need not be quiet: each call writes the hash
      of the first over that of the second, and back. */
  lemma TwinsAreFixedButNotQuiet(upstream: Tree, ui: Tree)
    ensures var w := World(ui, map["p" := PatchEntry("p", "pending", "2", [])]);
            Fixed(upstream, w, [OLD_TWIN, NEW_TWIN], {}) && !Quiet(upstream, w, [OLD_TWIN, NEW_TWIN], {})
  {
    var w := World(ui, map["p" := PatchEntry("p", "pending", "2", [])]);
    var between := World(ui, map["p" := PatchEntry("p", "pending", "1", [])]);
    var modules := [OLD_TWIN, NEW_TWIN];
    assert "p" in w.patches && "p" in between.patches;
    assert ReconcileModule(upstream, w, false, OLD_TWIN) == between;
    assert ReconcileModule(upstream, between, false, NEW_TWIN) == w;
    assert ShaChanged(w.patches, modules[0]);
    hide ReconcileModule, ShaChanged, Sweepable;
    assert modules[1..] == [NEW_TWIN] && [NEW_TWIN][1..] == [];
    assert ReconcileModules(upstream, w, false, []) == w;
    assert ReconcileModules(upstream, between, false, [NEW_TWIN]) == w;
    assert "p" in Names(modules) by {
      assert modules[0].meta.name == "p";
    }
    NoOrphansToSweep(upstream, w, modules, {});
  }

  // ---- Each further call that changes something resets one more module ----

  /** The state any call leaves: nobody orphaned, everybody listed with the current hash. */
  ghost predicate Calm(w: World, modules: seq<PatchModule>, failed: set<string>) {
    && w.patches.Keys <= Names(modules) + failed
    && Listed(w, modules)
  }

  ghost predicate Listed(w: World, modules: seq<PatchModule>) {
    forall i :: 0 <= i < |modules| ==>
      modules[i].meta.name in w.patches && !ShaChanged(w.patches, modules[i])
  }

  lemma HandledIsListed(upstream: Tree, w: World, cold: bool, pm: PatchModule)
    ensures var next := ReconcileModule(upstream, w, cold, pm);
            pm.meta.name in next.patches && !ShaChanged(next.patches, pm)
  {
    hide ToRestore, MarkerBroken;
  }

  lemma {:induction false} ModulesEndListed(upstream: Tree, w: World, cold: bool, modules: seq<PatchModule>)
    requires DistinctNames(modules)
    ensures Listed(ReconcileModules(upstream, w, cold, modules), modules)
    decreases modules
  {
    if modules != [] {
      var next := ReconcileModule(upstream, w, cold, modules[0]);
      HandledIsListed(upstream, w, cold, modules[0]);
      assert modules == [modules[0]] + modules[1..];
      assert modules[0].meta.name !in Names(modules[1..]);
      hide ReconcileModule, Names;
      ModulesKeepBooks(upstream, next, cold, modules[1..]);
      ModulesEndListed(upstream, next, cold, modules[1..]);
    }
  }

  lemma OneCallCalms(upstream: Tree, w: World, modules: seq<PatchModule>, failed: set<string>)
    requires DistinctNames(modules)
    ensures Calm(Reconciled(upstream, w, modules, failed), modules, failed)
  {
    var swept := Swept(upstream, w, modules, failed);
    ReconcileKeepsBooks(upstream, w, modules, failed);
    ModulesEndListed(upstream, swept, swept.patches == map[], modules);
  }

  lemma {:induction false} ResetPersists(
    upstream: Tree, w: World, cold: bool, modules: seq<PatchModule>, pm: PatchModule)
    requires IsReset(upstream, w, pm)
    requires forall i :: 0 <= i < |modules| && modules[i].meta.name == pm.meta.name ==> modules[i] == pm
    ensures IsReset(upstream, ReconcileModules(upstream, w, cold, modules), pm)
    decreases modules
  {
    if modules != [] {
      var next := ReconcileModule(upstream, w, cold, modules[0]);
      assert Towards(upstream, w.ui, next.ui);
      assert IsReset(upstream, next, pm);
      ResetPersists(upstream, next, cold, modules[1..], pm);
    }
  }

  /** Resetting `pm` for a broken marker leaves it reset. */
  lemma BrokenMarkerResets(upstream: Tree, w: World, cold: bool, pm: PatchModule)
    requires MarkerBroken(w.ui, w.patches, pm)
    ensures IsReset(upstream, ReconcileModule(upstream, w, cold, pm), pm)
  {
  }

  lemma {:induction false} ChangeResetsAModule(
    upstream: Tree, w: World, cold: bool, modules: seq<PatchModule>) returns (i: nat)
    requires DistinctNames(modules) && Listed(w, modules)
    requires ReconcileModules(upstream, w, cold, modules) != w
    ensures i < |modules| && !IsReset(upstream, w, modules[i])
    ensures IsReset(upstream, ReconcileModules(upstream, w, cold, modules), modules[i])
    decreases modules
  {
    StepIsIdleIffSettled(upstream, w, cold, modules[0]);
    if Settled(upstream, w, modules[0]) {
      var j := ChangeResetsAModule(upstream, w, cold, modules[1..]);
      i := j + 1;
    } else {
      i := 0;
      BrokenMarkerResets(upstream, w, cold, modules[0]);
      ResetPersists(upstream, ReconcileModule(upstream, w, cold, modules[0]), cold, modules[1..], modules[0]);
    }
  }

  ghost function Resets(upstream: Tree, w: World, modules: seq<PatchModule>): set<nat> {
    set i: nat | i < |modules| && IsReset(upstream, w, modules[i])
  }

  function Below(n: nat): (s: set<nat>)
    ensures |s| == n && forall i :: i in s <==> 0 <= i < n
  {
    if n == 0 then {} else Below(n - 1) + {n - 1}
  }

  lemma Smaller(a: set<nat>, b: set<nat>)
    requires a < b
    ensures |a| < |b|
  {
    var extra := b - a;
    assert b == a + extra && a !! extra && extra != {};
  }

  lemma ResetsGrow(upstream: Tree, w: World, modules: seq<PatchModule>, failed: set<string>)
    requires DistinctNames(modules) && modules != [] && Calm(w, modules, failed)
    requires !Fixed(upstream, w, modules, failed)
    ensures |Resets(upstream, w, modules)| < |Resets(upstream, Reconciled(upstream, w, modules, failed), modules)|
  {
    assert modules[0].meta.name in w.patches;
    NoOrphansToSweep(upstream, w, modules, failed);
    var next := Reconciled(upstream, w, modules, failed);
    var i := ChangeResetsAModule(upstream, w, false, modules);
    forall j | j in Resets(upstream, w, modules)
      ensures j in Resets(upstream, next, modules)
    {
      ResetPersists(upstream, w, false, modules, modules[j]);
    }
    assert i in Resets(upstream, next, modules) && i !in Resets(upstream, w, modules);
    Smaller(Resets(upstream, w, modules), Resets(upstream, next, modules));
  }

  lemma AllResetIsFixed(upstream: Tree, w: World, modules: seq<PatchModule>, failed: set<string>)
    requires DistinctNames(modules) && modules != [] && Calm(w, modules, failed)
    requires |Resets(upstream, w, modules)| >= |modules|
    ensures Fixed(upstream, w, modules, failed)
  {
    if Resets(upstream, w, modules) < Below(|modules|) {
      Smaller(Resets(upstream, w, modules), Below(|modules|));
    }
    assert Resets(upstream, w, modules) == Below(|modules|);
    forall i | 0 <= i < |modules|
      ensures Settled(upstream, w, modules[i])
    {
      assert i in Below(|modules|);
      assert i in Resets(upstream, w, modules);
    }
    assert modules[0].meta.name in w.patches;
    FixedIffQuiet(upstream, w, modules, failed);
  }

  lemma {:induction false} FixedStays(
    upstream: Tree, w: World, modules: seq<PatchModule>, failed: set<string>, k: nat)
    requires Fixed(upstream, w, modules, failed)
    ensures Iterate(upstream, w, modules, failed, k) == w
    decreases k
  {
    if k > 0 {
      FixedStays(upstream, w, modules, failed, k - 1);
    }
  }

  lemma {:induction false} ConvergesWhileCalm(
    upstream: Tree, w: World, modules: seq<PatchModule>, failed: set<string>, k: nat)
    requires DistinctNames(modules) && modules != [] && Calm(w, modules, failed)
    requires |Resets(upstream, w, modules)| + k >= |modules|
    ensures Fixed(upstream, Iterate(upstream, w, modules, failed, k), modules, failed)
    decreases k
  {
    hide Reconciled;
    if k == 0 {
      AllResetIsFixed(upstream, w, modules, failed);
    } else if Fixed(upstream, w, modules, failed) {
      FixedStays(upstream, w, modules, failed, k);
    } else {
      ResetsGrow(upstream, w, modules, failed);
      OneCallCalms(upstream, w, modules, failed);
      ConvergesWhileCalm(upstream, Reconciled(upstream, w, modules, failed), modules, failed, k - 1);
    }
  }

  lemma ModulesConverge(upstream: Tree, w: World, modules: seq<PatchModule>, failed: set<string>)
    requires DistinctNames(modules) && modules != []
    ensures Fixed(upstream, Iterate(upstream, w, modules, failed, |modules| + 1), modules, failed)
  {
    OneCallCalms(upstream, w, modules, failed);
    ConvergesWhileCalm(upstream, Reconciled(upstream, w, modules, failed), modules, failed, |modules|);
  }

  lemma EmptySetOnce(upstream: Tree, w: World, failed: set<string>)
    ensures var once := Reconciled(upstream, w, [], failed);
            (once.patches == map[] ==> Sweepable(upstream, once.ui, []) == {}) <==>
            (w.patches == map[] || w.patches.Keys * failed != {} || UnownedDivergence(upstream, w) == {})
  {
    var once := Reconciled(upstream, w, [], failed);
    assert Names([]) == {} && Declared([]) == {};
    assert Names([]) + failed == failed;
    assert once == Swept(upstream, w, [], failed);
    if w.patches == map[] {
      SweepLeavesNothing(upstream, w, [], failed);
    } else {
      assert once.patches.Keys == w.patches.Keys * failed;
      if once.patches == map[] {
        assert forall name :: name in w.patches ==> name !in w.patches.Keys * failed;
        assert OrphanWrites(w.patches, failed) == WrittenFiles(w.patches);
        assert Sweepable(upstream, once.ui, []) == UnownedDivergence(upstream, w);
      }
    }
  }

  /** With no modules the bound |modules| + 1 is one call, and it holds except when the
      last orphans go and thereby uncover divergence that nobody owned: the sweep that
      would deal with it only starts from an empty manifest. Two calls always do. */
  lemma EmptyPatchSetConverges(upstream: Tree, w: World, failed: set<string>)
    ensures Fixed(upstream, Reconciled(upstream, w, [], failed), [], failed) <==>
            (w.patches == map[] || w.patches.Keys * failed != {} || UnownedDivergence(upstream, w) == {})
    ensures Fixed(upstream, Iterate(upstream, w, [], failed, 2), [], failed)
  {
    hide Reconciled, Sweepable;
    var once := Reconciled(upstream, w, [], failed);
    var twice := Reconciled(upstream, once, [], failed);
    EmptySetOnce(upstream, w, failed);
    ReconcileKeepsBooks(upstream, w, [], failed);
    FixedIffQuiet(upstream, once, [], failed);
    EmptySetOnce(upstream, once, failed);
    ReconcileKeepsBooks(upstream, once, [], failed);
    FixedIffQuiet(upstream, twice, [], failed);
    assert Iterate(upstream, once, [], failed, 1) == Iterate(upstream, twice, [], failed, 0);
    assert Iterate(upstream, w, [], failed, 2) == twice;
    assert once.patches != map[] ==> once.patches.Keys * failed != {} by {
      if name :| name in once.patches {
        assert name in once.patches.Keys * failed;
      }
    }
  }

  /** An input where one call is not enough: the only listed patch is gone and had written
      nothing, while a file diverges that nobody owned. */
  lemma EmptyPatchSetNeedsTwoCalls()
    ensures var upstream := map["a" := "0"];
            var w := World(map["a" := "1"], map["q" := PatchEntry("q", "applied", "s", [])]);
            !Fixed(upstream, Reconciled(upstream, w, [], {}), [], {})
  {
    var upstream: Tree := map["a" := "0"];
    var w := World(map["a" := "1"], map["q" := PatchEntry("q", "applied", "s", [])]);
    NotIgnored();
    hide IsIgnored;
    assert WrittenFiles(w.patches) == {};
    assert "a" in UnownedDivergence(upstream, w) && "q" in w.patches;
    hide UnownedDivergence, Fixed, Reconciled;
    EmptyPatchSetConverges(upstream, w, {});
  }

  /** The number of calls after which nothing changes any more, whatever the state. */
  function CallBound(modules: seq<PatchModule>): nat {
    if modules == [] then 2 else |modules| + 1
  }

  /** From any state at all, |modules| + 1 calls reach a fixed point of tree and manifest;
      two if there are no modules. */
  lemma Converges(upstream: Tree, w: World, modules: seq<PatchModule>, failed: set<string>)
    requires DistinctNames(modules)
    ensures Fixed(upstream, Iterate(upstream, w, modules, failed, CallBound(modules)), modules, failed)
  {
    if modules == [] {
      EmptyPatchSetConverges(upstream, w, failed);
    } else {
      ModulesConverge(upstream, w, modules, failed);
    }
  }

  ghost function UnownedDivergence(upstream: Tree, w: World): set<Path> {
    set rel | rel in w.ui && Diverges(upstream, w.ui, rel) && !IsIgnored(rel) && rel !in WrittenFiles(w.patches)
  }

  // ---- When one call is enough ----

  ghost predicate LacksDeclaredFile(upstream: Tree, ui: Tree, pm: PatchModule) {
    exists rel :: rel in pm.meta.files && rel in upstream && rel !in ui
  }

  lemma FreshModuleSettled(upstream: Tree, ui: Tree, after: World, pm: PatchModule)
    requires pm.meta.name in after.patches && after.patches[pm.meta.name] == Fresh(pm)
    requires after.ui.Keys == ui.Keys
    requires forall rel :: rel in pm.meta.files && rel in ui && rel in upstream ==> after.ui[rel] == upstream[rel]
    ensures Settled(upstream, after, pm) <==> (MarkerLost(after.ui, pm.meta) ==> !LacksDeclaredFile(upstream, ui, pm))
  {
    hide MarkerLost;
  }

  /** After a cold start a second call changes nothing, except that a module without its
      marker gets the declared files back that were missing from the tree altogether. */
  lemma ColdStartIsFixed(upstream: Tree, ui: Tree, modules: seq<PatchModule>, failed: set<string>)
    requires DistinctNames(modules)
    ensures Fixed(upstream, Reconciled(upstream, World(ui, map[]), modules, failed), modules, failed) <==>
            forall i :: 0 <= i < |modules| && MarkerLost(ColdTree(upstream, ui, modules), modules[i].meta) ==>
              !LacksDeclaredFile(upstream, ui, modules[i])
  {
    var after := Reconciled(upstream, World(ui, map[]), modules, failed);
    ColdStartMatchesUpstream(upstream, ui, modules, failed);
    ColdTreeIsClean(upstream, ui, modules);
    assert after.patches.Keys == Names(modules);
    FixedIffQuiet(upstream, after, modules, failed);
    assert after.patches.Keys <= Names(modules) + failed;
    assert Fixed(upstream, after, modules, failed) <==> AllSettled(upstream, after, modules);
    hide Reconciled, Sweepable, ColdTree, Fresh, Settled, MarkerLost, LacksDeclaredFile, Fixed, IsIgnored;
    forall i | 0 <= i < |modules|
      ensures Settled(upstream, after, modules[i]) <==>
              (MarkerLost(after.ui, modules[i].meta) ==> !LacksDeclaredFile(upstream, ui, modules[i]))
    {
      FreshModuleSettled(upstream, ui, after, modules[i]);
    }
  }

  lemma ColdTreeIsClean(upstream: Tree, ui: Tree, modules: seq<PatchModule>)
    requires DistinctNames(modules)
    ensures Sweepable(upstream, ColdTree(upstream, ui, modules), modules) == {}
    ensures forall i, rel :: 0 <= i < |modules| && rel in modules[i].meta.files && rel in ui && rel in upstream ==>
              ColdTree(upstream, ui, modules)[rel] == upstream[rel]
  {
    DistinctNamesNeverRepeat(modules, {});
    hide IsIgnored, FirstDeclared;
    assert forall i, rel :: 0 <= i < |modules| && rel in modules[i].meta.files ==> rel in Declared(modules);
  }

  /** No later module can restore the file in which an earlier one looks for its marker. */
  ghost predicate Undisturbed(patches: Patches, modules: seq<PatchModule>)
    requires forall i :: 0 <= i < |modules| ==> modules[i].meta.name in patches
  {
    forall i, j :: 0 <= i < j < |modules| && modules[i].meta.verifyMarker != "" ==>
      && CheckFile(modules[i].meta) !in modules[j].meta.files
      && CheckFile(modules[i].meta) !in patches[modules[j].meta.name].written
  }

  lemma {:induction false} UntouchedFile(
    upstream: Tree, w: World, cold: bool, modules: seq<PatchModule>, rel: Path)
    requires DistinctNames(modules) && Listed(w, modules)
    requires forall i :: 0 <= i < |modules| ==>
               rel !in modules[i].meta.files && rel !in w.patches[modules[i].meta.name].written
    ensures var after := ReconcileModules(upstream, w, cold, modules);
            (rel in after.ui <==> rel in w.ui) && (rel in w.ui ==> after.ui[rel] == w.ui[rel])
    decreases modules
  {
    if modules != [] {
      UntouchedFile(upstream, ReconcileModule(upstream, w, cold, modules[0]), cold, modules[1..], rel);
    }
  }

  lemma SameMarker(a: Tree, b: Tree, file: Path, marker: string)
    requires (file in a <==> file in b) && (file in a ==> a[file] == b[file])
    ensures MarkerAbsent(a, file, marker) == MarkerAbsent(b, file, marker)
  {
  }

  lemma UndisturbedModuleStays(upstream: Tree, w: World, cold: bool, pm: PatchModule, rest: seq<PatchModule>)
    requires DistinctNames([pm] + rest) && Listed(w, [pm] + rest) && Undisturbed(w.patches, [pm] + rest)
    requires !MarkerBroken(w.ui, w.patches, pm)
    ensures Settled(upstream, ReconcileModules(upstream, w, cold, rest), pm)
  {
    var modules := [pm] + rest;
    assert forall i :: 0 <= i < |rest| ==> rest[i] == modules[i + 1];
    assert modules[0] == pm && modules[1..] == rest;
    forall i | 0 <= i < |rest|
      ensures rest[i].meta.name != pm.meta.name
      ensures pm.meta.verifyMarker != "" ==>
                CheckFile(pm.meta) !in rest[i].meta.files && CheckFile(pm.meta) !in w.patches[rest[i].meta.name].written
    {
      assert modules[0].meta.name != modules[i + 1].meta.name;
    }
    ModulesKeepBooks(upstream, w, cold, rest);
    hide CheckFile, Undisturbed, ReconcileModules, IsReset, MarkerAbsent;
    if pm.meta.verifyMarker != "" {
      UntouchedFile(upstream, w, cold, rest, CheckFile(pm.meta));
      SameMarker(w.ui, ReconcileModules(upstream, w, cold, rest).ui, CheckFile(pm.meta), pm.meta.verifyMarker);
    }
  }

  lemma RestStaysUndisturbed(upstream: Tree, w: World, cold: bool, pm: PatchModule, rest: seq<PatchModule>)
    requires DistinctNames([pm] + rest) && Listed(w, [pm] + rest) && Undisturbed(w.patches, [pm] + rest)
    ensures var next := ReconcileModule(upstream, w, cold, pm);
            DistinctNames(rest) && Listed(next, rest) && Undisturbed(next.patches, rest)
  {
    var modules := [pm] + rest;
    forall i | 0 <= i < |rest|
      ensures rest[i] == modules[i + 1] && rest[i].meta.name != pm.meta.name
    {
      assert modules[0].meta.name != modules[i + 1].meta.name;
    }
    OneModuleOnly(upstream, w, cold, pm);
    hide ReconcileModule, CheckFile;
    var next := ReconcileModule(upstream, w, cold, pm);
    forall i | 0 <= i < |rest|
      ensures rest[i].meta.name in next.patches && next.patches[rest[i].meta.name] == w.patches[rest[i].meta.name]
      ensures !ShaChanged(next.patches, rest[i])
    {
      assert !ShaChanged(w.patches, modules[i + 1]);
    }
  }

  lemma {:induction false} UndisturbedModulesSettle(
    upstream: Tree, w: World, cold: bool, modules: seq<PatchModule>)
    requires DistinctNames(modules) && Listed(w, modules) && Undisturbed(w.patches, modules)
    ensures AllSettled(upstream, ReconcileModules(upstream, w, cold, modules), modules)
    decreases modules
  {
    if modules != [] {
      var pm, rest := modules[0], modules[1..];
      assert modules == [pm] + rest;
      var next := ReconcileModule(upstream, w, cold, pm);
      RestStaysUndisturbed(upstream, w, cold, pm, rest);
      hide ReconcileModule, MarkerBroken, Settled, IsReset;
      UndisturbedModulesSettle(upstream, next, cold, rest);
      if MarkerBroken(w.ui, w.patches, pm) {
        BrokenMarkerResets(upstream, w, cold, pm);
        ResetPersists(upstream, next, cold, rest, pm);
      } else {
        UndisturbedModuleStays(upstream, w, cold, pm, rest);
      }
    }
  }

  /** One call is enough when every module is already listed with its current hash and no
      later module can restore an earlier one's check file. */
  lemma OneCallSuffices(upstream: Tree, w: World, modules: seq<PatchModule>, failed: set<string>)
    requires DistinctNames(modules) && modules != []
    requires Listed(w, modules) && Undisturbed(w.patches, modules)
    ensures Fixed(upstream, Reconciled(upstream, w, modules, failed), modules, failed)
  {
    var swept := Swept(upstream, w, modules, failed);
    assert modules[0].meta.name in swept.patches;
    forall i | 0 <= i < |modules|
      ensures modules[i].meta.name in swept.patches
    {
    }
    UndisturbedModulesSettle(upstream, swept, false, modules);
    ReconcileKeepsBooks(upstream, w, modules, failed);
    FixedIffQuiet(upstream, Reconciled(upstream, w, modules, failed), modules, failed);
  }
}
