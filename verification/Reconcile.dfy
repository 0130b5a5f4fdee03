/** What one reconcile call does to the tree and the manifest, and what it keeps. */
module Reconciling {
  import opened PatchTypes
  import opened Sequences

  /** Copies every file of `rels` that upstream has over the working tree. */
  function RestoreFrom(upstream: Tree, ui: Tree, rels: set<Path>): Tree {
    ui + (map rel | rel in rels && rel in upstream :: upstream[rel])
  }

  lemma RestoreOneMore(upstream: Tree, ui: Tree, rels: seq<Path>, rel: Path)
    ensures RestoreFrom(upstream, ui, Elements(rels + [rel])) ==
            if rel in upstream then RestoreFrom(upstream, ui, Elements(rels))[rel := upstream[rel]]
            else RestoreFrom(upstream, ui, Elements(rels))
  {
    assert Elements(rels + [rel]) == Elements(rels) + {rel};
    hide Elements;
    RestoreWithOne(upstream, ui, Elements(rels), rel);
  }

  lemma RestoreWithOne(upstream: Tree, ui: Tree, rels: set<Path>, rel: Path)
    ensures RestoreFrom(upstream, ui, rels + {rel}) ==
            if rel in upstream then RestoreFrom(upstream, ui, rels)[rel := upstream[rel]]
            else RestoreFrom(upstream, ui, rels)
  {
  }

  lemma RestoreTwice(upstream: Tree, ui: Tree, a: set<Path>, b: set<Path>)
    ensures RestoreFrom(upstream, RestoreFrom(upstream, ui, a), b) == RestoreFrom(upstream, ui, a + b)
  {
  }

  predicate Diverges(upstream: Tree, ui: Tree, rel: Path) {
    rel in ui && rel in upstream && ui[rel] != upstream[rel]
  }

  /** The files the cold-start sweep resets: divergent, not ignored, declared by nobody. */
  function Sweepable(upstream: Tree, ui: Tree, modules: seq<PatchModule>): set<Path> {
    set rel | rel in ui && Diverges(upstream, ui, rel) && !IsIgnored(rel) && rel !in Declared(modules)
  }

  function OrphanWrites(patches: Patches, current: set<string>): set<Path> {
    set name, rel | name in patches && name !in current && rel in patches[name].written :: rel
  }

  function WithoutOrphans(patches: Patches, current: set<string>): Patches {
    map name | name in patches && name in current :: patches[name]
  }

  predicate ShaChanged(patches: Patches, pm: PatchModule) {
    && pm.meta.name in patches
    && patches[pm.meta.name].sourceSha != ""
    && patches[pm.meta.name].sourceSha != pm.sha
  }

  /** The patch names a marker and a file to look in, and the marker is not there. */
  predicate MarkerLost(ui: Tree, meta: PatchMeta) {
    meta.verifyMarker != "" && CheckFile(meta) != "" && MarkerAbsent(ui, CheckFile(meta), meta.verifyMarker)
  }

  predicate MarkerBroken(ui: Tree, patches: Patches, pm: PatchModule) {
    pm.meta.name in patches && MarkerLost(ui, pm.meta)
  }

  function DeclaredDivergent(upstream: Tree, w: World, cold: bool, pm: PatchModule): set<Path> {
    if cold && pm.meta.name !in w.patches
    then set rel | rel in pm.meta.files && Diverges(upstream, w.ui, rel)
    else {}
  }

  /** The files that handling `pm` resets. */
  function ToRestore(upstream: Tree, w: World, cold: bool, pm: PatchModule): set<Path> {
    var name := pm.meta.name;
    (if name in w.patches && (ShaChanged(w.patches, pm) || MarkerBroken(w.ui, w.patches, pm))
     then Elements(w.patches[name].written) else {}) +
    (if MarkerBroken(w.ui, w.patches, pm) then Elements(pm.meta.files) else {}) +
    DeclaredDivergent(upstream, w, cold, pm)
  }

  function Fresh(pm: PatchModule): PatchEntry {
    PatchEntry(pm.meta.name, "pending", pm.sha, [])
  }

  function ReconcileModule(upstream: Tree, w: World, cold: bool, pm: PatchModule): World {
    var name := pm.meta.name;
    if name !in w.patches then
      World(RestoreFrom(upstream, w.ui, ToRestore(upstream, w, cold, pm)), w.patches[name := Fresh(pm)])
    else if ShaChanged(w.patches, pm) || MarkerBroken(w.ui, w.patches, pm) then
      World(RestoreFrom(upstream, w.ui, ToRestore(upstream, w, cold, pm)),
            w.patches[name := w.patches[name].(written := [], sourceSha := pm.sha, status := "pending")])
    else
      w
  }

  function ReconcileModules(upstream: Tree, w: World, cold: bool, modules: seq<PatchModule>): World
    decreases modules
  {
    if modules == [] then w
    else ReconcileModules(upstream, ReconcileModule(upstream, w, cold, modules[0]), cold, modules[1..])
  }

  function AfterSweep(upstream: Tree, w: World, modules: seq<PatchModule>): Tree {
    if w.patches == map[] then RestoreFrom(upstream, w.ui, Sweepable(upstream, w.ui, modules)) else w.ui
  }

  /** The world once the sweep and the orphans are dealt with. */
  function Swept(upstream: Tree, w: World, modules: seq<PatchModule>, failed: set<string>): World {
    var current := Names(modules) + failed;
    World(RestoreFrom(upstream, AfterSweep(upstream, w, modules), OrphanWrites(w.patches, current)),
          WithoutOrphans(w.patches, current))
  }

  function Reconciled(upstream: Tree, w: World, modules: seq<PatchModule>, failed: set<string>): World {
    var swept := Swept(upstream, w, modules, failed);
    ReconcileModules(upstream, swept, swept.patches == map[], modules)
  }

  // ---- Direction: the tree only moves towards upstream ----

  /** Every file of `after` is as before or as upstream has it; nothing disappears. */
  ghost predicate Towards(upstream: Tree, before: Tree, after: Tree) {
    && before.Keys <= after.Keys
    && (forall rel :: rel in after ==>
          || (rel in before && after[rel] == before[rel])
          || (rel in upstream && after[rel] == upstream[rel]))
  }

  lemma TowardsTransitive(upstream: Tree, a: Tree, b: Tree, c: Tree)
    requires Towards(upstream, a, b) && Towards(upstream, b, c)
    ensures Towards(upstream, a, c)
  {
  }

  lemma {:induction false} ModulesMoveTowards(upstream: Tree, w: World, cold: bool, modules: seq<PatchModule>)
    ensures Towards(upstream, w.ui, ReconcileModules(upstream, w, cold, modules).ui)
    decreases modules
  {
    if modules != [] {
      var next := ReconcileModule(upstream, w, cold, modules[0]);
      ModulesMoveTowards(upstream, next, cold, modules[1..]);
      TowardsTransitive(upstream, w.ui, next.ui, ReconcileModules(upstream, w, cold, modules).ui);
    }
  }

  /** Reconcile only ever copies upstream files; a file upstream does not have is untouched. */
  lemma ReconcileMovesTowards(upstream: Tree, w: World, modules: seq<PatchModule>, failed: set<string>)
    ensures Towards(upstream, w.ui, Reconciled(upstream, w, modules, failed).ui)
    ensures forall rel :: rel !in upstream ==>
              (rel in Reconciled(upstream, w, modules, failed).ui <==> rel in w.ui)
  {
    var swept := Swept(upstream, w, modules, failed);
    ModulesMoveTowards(upstream, swept, swept.patches == map[], modules);
    TowardsTransitive(upstream, w.ui, swept.ui, Reconciled(upstream, w, modules, failed).ui);
  }

  // ---- Bookkeeping of the manifest ----

  lemma ModuleKeepsBooks(upstream: Tree, w: World, cold: bool, pm: PatchModule)
    ensures var next := ReconcileModule(upstream, w, cold, pm).patches;
            && next.Keys == w.patches.Keys + {pm.meta.name}
            && forall name :: name in w.patches && name != pm.meta.name ==> next[name] == w.patches[name]
  {
    hide ShaChanged, MarkerBroken, ToRestore;
  }

  lemma {:induction false} ModulesKeepBooks(upstream: Tree, w: World, cold: bool, modules: seq<PatchModule>)
    ensures ReconcileModules(upstream, w, cold, modules).patches.Keys == w.patches.Keys + Names(modules)
    ensures forall name :: name in w.patches && name !in Names(modules) ==>
              ReconcileModules(upstream, w, cold, modules).patches[name] == w.patches[name]
    decreases modules
  {
    if modules != [] {
      NamesSplit(modules);
      ModuleKeepsBooks(upstream, w, cold, modules[0]);
      hide ReconcileModule, Names, Declared, Elements;
      ModulesKeepBooks(upstream, ReconcileModule(upstream, w, cold, modules[0]), cold, modules[1..]);
    }
  }

  lemma NamesSplit(modules: seq<PatchModule>)
    requires modules != []
    ensures Names(modules) == {modules[0].meta.name} + Names(modules[1..])
    ensures Declared(modules) == Elements(modules[0].meta.files) + Declared(modules[1..])
  {
    assert forall i :: 0 < i < |modules| ==> modules[i] == modules[1..][i - 1];
    forall rel | rel in Declared(modules)
      ensures rel in Elements(modules[0].meta.files) + Declared(modules[1..])
    {
      var i :| 0 <= i < |modules| && rel in modules[i].meta.files;
      assert i == 0 || rel in modules[1..][i - 1].meta.files;
    }
  }

  /** Afterwards the manifest lists the modules, plus what it already listed and could not
      be loaded; entries of unloadable patches stay as they were. */
  lemma ReconcileKeepsBooks(upstream: Tree, w: World, modules: seq<PatchModule>, failed: set<string>)
    ensures Reconciled(upstream, w, modules, failed).patches.Keys == Names(modules) + (w.patches.Keys * failed)
    ensures forall name :: name in w.patches && name in failed && name !in Names(modules) ==>
              Reconciled(upstream, w, modules, failed).patches[name] == w.patches[name]
  {
    var swept := Swept(upstream, w, modules, failed);
    ModulesKeepBooks(upstream, swept, swept.patches == map[], modules);
  }

  // ---- Ownership ----

  /** Every divergent file with an upstream copy has a recorded writer. */
  ghost predicate Owned(upstream: Tree, w: World) {
    forall rel :: Diverges(upstream, w.ui, rel) && !IsIgnored(rel) ==> rel in WrittenFiles(w.patches)
  }

  /** As `Owned`, except that a cold start has not yet come to the files of `pending`. */
  ghost predicate OwnedBut(upstream: Tree, w: World, cold: bool, pending: seq<PatchModule>) {
    forall rel :: Diverges(upstream, w.ui, rel) && !IsIgnored(rel) ==>
      rel in WrittenFiles(w.patches) || (cold && rel in Declared(pending))
  }

  lemma ModuleKeepsOwnership(upstream: Tree, w: World, cold: bool, modules: seq<PatchModule>)
    requires modules != [] && OwnedBut(upstream, w, cold, modules)
    requires cold ==> modules[0].meta.name !in w.patches
    ensures OwnedBut(upstream, ReconcileModule(upstream, w, cold, modules[0]), cold, modules[1..])
  {
    var pm := modules[0];
    var name := pm.meta.name;
    var next := ReconcileModule(upstream, w, cold, pm);
    NamesSplit(modules);
    forall rel | Diverges(upstream, next.ui, rel) && !IsIgnored(rel)
      ensures rel in WrittenFiles(next.patches) || (cold && rel in Declared(modules[1..]))
    {
      assert Diverges(upstream, w.ui, rel);
      if rel in WrittenFiles(w.patches) {
        var n :| n in w.patches && rel in w.patches[n].written;
        assert n in next.patches && rel in next.patches[n].written;
      }
    }
  }

  lemma {:induction false} ModulesKeepOwnership(upstream: Tree, w: World, cold: bool, modules: seq<PatchModule>)
    requires OwnedBut(upstream, w, cold, modules)
    requires cold ==> DistinctNames(modules) && Names(modules) !! w.patches.Keys
    ensures Owned(upstream, ReconcileModules(upstream, w, cold, modules))
    decreases modules
  {
    if modules != [] {
      NamesSplit(modules);
      ModuleKeepsOwnership(upstream, w, cold, modules);
      ModulesKeepOwnership(upstream, ReconcileModule(upstream, w, cold, modules[0]), cold, modules[1..]);
    }
  }

  lemma SweepLeavesOwned(upstream: Tree, w: World, modules: seq<PatchModule>, failed: set<string>)
    requires w.patches == map[] || Owned(upstream, w)
    ensures var swept := Swept(upstream, w, modules, failed);
            OwnedBut(upstream, swept, swept.patches == map[], modules)
  {
    var swept := Swept(upstream, w, modules, failed);
    forall rel | Diverges(upstream, swept.ui, rel) && !IsIgnored(rel)
      ensures rel in WrittenFiles(swept.patches) || (swept.patches == map[] && rel in Declared(modules))
    {
      assert Diverges(upstream, w.ui, rel);
      if w.patches == map[] {
        assert rel !in Sweepable(upstream, w.ui, modules);
      } else {
        var n :| n in w.patches && rel in w.patches[n].written;
        assert n in swept.patches;
      }
    }
  }

  /** From an empty manifest and any tree, or from an owned state, reconcile ends owned. While
      the manifest lists anybody who is still provided, names may even repeat. */
  lemma ReconcileEndsOwned(upstream: Tree, w: World, modules: seq<PatchModule>, failed: set<string>)
    requires DistinctNames(modules) || w.patches.Keys * (Names(modules) + failed) != {}
    requires w.patches == map[] || Owned(upstream, w)
    ensures Owned(upstream, Reconciled(upstream, w, modules, failed))
  {
    var swept := Swept(upstream, w, modules, failed);
    assert swept.patches.Keys == w.patches.Keys * (Names(modules) + failed);
    SweepLeavesOwned(upstream, w, modules, failed);
    ModulesKeepOwnership(upstream, swept, swept.patches == map[], modules);
  }

  // ---- Cold start ----

  /** What the modules declare, leaving out those whose name came before. */
  function FirstDeclared(modules: seq<PatchModule>, seen: set<string>): set<Path>
    decreases modules
  {
    if modules == [] then {}
    else
      (if modules[0].meta.name in seen then {} else Elements(modules[0].meta.files)) +
      FirstDeclared(modules[1..], seen + {modules[0].meta.name})
  }

  /** The files of those modules whose name came before and whose marker is gone when their
      turn comes; such a module is reset like any other. */
  function Remade(upstream: Tree, ui: Tree, modules: seq<PatchModule>, seen: set<string>): set<Path>
    decreases modules
  {
    if modules == [] then {}
    else
      var files, later := Elements(modules[0].meta.files), seen + {modules[0].meta.name};
      if modules[0].meta.name !in seen then Remade(upstream, ResetCommon(upstream, ui, files), modules[1..], later)
      else if MarkerLost(ui, modules[0].meta) then
        files + Remade(upstream, RestoreFrom(upstream, ui, files), modules[1..], later)
      else Remade(upstream, ui, modules[1..], later)
  }

  /** A module whose name came before has no marker to look for. */
  predicate RepeatsUnmarked(modules: seq<PatchModule>, seen: set<string>)
    decreases modules
  {
    modules == [] ||
    (&& (modules[0].meta.name in seen ==> modules[0].meta.verifyMarker == "")
     && RepeatsUnmarked(modules[1..], seen + {modules[0].meta.name}))
  }

  lemma {:induction false} DistinctNamesNeverRepeat(modules: seq<PatchModule>, seen: set<string>)
    requires DistinctNames(modules) && Names(modules) !! seen
    ensures RepeatsUnmarked(modules, seen) && FirstDeclared(modules, seen) == Declared(modules)
    decreases modules
  {
    if modules != [] {
      NamesSplit(modules);
      DistinctNamesNeverRepeat(modules[1..], seen + {modules[0].meta.name});
    }
  }

  lemma {:induction false} UnmarkedRemakeNothing(
    upstream: Tree, ui: Tree, modules: seq<PatchModule>, seen: set<string>)
    requires RepeatsUnmarked(modules, seen)
    ensures Remade(upstream, ui, modules, seen) == {}
    decreases modules
  {
    if modules != [] {
      var later := seen + {modules[0].meta.name};
      hide ResetCommon, RestoreFrom, Elements;
      UnmarkedRemakeNothing(upstream, ui, modules[1..], later);
      UnmarkedRemakeNothing(
        upstream, ResetCommon(upstream, ui, Elements(modules[0].meta.files)), modules[1..], later);
    }
  }

  /** Resets those of `rels` that both trees have. */
  function ResetCommon(upstream: Tree, ui: Tree, rels: set<Path>): Tree {
    map rel | rel in ui :: if rel in rels && rel in upstream then upstream[rel] else ui[rel]
  }

  /** The tree that a cold start leaves: a file that both trees have is reset if the first
      module of some name declares it, or if nobody declares it and it is not ignored. */
  function ColdTree(upstream: Tree, ui: Tree, modules: seq<PatchModule>): Tree {
    var undeclared := set rel | rel in ui && !IsIgnored(rel) && rel !in Declared(modules);
    ResetCommon(upstream, ui, FirstDeclared(modules, {}) + undeclared)
  }

  ghost predicate NothingWritten(patches: Patches) {
    forall name :: name in patches ==> patches[name].written == []
  }

  lemma ColdStep(upstream: Tree, w: World, pm: PatchModule)
    requires NothingWritten(w.patches)
    ensures var (next, files) := (ReconcileModule(upstream, w, true, pm), Elements(pm.meta.files));
            && NothingWritten(next.patches) && next.patches.Keys == w.patches.Keys + {pm.meta.name}
            && next.ui ==
               if pm.meta.name !in w.patches then ResetCommon(upstream, w.ui, files)
               else if MarkerLost(w.ui, pm.meta) then RestoreFrom(upstream, w.ui, files)
               else w.ui
  {
    hide MarkerLost;
    if pm.meta.name in w.patches {
      assert ToRestore(upstream, w, true, pm) ==
        if MarkerLost(w.ui, pm.meta) then Elements(pm.meta.files) else {};
    } else {
      assert ToRestore(upstream, w, true, pm) == DeclaredDivergent(upstream, w, true, pm);
    }
    hide ToRestore, MarkerBroken, ShaChanged;
  }

  lemma ResetCommonTwice(upstream: Tree, ui: Tree, a: set<Path>, b: set<Path>)
    ensures ResetCommon(upstream, ResetCommon(upstream, ui, a), b) == ResetCommon(upstream, ui, a + b)
  {
  }

  lemma RestoreThenReset(upstream: Tree, ui: Tree, made: set<Path>, rels: set<Path>, later: set<Path>)
    ensures RestoreFrom(upstream, ResetCommon(upstream, RestoreFrom(upstream, ui, made), rels), later) ==
            RestoreFrom(upstream, ResetCommon(upstream, ui, rels), made + later)
  {
    var reset := ResetCommon(upstream, ui, rels);
    assert ResetCommon(upstream, RestoreFrom(upstream, ui, made), rels) == RestoreFrom(upstream, reset, made);
    hide ResetCommon, RestoreFrom;
    RestoreTwice(upstream, reset, made, later);
  }

  /** The tree as `first` and `again` leave it. */
  function ColdResult(upstream: Tree, ui: Tree, first: set<Path>, again: set<Path>): Tree {
    RestoreFrom(upstream, ResetCommon(upstream, ui, first), again)
  }

  lemma {:induction false} ColdModules(upstream: Tree, w: World, modules: seq<PatchModule>)
    requires NothingWritten(w.patches)
    ensures var (after, seen) := (ReconcileModules(upstream, w, true, modules), w.patches.Keys);
            && NothingWritten(after.patches)
            && after.ui ==
               ColdResult(upstream, w.ui, FirstDeclared(modules, seen), Remade(upstream, w.ui, modules, seen))
    decreases modules
  {
    if modules != [] {
      var (pm, seen) := (modules[0], w.patches.Keys);
      var files := Elements(pm.meta.files);
      ColdStep(upstream, w, pm);
      hide ReconcileModule, NothingWritten, ResetCommon, RestoreFrom, MarkerLost, Elements;
      ColdModules(upstream, ReconcileModule(upstream, w, true, pm), modules[1..]);
      var first := FirstDeclared(modules[1..], seen + {pm.meta.name});
      if pm.meta.name !in seen {
        ResetCommonTwice(upstream, w.ui, files, first);
      } else if MarkerLost(w.ui, pm.meta) {
        var made := RestoreFrom(upstream, w.ui, files);
        RestoreThenReset(upstream, w.ui, files, first, Remade(upstream, made, modules[1..], seen + {pm.meta.name}));
        assert {} + first == first;
      } else {
        assert {} + first == first;
      }
    } else {
      assert ResetCommon(upstream, w.ui, {}) == w.ui && RestoreFrom(upstream, w.ui, {}) == w.ui;
    }
  }

  /** The cold start, for any patch set at all. */
  lemma ColdStartTree(upstream: Tree, ui: Tree, modules: seq<PatchModule>, failed: set<string>)
    ensures var after := Reconciled(upstream, World(ui, map[]), modules, failed);
            var swept := AfterSweep(upstream, World(ui, map[]), modules);
            && after.ui == RestoreFrom(upstream, ColdTree(upstream, ui, modules), Remade(upstream, swept, modules, {}))
            && NothingWritten(after.patches)
  {
    var swept := Swept(upstream, World(ui, map[]), modules, failed);
    var undeclared := set rel | rel in ui && !IsIgnored(rel) && rel !in Declared(modules);
    assert swept.patches == map[] && swept.patches.Keys == {};
    assert swept.ui == AfterSweep(upstream, World(ui, map[]), modules) == ResetCommon(upstream, ui, undeclared);
    ColdModules(upstream, swept, modules);
    ResetCommonTwice(upstream, ui, undeclared, FirstDeclared(modules, {}));
    assert undeclared + FirstDeclared(modules, {}) == FirstDeclared(modules, {}) + undeclared;
    hide ResetCommon, FirstDeclared, Remade, RestoreFrom, Swept, AfterSweep, ReconcileModules, IsIgnored;
  }

  /** With repeated names only unmarked, as when they are distinct, it is a closed form. */
  lemma UnmarkedColdStartTree(upstream: Tree, ui: Tree, modules: seq<PatchModule>, failed: set<string>)
    requires RepeatsUnmarked(modules, {})
    ensures var after := Reconciled(upstream, World(ui, map[]), modules, failed);
            after.ui == ColdTree(upstream, ui, modules) && NothingWritten(after.patches)
  {
    hide Reconciled, ColdTree, NothingWritten;
    ColdStartTree(upstream, ui, modules, failed);
    UnmarkedRemakeNothing(upstream, AfterSweep(upstream, World(ui, map[]), modules), modules, {});
    assert RestoreFrom(upstream, ColdTree(upstream, ui, modules), {}) == ColdTree(upstream, ui, modules);
  }

  /** Whether reconcile ends owned, for any patch set and from every state that runs reach: it
      does unless it is a cold start and some divergent file that counts is declared, but
      neither by the first module of a name nor by a later one that lost its marker. */
  lemma ReconcileEndsOwnedIff(upstream: Tree, w: World, modules: seq<PatchModule>, failed: set<string>)
    requires w.patches == map[] || Owned(upstream, w)
    ensures var swept := Swept(upstream, w, modules, failed);
            Owned(upstream, Reconciled(upstream, w, modules, failed)) <==>
            (swept.patches == map[] ==>
               forall rel :: rel in Declared(modules) && Diverges(upstream, swept.ui, rel) && !IsIgnored(rel) ==>
                 rel in FirstDeclared(modules, {}) + Remade(upstream, swept.ui, modules, {}))
  {
    var swept := Swept(upstream, w, modules, failed);
    SweepLeavesOwned(upstream, w, modules, failed);
    if swept.patches == map[] {
      ColdModules(upstream, swept, modules);
      assert swept.patches.Keys == {};
      hide ReconcileModules, FirstDeclared, Remade, Swept, IsIgnored, Declared;
      ColdResultOwnedIff(upstream, swept, Reconciled(upstream, w, modules, failed), Declared(modules),
                         FirstDeclared(modules, {}), Remade(upstream, swept.ui, modules, {}));
      assert forall rel :: Diverges(upstream, swept.ui, rel) && !IsIgnored(rel) ==> rel in Declared(modules);
    } else {
      ModulesKeepOwnership(upstream, swept, false, modules);
    }
  }

  lemma ColdResultOwnedIff(
    upstream: Tree, before: World, after: World, declared: set<Path>, first: set<Path>, again: set<Path>)
    requires NothingWritten(after.patches) && after.ui == ColdResult(upstream, before.ui, first, again)
    requires forall rel :: Diverges(upstream, before.ui, rel) && !IsIgnored(rel) ==> rel in declared
    ensures Owned(upstream, after) <==>
            forall rel :: rel in declared && Diverges(upstream, before.ui, rel) && !IsIgnored(rel) ==>
              rel in first + again
  {
    hide IsIgnored;
    assert WrittenFiles(after.patches) == {};
    forall rel
      ensures Diverges(upstream, after.ui, rel) <==> Diverges(upstream, before.ui, rel) && rel !in first + again
    {
    }
    hide ColdResult, WrittenFiles, Diverges;
  }

  /** The same for a cold start with an empty manifest, where being owned and being equal to
      upstream are one thing, ignored files and files that only one tree has aside. */
  lemma ColdStartOwnedIff(upstream: Tree, ui: Tree, modules: seq<PatchModule>, failed: set<string>)
    ensures var after := Reconciled(upstream, World(ui, map[]), modules, failed);
            var swept := AfterSweep(upstream, World(ui, map[]), modules);
            && (Owned(upstream, after) <==>
                forall rel :: rel in Declared(modules) && Diverges(upstream, ui, rel) && !IsIgnored(rel) ==>
                  rel in FirstDeclared(modules, {}) + Remade(upstream, swept, modules, {}))
            && (Owned(upstream, after) <==>
                forall rel :: rel in after.ui && rel in upstream && !IsIgnored(rel) ==> after.ui[rel] == upstream[rel])
  {
    var w := World(ui, map[]);
    var swept := Swept(upstream, w, modules, failed);
    assert swept.ui == AfterSweep(upstream, w, modules) && swept.patches == map[];
    assert forall rel :: rel in Declared(modules) ==>
      (Diverges(upstream, swept.ui, rel) <==> Diverges(upstream, ui, rel));
    hide FirstDeclared, Remade, Reconciled, Swept, AfterSweep, IsIgnored, Declared;
    ReconcileEndsOwnedIff(upstream, w, modules, failed);
    ColdStartTree(upstream, ui, modules, failed);
    OwningNothing(upstream, Reconciled(upstream, w, modules, failed));
  }

  lemma OwningNothing(upstream: Tree, w: World)
    requires NothingWritten(w.patches)
    ensures Owned(upstream, w) <==>
            forall rel :: rel in w.ui && rel in upstream && !IsIgnored(rel) ==> w.ui[rel] == upstream[rel]
  {
    hide IsIgnored;
    assert WrittenFiles(w.patches) == {};
    forall rel
      ensures Diverges(upstream, w.ui, rel) <==> rel in w.ui && rel in upstream && w.ui[rel] != upstream[rel]
    {
    }
  }

  /** Its form for repeated names without markers. */
  lemma UnmarkedColdStartOwnedIff(upstream: Tree, ui: Tree, modules: seq<PatchModule>, failed: set<string>)
    requires RepeatsUnmarked(modules, {})
    ensures Owned(upstream, Reconciled(upstream, World(ui, map[]), modules, failed)) <==>
            forall rel :: rel in Declared(modules) && Diverges(upstream, ui, rel) && !IsIgnored(rel) ==>
              rel in FirstDeclared(modules, {})
  {
    hide *;
    ColdStartOwnedIff(upstream, ui, modules, failed);
    UnmarkedRemakeNothing(upstream, AfterSweep(upstream, World(ui, map[]), modules), modules, {});
    assert FirstDeclared(modules, {}) + {} == FirstDeclared(modules, {});
  }

  lemma FirstStartsFresh(upstream: Tree, w: World, pm: PatchModule)
    requires pm.meta.name !in w.patches
    ensures ReconcileModule(upstream, w, true, pm).patches == w.patches[pm.meta.name := Fresh(pm)]
  {
  }

  lemma {:induction false} ColdModulesStartFresh(upstream: Tree, w: World, modules: seq<PatchModule>)
    requires DistinctNames(modules) && Names(modules) !! w.patches.Keys
    ensures var after := ReconcileModules(upstream, w, true, modules);
            forall i :: 0 <= i < |modules| ==>
              modules[i].meta.name in after.patches && after.patches[modules[i].meta.name] == Fresh(modules[i])
    decreases modules
  {
    if modules != [] {
      var pm := modules[0];
      var next := ReconcileModule(upstream, w, true, pm);
      NamesSplit(modules);
      FirstStartsFresh(upstream, w, pm);
      assert pm.meta.name !in Names(modules[1..]);
      hide ReconcileModule, Fresh, Elements, Declared, Names;
      ModulesKeepBooks(upstream, next, true, modules[1..]);
      assert ReconcileModules(upstream, next, true, modules[1..]).patches[pm.meta.name] == Fresh(pm);
      ColdModulesStartFresh(upstream, next, modules[1..]);
      assert modules == [pm] + modules[1..];
    }
  }

  /** A cold start makes every file that both trees have equal to upstream, and owns nothing. */
  lemma ColdStartMatchesUpstream(upstream: Tree, ui: Tree, modules: seq<PatchModule>, failed: set<string>)
    requires DistinctNames(modules)
    ensures var after := Reconciled(upstream, World(ui, map[]), modules, failed);
            && after.ui == ColdTree(upstream, ui, modules)
            && (forall rel :: rel in after.ui && rel in upstream && !IsIgnored(rel) ==> after.ui[rel] == upstream[rel])
            && after.ui.Keys == ui.Keys
            && after.patches.Keys == Names(modules)
            && (forall i :: 0 <= i < |modules| ==> after.patches[modules[i].meta.name] == Fresh(modules[i]))
  {
    var swept := Swept(upstream, World(ui, map[]), modules, failed);
    assert swept.patches == map[];
    assert Reconciled(upstream, World(ui, map[]), modules, failed) == ReconcileModules(upstream, swept, true, modules);
    DistinctNamesNeverRepeat(modules, {});
    ColdTreeMatches(upstream, ui, modules);
    hide *;
    UnmarkedColdStartTree(upstream, ui, modules, failed);
    ColdModulesStartFresh(upstream, swept, modules);
    ReconcileKeepsBooks(upstream, World(ui, map[]), modules, failed);
  }

  lemma ColdTreeMatches(upstream: Tree, ui: Tree, modules: seq<PatchModule>)
    requires FirstDeclared(modules, {}) == Declared(modules)
    ensures var tree := ColdTree(upstream, ui, modules);
            && (forall rel :: rel in tree && rel in upstream && !IsIgnored(rel) ==> tree[rel] == upstream[rel])
            && tree.Keys == ui.Keys
  {
    hide IsIgnored, Declared, FirstDeclared;
  }
}
