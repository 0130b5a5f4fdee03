/** What reconcile does with a patch, said in terms of file contents and recorded hashes. */
module Handling {
  import opened Convergence
  import opened PatchTypes
  import opened Reconciling
  import opened Sequences

  /** There is no marker, nowhere to look for it, or it is where it should be. */
  ghost predicate MarkerInPlace(ui: Tree, meta: PatchMeta) {
    meta.verifyMarker == "" || NowhereToLook(meta) || MarkerFound(ui, meta)
  }

  lemma MarkerLostIff(ui: Tree, meta: PatchMeta)
    ensures MarkerLost(ui, meta) <==> !MarkerInPlace(ui, meta)
  {
    MarkerAbsentIff(ui, meta);
  }

  /** The recorded hash is this source's, or none was recorded. */
  predicate HashIsCurrent(entry: PatchEntry, pm: PatchModule) {
    entry.sourceSha == "" || entry.sourceSha == pm.sha
  }

  /** `after` has upstream's copy of those of `rels` that upstream has, and is `before` otherwise. */
  ghost predicate ResetExactly(upstream: Tree, before: Tree, after: Tree, rels: set<Path>) {
    forall rel ::
      if rel in rels && rel in upstream then rel in after && after[rel] == upstream[rel]
      else (rel in after <==> rel in before) && (rel in before ==> after[rel] == before[rel])
  }

  /** The handling of a listed patch. If its source is the recorded one and its marker is in
      place, nothing happens. Otherwise what it wrote is reset, what it declares as well if the
      marker is not in place, and its entry is pending with the current hash. */
  lemma ListedPatchIsHandled(upstream: Tree, w: World, cold: bool, pm: PatchModule)
    requires pm.meta.name in w.patches
    ensures var (entry, next) := (w.patches[pm.meta.name], ReconcileModule(upstream, w, cold, pm));
            if HashIsCurrent(entry, pm) && MarkerInPlace(w.ui, pm.meta) then next == w
            else
              && next.patches == w.patches[pm.meta.name := PatchEntry(entry.name, "pending", pm.sha, [])]
              && ResetExactly(upstream, w.ui, next.ui,
                   Elements(entry.written) +
                   if MarkerInPlace(w.ui, pm.meta) then {} else Elements(pm.meta.files))
  {
    MarkerLostIff(w.ui, pm.meta);
    hide MarkerLost, MarkerInPlace, Elements;
    assert ShaChanged(w.patches, pm) <==> !HashIsCurrent(w.patches[pm.meta.name], pm);
  }

  /** The handling of a patch that is not listed: it is listed as pending, and only in a cold
      start the files it declares are reset where both trees have them. */
  lemma NewPatchIsHandled(upstream: Tree, w: World, cold: bool, pm: PatchModule)
    requires pm.meta.name !in w.patches
    ensures var next := ReconcileModule(upstream, w, cold, pm);
            && next.patches == w.patches[pm.meta.name := PatchEntry(pm.meta.name, "pending", pm.sha, [])]
            && ResetExactly(upstream, w.ui, next.ui,
                 set rel | rel in w.ui && cold && rel in pm.meta.files)
  {
    hide MarkerLost;
  }

  // ---- The same, seen through a whole call ----

  /** A call leaves a tree and a manifest alone in which every patch is listed with its hash
      and has its marker in place, whatever the patches wrote. */
  lemma IntactPatchesAreLeftAlone(upstream: Tree, w: World, modules: seq<PatchModule>, failed: set<string>)
    requires modules != [] && w.patches.Keys <= Names(modules) + failed
    requires forall i :: 0 <= i < |modules| ==>
               && modules[i].meta.name in w.patches
               && HashIsCurrent(w.patches[modules[i].meta.name], modules[i])
               && MarkerInPlace(w.ui, modules[i].meta)
    ensures Reconciled(upstream, w, modules, failed) == w
  {
    forall i | 0 <= i < |modules|
      ensures Settled(upstream, w, modules[i])
    {
      MarkerLostIff(w.ui, modules[i].meta);
      hide MarkerLost, MarkerInPlace;
    }
    assert modules[0].meta.name in w.patches;
    NoOrphansToSweep(upstream, w, modules, failed);
    SettledModulesStay(upstream, w, false, modules);
  }

  lemma {:induction false} IntactFrontIsPassed(
    upstream: Tree, w: World, cold: bool, front: seq<PatchModule>, rest: seq<PatchModule>)
    requires AllSettled(upstream, w, front)
    ensures ReconcileModules(upstream, w, cold, front + rest) == ReconcileModules(upstream, w, cold, rest)
    decreases front
  {
    if front == [] {
      assert front + rest == rest;
    } else {
      assert (front + rest)[1..] == front[1..] + rest;
      StepIsIdleIffSettled(upstream, w, cold, front[0]);
      hide Settled, ReconcileModule;
      IntactFrontIsPassed(upstream, w, cold, front[1..], rest);
    }
  }

  /** The first patch in a call whose source has changed or whose marker is not in place ends
      as pending, and what it wrote ends as upstream has it; if it is the marker, so does what
      it declares. */
  lemma FirstDamagedPatchIsReset(
    upstream: Tree, w: World, modules: seq<PatchModule>, failed: set<string>, i: nat)
    requires DistinctNames(modules) && i < |modules| && w.patches.Keys <= Names(modules) + failed
    requires forall j :: 0 <= j <= i ==> modules[j].meta.name in w.patches
    requires forall j :: 0 <= j < i ==>
               HashIsCurrent(w.patches[modules[j].meta.name], modules[j]) && MarkerInPlace(w.ui, modules[j].meta)
    requires !HashIsCurrent(w.patches[modules[i].meta.name], modules[i]) || !MarkerInPlace(w.ui, modules[i].meta)
    ensures var (pm, after) := (modules[i], Reconciled(upstream, w, modules, failed));
            var entry := w.patches[pm.meta.name];
            && pm.meta.name in after.patches
            && (forall rel ::
                  (rel in upstream &&
                   (rel in entry.written || (!MarkerInPlace(w.ui, pm.meta) && rel in pm.meta.files))) ==>
                  rel in after.ui && after.ui[rel] == upstream[rel])
            && after.patches[pm.meta.name] == PatchEntry(entry.name, "pending", pm.sha, [])
  {
    var pm, back := modules[i], modules[i + 1..];
    var next := ReconcileModule(upstream, w, false, pm);
    assert pm.meta.name in w.patches;
    assert pm.meta.name !in Names(back);
    DamagedPatchIsNext(upstream, w, modules, failed, i);
    ListedPatchIsHandled(upstream, w, false, pm);
    hide MarkerInPlace, HashIsCurrent, ReconcileModule, Names, Reconciled, ReconcileModules;
    ModulesKeepBooks(upstream, next, false, back);
    ModulesMoveTowards(upstream, next, false, back);
  }

  lemma DamagedPatchIsNext(upstream: Tree, w: World, modules: seq<PatchModule>, failed: set<string>, i: nat)
    requires i < |modules| && w.patches.Keys <= Names(modules) + failed
    requires forall j :: 0 <= j <= i ==> modules[j].meta.name in w.patches
    requires forall j :: 0 <= j < i ==>
               HashIsCurrent(w.patches[modules[j].meta.name], modules[j]) && MarkerInPlace(w.ui, modules[j].meta)
    ensures Reconciled(upstream, w, modules, failed) ==
            ReconcileModules(upstream, ReconcileModule(upstream, w, false, modules[i]), false, modules[i + 1..])
  {
    var pm, front, back := modules[i], modules[..i], modules[i + 1..];
    assert modules == front + ([pm] + back) && ([pm] + back)[1..] == back && ([pm] + back)[0] == pm;
    forall j | 0 <= j < |front|
      ensures Settled(upstream, w, front[j])
    {
      assert front[j] == modules[j];
      MarkerLostIff(w.ui, modules[j].meta);
      hide MarkerLost, MarkerInPlace;
    }
    assert pm.meta.name in w.patches;
    hide Settled, MarkerInPlace, HashIsCurrent, ReconcileModule, Names, Sweepable, Swept;
    NoOrphansToSweep(upstream, w, modules, failed);
    IntactFrontIsPassed(upstream, w, false, front, [pm] + back);
  }

  /** A listed patch that is neither provided nor merely unloadable goes, and what it wrote
      ends as upstream has it. */
  lemma OrphansAreReset(
    upstream: Tree, w: World, modules: seq<PatchModule>, failed: set<string>, name: string)
    requires name in w.patches && name !in Names(modules) && name !in failed
    ensures var after := Reconciled(upstream, w, modules, failed);
            && name !in after.patches
            && forall rel :: rel in w.patches[name].written && rel in upstream ==>
                 rel in after.ui && after.ui[rel] == upstream[rel]
  {
    var swept := Swept(upstream, w, modules, failed);
    assert forall rel :: rel in w.patches[name].written ==>
      rel in OrphanWrites(w.patches, Names(modules) + failed);
    ReconcileKeepsBooks(upstream, w, modules, failed);
    ModulesMoveTowards(upstream, swept, swept.patches == map[], modules);
    hide ReconcileModules, Names, Sweepable;
  }

  // ---- An input where `verify_file` is not the first declared file ----

  const PICKER: PatchModule :=
    PatchModule(PatchMeta("p", ["a", "b"], [], "b", "M"), "sha", _ => Return(false), 0)

  /** The marker is looked for in `verify_file` alone. */
  lemma VerifyFileIsLookedAt(upstream: Tree)
    requires "a" in upstream && upstream["a"] == "0" && "b" in upstream && upstream["b"] == "0"
    ensures var entry := PatchEntry("p", "applied", "sha", ["a", "b"]);
            var (intact, damaged) := (World(map["a" := "1", "b" := "1M"], map["p" := entry]),
                                      World(map["a" := "M", "b" := "1"], map["p" := entry]));
            && Reconciled(upstream, intact, [PICKER], {}) == intact
            && (var after := Reconciled(upstream, damaged, [PICKER], {});
                "a" in after.ui && after.ui["a"] == "0" && "b" in after.ui && after.ui["b"] == "0")
  {
    var entry := PatchEntry("p", "applied", "sha", ["a", "b"]);
    var intact, damaged := World(map["a" := "1", "b" := "1M"], map["p" := entry]),
                           World(map["a" := "M", "b" := "1"], map["p" := entry]);
    var before, after := "1", "";
    assert "1M" == before + "M" + after;
    assert Occurs("1M", "M");
    assert !Occurs("1", "M") by {
      forall b: string, a: string
        ensures "1" != b + "M" + a
      {
        assert (b + "M" + a)[|b|] == 'M';
      }
    }
    assert "p" in Names([PICKER]) by {
      assert [PICKER][0].meta.name == "p";
    }
    assert "a" in entry.written && "b" in entry.written;
    hide Reconciled, Occurs;
    IntactPatchesAreLeftAlone(upstream, intact, [PICKER], {});
    FirstDamagedPatchIsReset(upstream, damaged, [PICKER], {}, 0);
  }
}
