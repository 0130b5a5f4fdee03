/** The patch engine: reconcile, apply and the drift guard over the tree and the manifest file. */
module Engines {
  import opened Applying
  import opened PatchContexts
  import opened PatchTypes
  import opened Reconciling
  import opened Sequences
  import opened TopologicalSort

  datatype Outcome =
    | Rejected(reason: Selection)
    | Crashed(order: seq<PatchModule>)
    | Finished(order: seq<PatchModule>, results: seq<PatchResult>)

  datatype Violation =
    | NewFile(rel: Path)
    | Modified(rel: Path, declared: bool)
    | ManifestOrphan(name: string)

  /** What `apply_patches` may have selected. */
  ghost predicate SelectedFrom(modules: seq<PatchModule>, names: seq<string>, order: seq<PatchModule>) {
    && Elements(names) <= Names(modules)
    && Names(order) == (if names == [] then Names(modules) else Elements(names))
    && DependencyOrder(Restricted(Index(modules), Names(order)), order)
  }

  /** The working tree and the manifest file after applying `order`; a crash leaves the
      manifest file as reconcile wrote it. */
  function Applied(
    upstream: Tree, w: World, modules: seq<PatchModule>, failed: set<string>, order: seq<PatchModule>): World
  {
    var reconciled := Reconciled(upstream, w, modules, failed);
    var progress := ApplyAll(reconciled, order);
    World(progress.world.ui, if progress.crashed then reconciled.patches else progress.world.patches)
  }

  /** The violations are these and no others. */
  ghost predicate DriftReport(
    upstream: Tree, w: World, modules: seq<PatchModule>, failed: set<string>, violations: set<Violation>)
  {
    && (forall rel :: NewFile(rel) in violations <==>
          rel in w.ui && rel !in upstream && !IsIgnored(rel) && rel !in WrittenFiles(w.patches))
    && (forall rel, declared :: Modified(rel, declared) in violations <==>
          Diverges(upstream, w.ui, rel) && !IsIgnored(rel) && rel !in WrittenFiles(w.patches) &&
          declared == (rel in Declared(modules)))
    && (forall name :: ManifestOrphan(name) in violations <==>
          name in w.patches && w.patches[name].written != [] && name !in Names(modules) + failed)
  }

  const SWEEP: PatchResult := PatchResult("<cold-start orphan sweep>", "orphan_restored")

  /** What reconcile reports: the sweep if it found anything, or each orphan once. */
  ghost predicate IsReport(
    upstream: Tree, w: World, modules: seq<PatchModule>, failed: set<string>, results: seq<PatchResult>)
  {
    if w.patches == map[] then
      results == if Sweepable(upstream, w.ui, modules) == {} then [] else [SWEEP]
    else
      && Distinct(results)
      && (forall r :: r in results <==>
            r.status == "orphan_restored" && r.name in w.patches && r.name !in Names(modules) + failed)
  }

  class Engine {
    const upstream: Tree
    const ui: Disk
    var stored: Patches  // the manifest file

    constructor (upstream: Tree, ui: Disk)
      ensures this.upstream == upstream && this.ui == ui && stored == map[]
    {
      this.upstream := upstream;
      this.ui := ui;
      stored := map[];
    }

    function Now(): World
      reads this, ui
    {
      World(ui.files, stored)
    }

    method RestoreFromUpstream(rels: seq<Path>)
      modifies ui
      ensures ui.files == RestoreFrom(upstream, old(ui.files), Elements(rels))
    {
      for i := 0 to |rels|
        invariant ui.files == RestoreFrom(upstream, old(ui.files), Elements(rels[..i]))
      {
        assert rels[..i + 1] == rels[..i] + [rels[i]];
        RestoreOneMore(upstream, old(ui.files), rels[..i], rels[i]);
        hide RestoreFrom;
        if rels[i] in upstream {
          ui.files := ui.files[rels[i] := upstream[rels[i]]];
        }
      }
      assert rels[..|rels|] == rels;
    }

    method RestoreSet(rels: set<Path>)
      modifies ui
      ensures ui.files == RestoreFrom(upstream, old(ui.files), rels)
    {
      var listing := Listing(rels);
      RestoreFromUpstream(listing);
    }

    /** Section 0 of reconcile: runs only on an empty manifest. */
    method ColdStartSweep(modules: seq<PatchModule>) returns (results: seq<PatchResult>)
      modifies ui
      ensures ui.files == RestoreFrom(upstream, old(ui.files), Sweepable(upstream, old(ui.files), modules))
      ensures results == if Sweepable(upstream, old(ui.files), modules) == {} then [] else [SWEEP]
    {
      var declared := Declared(modules);
      var rels: set<Path> := {};
      var pending := ui.files.Keys;
      while pending != {}
        invariant pending <= ui.files.Keys
        invariant rels == Sweepable(upstream, ui.files, modules) - pending
        decreases pending
      {
        var rel :| rel in pending;
        pending := pending - {rel};
        if !IsIgnored(rel) && rel !in declared && rel in upstream && ui.files[rel] != upstream[rel] {
          rels := rels + {rel};
        }
      }
      results := [];
      if rels != {} {
        RestoreSet(rels);
        results := [SWEEP];
      }
    }

    /** Section 1: patches the manifest lists and nobody provides any more. */
    method RestoreOrphans(m: Manifest, current: set<string>) returns (results: seq<PatchResult>)
      modifies ui, m
      ensures ui.files == RestoreFrom(upstream, old(ui.files), OrphanWrites(old(m.patches), current))
      ensures m.patches == WithoutOrphans(old(m.patches), current)
      ensures Distinct(results)
      ensures forall r :: r in results <==>
                r.status == "orphan_restored" && r.name in old(m.patches) && r.name !in current
    {
      hide OrphanWrites, WithoutOrphans, Elements, RestoreFrom;
      results := [];
      var listed := m.patches;
      ghost var start := ui.files;
      var orphans := set name | name in m.patches && name !in current;
      ghost var gone: set<string> := {};
      NoOrphanYet(upstream, start, listed);
      while orphans != {}
        invariant orphans !! gone && orphans + gone == set name | name in listed && name !in current
        invariant m.patches == listed - gone
        invariant ui.files == RestoreFrom(upstream, start, OrphanWrites(listed, listed.Keys - gone))
        invariant Distinct(results)
        invariant forall r :: r in results <==> r.status == "orphan_restored" && r.name in gone
        decreases orphans
      {
        var name :| name in orphans;
        orphans := orphans - {name};
        assert name in m.patches && m.patches[name] == listed[name];
        var written := m.patches[name].written;
        m.patches := m.patches - {name};
        OneOrphanMore(upstream, start, listed, gone, name);
        gone := gone + {name};
        if written != [] {
          RestoreFromUpstream(written);
        }
        results := results + [PatchResult(name, "orphan_restored")];
      }
      NoOrphanLeft(listed, gone, current);
    }

    /** Section 2, for one module. */
    method ReconcileOne(m: Manifest, cold: bool, pm: PatchModule) returns (dirty: bool)
      modifies ui, m
      ensures World(ui.files, m.patches) ==
              ReconcileModule(upstream, old(World(ui.files, m.patches)), cold, pm)
      ensures dirty <==> !(pm.meta.name in old(m.patches) && !ShaChanged(old(m.patches), pm) &&
                           !MarkerBroken(old(ui.files), old(m.patches), pm))
      ensures !dirty ==> m.patches == old(m.patches)
    {
      var name := pm.meta.name;
      var known := name in m.patches;
      var shaChanged := known && m.patches[name].sourceSha != "" && m.patches[name].sourceSha != pm.sha;
      var markerBroken := false;
      if known && pm.meta.verifyMarker != "" {
        var checkFile := CheckFile(pm.meta);
        if checkFile != "" {
          if checkFile !in ui.files {
            markerBroken := true;
          } else if !Contains(ui.files[checkFile], pm.meta.verifyMarker) {
            markerBroken := true;
          }
        }
      }
      var divergent: set<Path> := {};
      if cold && !known {
        for i := 0 to |pm.meta.files|
          invariant divergent ==
                    set rel | rel in pm.meta.files[..i] && Diverges(upstream, ui.files, rel)
        {
          var rel := pm.meta.files[i];
          if rel in ui.files && rel in upstream && ui.files[rel] != upstream[rel] {
            divergent := divergent + {rel};
          }
        }
        assert pm.meta.files[..|pm.meta.files|] == pm.meta.files;
      }
      dirty := true;
      if shaChanged || divergent != {} || markerBroken {
        var toRestore: set<Path> := {};
        if known {
          toRestore := toRestore + Elements(m.patches[name].written);
          if markerBroken {
            toRestore := toRestore + Elements(pm.meta.files);
          }
        }
        toRestore := toRestore + divergent;
        assert toRestore == ToRestore(upstream, World(ui.files, m.patches), cold, pm);
        if toRestore != {} {
          RestoreSet(toRestore);
        }
        if !known {
          m.patches := m.patches[name := PatchEntry(name, "pending", pm.sha, [])];
        } else {
          m.patches := m.patches[name :=
            m.patches[name].(written := [], sourceSha := pm.sha, status := "pending")];
        }
      } else if !known {
        m.patches := m.patches[name := PatchEntry(name, "pending", pm.sha, [])];
      } else {
        dirty := false;
      }
    }

    method Reconcile(modules: seq<PatchModule>, failed: seq<string>) returns (results: seq<PatchResult>)
      modifies this`stored, ui
      ensures Now() == Reconciled(upstream, old(Now()), modules, Elements(failed))
      ensures IsReport(upstream, old(Now()), modules, Elements(failed), results)
    {
      hide RestoreFrom, Sweepable, OrphanWrites, WithoutOrphans, ReconcileModule, ShaChanged, MarkerBroken, Names;
      var m := new Manifest(stored);
      results := [];
      var current := Names(modules) + Elements(failed);
      if m.patches == map[] {
        results := ColdStartSweep(modules);
      }
      var orphans := RestoreOrphans(m, current);
      NoneReported(stored, current, orphans);
      results := results + orphans;
      var dirty := results != [];
      var cold := m.patches == map[];
      ghost var swept := World(ui.files, m.patches);
      for i := 0 to |modules|
        invariant ReconcileModules(upstream, World(ui.files, m.patches), cold, modules[i..]) ==
                  ReconcileModules(upstream, swept, cold, modules)
        invariant !dirty ==> m.patches == stored
      {
        assert modules[i..][1..] == modules[i + 1..];
        var changed := ReconcileOne(m, cold, modules[i]);
        dirty := dirty || changed;
      }
      assert modules[|modules|..] == [];
      if dirty {
        stored := m.patches;
      }
    }

    method ApplyPatches(modules: seq<PatchModule>, failed: seq<string>, names: seq<string>) returns (r: Outcome)
      modifies this`stored, ui
      ensures r.Rejected? ==> Now() == old(Now()) && !r.reason.Selected?
      ensures r.Rejected? <==> HasCycle(Index(modules)) || !(Elements(names) <= Names(modules))
      ensures !r.Rejected? ==> SelectedFrom(modules, names, r.order)
      ensures !r.Rejected? ==> Now() == Applied(upstream, old(Now()), modules, Elements(failed), r.order)
      ensures !r.Rejected? ==>
                (r.Crashed? <==> ApplyAll(Reconciled(upstream, old(Now()), modules, Elements(failed)), r.order).crashed)
      ensures r.Finished? ==>
                r.results == ApplyAll(Reconciled(upstream, old(Now()), modules, Elements(failed)), r.order).results
    {
      hide Reconciled, ApplyAll, HasCycle, DependencyOrder, IsReport;
      var selection := Filter(modules, names);
      if !selection.Selected? {
        return Rejected(selection);
      }
      var order := selection.order;
      var _ := Reconcile(modules, failed);
      var m := new Manifest(stored);
      var ctx := new PatchContext(ui, m);
      var crashed, results := ApplyOrder(ctx, order);
      if crashed {
        return Crashed(order);
      }
      stored := m.patches;
      return Finished(order, results);
    }

    /** Runs the patches one after the other; stops where one of them crashes. */
    method ApplyOrder(ctx: PatchContext, order: seq<PatchModule>)
      returns (crashed: bool, results: seq<PatchResult>)
      requires ctx.ui == ui && ctx.currentPatch == ""
      modifies ui, ctx, ctx.manifest
      ensures Progress(ctx.Now(), results, crashed) == ApplyAll(old(ctx.Now()), order)
    {
      hide ApplyOne;
      results := [];
      crashed := false;
      ghost var start := ctx.Now();
      for i := 0 to |order|
        invariant ctx.currentPatch == ""
        invariant ApplyAll(start, order) ==
          (var rest := ApplyAll(ctx.Now(), order[i..]); rest.(results := results + rest.results))
      {
        assert order[i..][0] == order[i] && order[i..][1..] == order[i + 1..];
        ghost var before := results;
        var step;
        crashed, step := ApplyStep(ctx, order[i]);
        results := results + step;
        if crashed {
          return;
        }
        ghost var rest := ApplyAll(ctx.Now(), order[i + 1..]).results;
        assert before + (step + rest) == results + rest;
      }
    }

    method ApplyStep(ctx: PatchContext, pm: PatchModule) returns (crashed: bool, step: seq<PatchResult>)
      requires ctx.ui == ui && ctx.currentPatch == ""
      modifies ui, ctx, ctx.manifest
      ensures Progress(ctx.Now(), step, crashed) == ApplyOne(old(ctx.Now()), pm)
      ensures !crashed ==> ctx.currentPatch == ""
    {
      ctx.currentPatch := pm.meta.name;
      var ending := ctx.Invoke(pm.script, pm.limit);
      if ending.Raise? {
        return true, [];
      }
      ctx.currentPatch := "";
      if ending.Exit? {
        return false, [PatchResult(pm.meta.name, "broken")];
      }
      step := Conclude(ctx, pm, ending.applied);
      crashed := false;
    }

    /** Sets the status of a patch that returned normally. */
    method Conclude(ctx: PatchContext, pm: PatchModule, applied: bool) returns (results: seq<PatchResult>)
      requires ctx.ui == ui
      modifies ctx.manifest
      ensures results == [PatchResult(pm.meta.name, StatusAfter(ui.files, pm.meta, applied))]
      ensures ctx.manifest.patches ==
              WithStatus(old(ctx.manifest.patches), pm, StatusAfter(ui.files, pm.meta, applied))
    {
      var name := pm.meta.name;
      var broken := false;
      if !applied && pm.meta.verifyMarker != "" {
        var checkFile := CheckFile(pm.meta);
        if checkFile == "" || checkFile !in ui.files {
          broken := true;
        } else if !Contains(ui.files[checkFile], pm.meta.verifyMarker) {
          broken := true;
        }
      }
      var status := if broken then "broken" else if applied then "applied" else "skipped";
      var patches := ctx.manifest.patches;
      var entry := if name in patches then patches[name] else PatchEntry(name, "skipped", "", []);
      ctx.manifest.patches := patches[name := entry.(status := status, sourceSha := pm.sha)];
      results := [PatchResult(name, status)];
    }

    method DriftGuard(modules: seq<PatchModule>, failed: seq<string>) returns (violations: set<Violation>)
      ensures DriftReport(upstream, Now(), modules, Elements(failed), violations)
    {
      violations := {};
      var covered := WrittenFiles(stored);
      var pending := ui.files.Keys;
      while pending != {}
        invariant pending <= ui.files.Keys
        invariant forall rel :: NewFile(rel) in violations <==>
          rel in ui.files.Keys - pending && rel !in upstream && !IsIgnored(rel) && rel !in covered
        invariant forall rel, declared :: Modified(rel, declared) in violations <==>
          rel in ui.files.Keys - pending && Diverges(upstream, ui.files, rel) && !IsIgnored(rel) &&
          rel !in covered && declared == (rel in Declared(modules))
        invariant forall name :: ManifestOrphan(name) !in violations
        decreases pending
      {
        var rel :| rel in pending;
        pending := pending - {rel};
        if !IsIgnored(rel) && rel !in covered {
          if rel !in upstream {
            violations := violations + {NewFile(rel)};
          } else if ui.files[rel] != upstream[rel] {
            violations := violations + {Modified(rel, rel in Declared(modules))};
          }
        }
      }
      ghost var found := violations;
      var known := Names(modules) + Elements(failed);
      var names := stored.Keys;
      while names != {}
        invariant names <= stored.Keys
        invariant forall v :: v in violations && !v.ManifestOrphan? <==> v in found
        invariant forall name :: ManifestOrphan(name) in violations <==>
          name in stored.Keys - names && stored[name].written != [] && name !in known
        decreases names
      {
        var name :| name in names;
        names := names - {name};
        if stored[name].written != [] && name !in known {
          violations := violations + {ManifestOrphan(name)};
        }
      }
    }
  }

  lemma NoneReported(patches: Patches, current: set<string>, orphans: seq<PatchResult>)
    requires forall r :: r in orphans <==> r.status == "orphan_restored" && r.name in patches && r.name !in current
    ensures orphans == [] ==> WithoutOrphans(patches, current) == patches
    ensures patches == map[] ==> orphans == []
  {
    if orphans == [] {
      forall name | name in patches
        ensures name in current
      {
        assert PatchResult(name, "orphan_restored") !in orphans;
      }
    } else {
      assert orphans[0] in orphans;
    }
  }

  lemma NoOrphanYet(upstream: Tree, ui: Tree, listed: Patches)
    ensures listed - {} == listed
    ensures RestoreFrom(upstream, ui, OrphanWrites(listed, listed.Keys - {})) == ui
  {
  }

  lemma OneOrphanMore(upstream: Tree, ui: Tree, listed: Patches, gone: set<string>, name: string)
    requires name in listed && name !in gone
    ensures listed - gone - {name} == listed - (gone + {name})
    ensures var before := RestoreFrom(upstream, ui, OrphanWrites(listed, listed.Keys - gone));
            var after := RestoreFrom(upstream, ui, OrphanWrites(listed, listed.Keys - (gone + {name})));
            && after == RestoreFrom(upstream, before, Elements(listed[name].written))
            && (listed[name].written == [] ==> after == before)
  {
    var written := Elements(listed[name].written);
    assert OrphanWrites(listed, listed.Keys - (gone + {name})) == OrphanWrites(listed, listed.Keys - gone) + written;
    RestoreTwice(upstream, ui, OrphanWrites(listed, listed.Keys - gone), written);
  }

  lemma NoOrphanLeft(listed: Patches, gone: set<string>, current: set<string>)
    requires gone == set name | name in listed && name !in current
    ensures listed - gone == WithoutOrphans(listed, current)
    ensures OrphanWrites(listed, listed.Keys - gone) == OrphanWrites(listed, current)
  {
  }

  /** The elements of a set in some order; which one does not matter to the callers. */
  method Listing(rels: set<Path>) returns (listing: seq<Path>)
    ensures Elements(listing) == rels && |listing| == |rels|
  {
    listing := [];
    var rest := rels;
    while rest != {}
      invariant Elements(listing) + rest == rels && Elements(listing) !! rest
      invariant |listing| + |rest| == |rels|
      decreases rest
    {
      var rel :| rel in rest;
      rest := rest - {rel};
      assert Elements(listing + [rel]) == Elements(listing) + {rel};
      listing := listing + [rel];
    }
  }
}
