/** Ownership over whole runs: any sequence of reconcile and apply calls, each with a
    patch set of its own. */
module EngineRuns {
  import opened Applying
  import opened Convergence
  import opened CrashSafety
  import opened Engines
  import opened PatchContexts
  import opened PatchTypes
  import opened Reconciling

  /** `Apply` carries the order that was selected; a rejected call does nothing. */
  datatype Call =
    | Reconcile(modules: seq<PatchModule>, failed: set<string>)
    | Apply(modules: seq<PatchModule>, failed: set<string>, order: seq<PatchModule>)
    | RejectedApply

  ghost predicate WellFormed(call: Call) {
    match call
    case Reconcile(modules, _) => WellNamed(modules)
    case Apply(modules, _, order) => WellNamed(modules) && forall m :: m in order ==> m in modules
    case RejectedApply => true
  }

  function After(upstream: Tree, w: World, call: Call): World {
    match call
    case Reconcile(modules, failed) => Reconciled(upstream, w, modules, failed)
    case Apply(modules, failed, order) => Applied(upstream, w, modules, failed, order)
    case RejectedApply => w
  }

  /** Some patch let an exception other than SystemExit escape. */
  predicate Crashes(upstream: Tree, w: World, call: Call) {
    call.Apply? && ApplyAll(Reconciled(upstream, w, call.modules, call.failed), call.order).crashed
  }

  function RunAll(upstream: Tree, w: World, calls: seq<Call>): World
    decreases calls
  {
    if calls == [] then w else RunAll(upstream, After(upstream, w, calls[0]), calls[1..])
  }

  /** The programs alone see to it that an interrupted call does no harm. */
  ghost predicate Harmless(call: Call) {
    call.Apply? ==> CrashesOnlyClean(call.order, {})
  }

  /** This call is not interrupted, or it is after its patches have changed nothing but ignored
      files and files that the manifest saved before them lists. */
  ghost predicate EndsClean(upstream: Tree, w: World, call: Call) {
    Crashes(upstream, w, call) ==>
      var kept := Reconciled(upstream, w, call.modules, call.failed);
      OnlyListedChange(kept.ui, ApplyAll(kept, call.order).world.ui, WrittenFiles(kept.patches))
  }

  ghost predicate SafeRun(upstream: Tree, w: World, calls: seq<Call>)
    decreases calls
  {
    calls == [] ||
    (EndsClean(upstream, w, calls[0]) && SafeRun(upstream, After(upstream, w, calls[0]), calls[1..]))
  }

  lemma HarmlessEndsClean(upstream: Tree, w: World, call: Call)
    requires Harmless(call)
    ensures EndsClean(upstream, w, call)
  {
    if Crashes(upstream, w, call) {
      var kept := Reconciled(upstream, w, call.modules, call.failed);
      ApplyIgnoresManifest(kept, call.order);
      hide Reconciled, ApplyAll, ApplyOnTree, IsIgnored, WrittenFiles;
      assert OnlyListedChange(kept.ui, ApplyOnTree(kept.ui, call.order).0, {});
    }
  }

  /** What a caller can check before the run makes it safe from every start. */
  lemma {:induction false} HarmlessCallsAreSafe(upstream: Tree, w: World, calls: seq<Call>)
    requires forall call :: call in calls ==> Harmless(call)
    ensures SafeRun(upstream, w, calls)
    decreases calls
  {
    hide Harmless, EndsClean, After;
    if calls != [] {
      HarmlessEndsClean(upstream, w, calls[0]);
      HarmlessCallsAreSafe(upstream, After(upstream, w, calls[0]), calls[1..]);
    }
  }

  /** Patches that let nothing but SystemExit escape never interrupt a call. */
  lemma NeverRaisingIsHarmless(upstream: Tree, w: World, call: Call)
    requires call.Apply? ==> forall m :: m in call.order ==> NeverRaises(m.script)
    ensures !Crashes(upstream, w, call) && Harmless(call)
  {
    if call.Apply? {
      ApplyIgnoresManifest(Reconciled(upstream, w, call.modules, call.failed), call.order);
      forall ui: Tree
        ensures !ApplyOnTree(ui, call.order).1
      {
        NeverRaisingNeverCrashes(ui, call.order);
      }
    }
  }

  /** What every call keeps: before the first effective one the manifest is empty. */
  ghost predicate Consistent(upstream: Tree, w: World) {
    w.patches == map[] || Owned(upstream, w)
  }

  lemma NamesAmong(order: seq<PatchModule>, modules: seq<PatchModule>)
    requires forall m :: m in order ==> m in modules
    ensures Names(order) <= Names(modules)
  {
    forall name | name in Names(order)
      ensures name in Names(modules)
    {
      var i :| 0 <= i < |order| && order[i].meta.name == name;
      assert order[i] in order;
      var j :| 0 <= j < |modules| && modules[j] == order[i];
    }
  }

  lemma CallEndsOwned(upstream: Tree, w: World, call: Call)
    requires WellFormed(call) && Consistent(upstream, w) && !call.RejectedApply?
    requires EndsClean(upstream, w, call)
    ensures Owned(upstream, After(upstream, w, call))
    ensures After(upstream, w, call).patches.Keys <= Names(call.modules) + call.failed
  {
    var reconciled := Reconciled(upstream, w, call.modules, call.failed);
    ReconcileEndsOwned(upstream, w, call.modules, call.failed);
    ReconcileKeepsBooks(upstream, w, call.modules, call.failed);
    if call.Apply? {
      NamesAmong(call.order, call.modules);
      hide Reconciled, ApplyAll;
      ApplyKeepsOwnership(upstream, reconciled, call.order);
      if Crashes(upstream, w, call) {
        LosingRecordIff(reconciled.ui, ApplyAll(reconciled, call.order).world.ui, reconciled.patches);
        assert reconciled == World(reconciled.ui, reconciled.patches);
      }
    }
  }

  lemma {:induction false} RunsStayConsistent(upstream: Tree, w: World, calls: seq<Call>)
    requires forall call :: call in calls ==> WellFormed(call)
    requires Consistent(upstream, w) && SafeRun(upstream, w, calls)
    ensures Consistent(upstream, RunAll(upstream, w, calls))
    decreases calls
  {
    hide After, EndsClean, WellFormed;
    if calls != [] {
      StepStaysConsistent(upstream, w, calls[0]);
      RunsStayConsistent(upstream, After(upstream, w, calls[0]), calls[1..]);
    }
  }

  lemma StepStaysConsistent(upstream: Tree, w: World, call: Call)
    requires WellFormed(call) && Consistent(upstream, w) && EndsClean(upstream, w, call)
    ensures Consistent(upstream, After(upstream, w, call))
  {
    if !call.RejectedApply? {
      CallEndsOwned(upstream, w, call);
    }
  }

  lemma {:induction false} RunAppends(upstream: Tree, w: World, calls: seq<Call>, last: Call)
    ensures RunAll(upstream, w, calls + [last]) == After(upstream, RunAll(upstream, w, calls), last)
    ensures SafeRun(upstream, w, calls + [last]) ==>
              SafeRun(upstream, w, calls) && EndsClean(upstream, RunAll(upstream, w, calls), last)
    decreases calls
  {
    hide After, EndsClean;
    var all := calls + [last];
    if calls != [] {
      assert all[0] == calls[0] && all[1..] == calls[1..] + [last];
      RunAppends(upstream, After(upstream, w, calls[0]), calls[1..], last);
    } else {
      assert all[0] == last && all[1..] == [];
      assert RunAll(upstream, After(upstream, w, last), all[1..]) == After(upstream, w, last);
    }
  }

  /** Starting from any tree and an empty manifest, after any calls with any patch sets,
      the last of them effective, every divergent file has a recorded owner, and the drift
      guard has nothing to report but files that upstream does not have. */
  lemma DriftGuardStaysSilent(
    upstream: Tree, ui: Tree, calls: seq<Call>, last: Call, violations: set<Violation>)
    requires forall call :: call in calls ==> WellFormed(call)
    requires WellFormed(last) && !last.RejectedApply?
    requires SafeRun(upstream, World(ui, map[]), calls + [last])
    requires DriftReport(upstream, RunAll(upstream, World(ui, map[]), calls + [last]),
                         last.modules, last.failed, violations)
    ensures Owned(upstream, RunAll(upstream, World(ui, map[]), calls + [last]))
    ensures forall v :: v in violations ==> v.NewFile? && v.rel !in upstream
  {
    var start := World(ui, map[]);
    hide After, RunAll, SafeRun, EndsClean, WellFormed;
    RunAppends(upstream, start, calls, last);
    RunsStayConsistent(upstream, start, calls);
    CallEndsOwned(upstream, RunAll(upstream, start, calls), last);
    forall v | v in violations
      ensures v.NewFile? && v.rel !in upstream
    {
      assert match v
             case NewFile(rel) => v == NewFile(rel)
             case Modified(rel, declared) => v == Modified(rel, declared)
             case ManifestOrphan(name) => v == ManifestOrphan(name);
    }
  }

  /** The same from what a caller can check before the run: each patch set that is applied
      crashes clean, as it does if its programs never let anything but SystemExit escape. */
  lemma HarmlessPatchesStaySilent(
    upstream: Tree, ui: Tree, calls: seq<Call>, last: Call, violations: set<Violation>)
    requires forall call :: call in calls + [last] ==> WellFormed(call) && Harmless(call)
    requires !last.RejectedApply?
    requires DriftReport(upstream, RunAll(upstream, World(ui, map[]), calls + [last]),
                         last.modules, last.failed, violations)
    ensures Owned(upstream, RunAll(upstream, World(ui, map[]), calls + [last]))
    ensures forall v :: v in violations ==> v.NewFile? && v.rel !in upstream
  {
    hide WellFormed, Harmless, Crashes, After, RunAll, SafeRun, DriftReport, Owned;
    assert last in calls + [last];
    assert forall call :: call in calls ==> call in calls + [last];
    HarmlessCallsAreSafe(upstream, World(ui, map[]), calls + [last]);
    DriftGuardStaysSilent(upstream, ui, calls, last, violations);
  }

  // ---- The engine's own calls ----

  /** An order that apply_patches selects makes a well-formed call. */
  lemma SelectedIsWellFormed(
    modules: seq<PatchModule>, names: seq<string>, failed: set<string>, order: seq<PatchModule>)
    requires WellNamed(modules) && SelectedFrom(modules, names, order)
    ensures WellFormed(Apply(modules, failed, order))
  {
  }

  // ---- Reconciling right after an apply ----

  lemma {:induction false} ScriptKeepsHashes(w: World, who: string, script: Script, replies: seq<Reply>, limit: nat)
    requires who in w.patches
    ensures var after := RunScript(w, who, script, replies, limit).0.patches;
            w.patches.Keys == after.Keys &&
            forall name :: name in w.patches ==> after[name].sourceSha == w.patches[name].sourceSha
    decreases limit
  {
    var action := script(replies);
    if !action.Ends() && limit > 0 {
      var (next, reply) := Perform(w, who, action);
      ScriptKeepsHashes(next, who, script, replies + [reply], limit - 1);
    }
  }

  lemma {:induction false} ApplyKeepsListed(w: World, order: seq<PatchModule>, modules: seq<PatchModule>)
    requires Listed(w, modules) && DistinctNames(modules) && forall m :: m in order ==> m in modules
    ensures Listed(ApplyAll(w, order).world, modules)
    decreases order
  {
    if order != [] {
      var pm := order[0];
      assert pm in modules;
      var j :| 0 <= j < |modules| && modules[j] == pm;
      ScriptKeepsHashes(w, pm.meta.name, pm.script, [], pm.limit);
      var next := ApplyOne(w, pm).world;
      forall i | 0 <= i < |modules|
        ensures modules[i].meta.name in next.patches && !ShaChanged(next.patches, modules[i])
      {
        assert modules[i].meta.name == pm.meta.name ==> i == j;
      }
      ApplyKeepsListed(next, order[1..], modules);
    }
  }

  /** After an apply that ran to its end, reconciling with the same patch set changes nothing,
      exactly if each module that lacks its marker has nothing left to reset. */
  lemma ReconcileAfterApplyIsIdleIff(upstream: Tree, w: World, call: Call)
    requires call.Apply? && WellFormed(call) && Consistent(upstream, w) && !Crashes(upstream, w, call)
    ensures var after := After(upstream, w, call);
            Fixed(upstream, after, call.modules, call.failed) <==>
            forall i :: 0 <= i < |call.modules| && MarkerBroken(after.ui, after.patches, call.modules[i]) ==>
              IsReset(upstream, after, call.modules[i])
  {
    var reconciled := Reconciled(upstream, w, call.modules, call.failed);
    CallEndsOwned(upstream, w, call);
    OneCallCalms(upstream, w, call.modules, call.failed);
    ApplyKeepsListed(reconciled, call.order, call.modules);
    var after := After(upstream, w, call);
    assert after == ApplyAll(reconciled, call.order).world;
    FixedIffQuiet(upstream, after, call.modules, call.failed);
    hide Reconciled, ApplyAll, After, MarkerBroken, IsReset;
    if after.patches == map[] {
      assert WrittenFiles(after.patches) == {};
    }
  }

  // ---- What a crash costs ----

  /** A cold start leaves a tree alone that has nothing in common with upstream but equal files. */
  lemma ColdStartOfCleanTree(upstream: Tree, ui: Tree, modules: seq<PatchModule>, failed: set<string>)
    requires DistinctNames(modules) && forall rel :: !Diverges(upstream, ui, rel)
    ensures var kept := Reconciled(upstream, World(ui, map[]), modules, failed);
            kept.ui == ui && WrittenFiles(kept.patches) == {}
  {
    hide Reconciled, ColdTree;
    DistinctNamesNeverRepeat(modules, {});
    UnmarkedColdStartTree(upstream, ui, modules, failed);
    CleanTreeStays(upstream, ui, modules);
  }

  lemma CleanTreeStays(upstream: Tree, ui: Tree, modules: seq<PatchModule>)
    requires forall rel :: !Diverges(upstream, ui, rel)
    ensures ColdTree(upstream, ui, modules) == ui
  {
    hide IsIgnored, FirstDeclared, Declared;
    forall rel | rel in ui && rel in upstream
      ensures ui[rel] == upstream[rel]
    {
      assert !Diverges(upstream, ui, rel);
    }
  }

  /** Every interrupted call with this patch set, from every consistent state and under every
      upstream, ends owned. */
  ghost predicate CrashesEndOwned(call: Call) {
    forall upstream: Tree, w: World ::
      Consistent(upstream, w) && Crashes(upstream, w, call) ==> Owned(upstream, After(upstream, w, call))
  }

  /** A crash loses what the interrupted apply recorded. The exact condition speaks of the
      patch programs alone: whole calls that crash end owned, whatever the upstream, the tree
      and the manifest, if and only if from no tree do the programs crash after having
      changed a file that counts. */
  lemma CrashesEndOwnedIff(call: Call)
    requires call.Apply? && WellFormed(call)
    ensures CrashesEndOwned(call) <==> Harmless(call)
  {
    if Harmless(call) {
      forall upstream: Tree, w: World | Consistent(upstream, w) && Crashes(upstream, w, call)
        ensures Owned(upstream, After(upstream, w, call))
      {
        HarmlessEndsClean(upstream, w, call);
        CallEndsOwned(upstream, w, call);
      }
    } else {
      var ui: Tree :| ApplyOnTree(ui, call.order).1 && !OnlyListedChange(ui, ApplyOnTree(ui, call.order).0, {});
      var upstream := HarmfulCrash(ui, call);
      assert !CrashesEndOwned(call);
    }
  }

  /** The upstream under which a harmful crash shows, from a cold start. */
  lemma HarmfulCrash(ui: Tree, call: Call) returns (upstream: Tree)
    requires call.Apply? && WellFormed(call)
    requires ApplyOnTree(ui, call.order).1 && !OnlyListedChange(ui, ApplyOnTree(ui, call.order).0, {})
    ensures var w := World(ui, map[]);
            Consistent(upstream, w) && Crashes(upstream, w, call) && !Owned(upstream, After(upstream, w, call))
  {
    var left := ApplyOnTree(ui, call.order).0;
    hide ApplyOnTree, IsIgnored, WellFormed;
    var rel :| rel in left && !IsIgnored(rel) && (rel !in ui || ui[rel] != left[rel]);
    upstream := map[rel := if rel in ui then ui[rel] else left[rel] + "x"];
    assert left[rel] != left[rel] + "x";
    assert DistinctNames(call.modules) by {
      assert WellNamed(call.modules);
    }
    ColdStartOfCleanTree(upstream, ui, call.modules, call.failed);
    var kept := Reconciled(upstream, World(ui, map[]), call.modules, call.failed);
    ApplyIgnoresManifest(kept, call.order);
    hide Reconciled, ApplyAll;
    assert Crashes(upstream, World(ui, map[]), call);
    assert After(upstream, World(ui, map[]), call) == World(left, kept.patches);
    assert Diverges(upstream, left, rel) && rel !in WrittenFiles(kept.patches);
  }

  const WRITE_THEN_FAIL: Script := replies => if replies == [] then Write("a", "1") else Raise("OSError")

  const FAILING: PatchModule := PatchModule(PatchMeta("p", [], [], "", ""), "sha", WRITE_THEN_FAIL, 1)

  lemma FailingRun(w: World)
    requires "p" in w.patches
    ensures ApplyAll(w, [FAILING]).crashed && ApplyAll(w, [FAILING]).world.ui == w.ui["a" := "1"]
  {
    var next := Put(w, "p", "a", "1");
    assert [] + [Done] == [Done];
    assert RunScript(next, "p", WRITE_THEN_FAIL, [Done], 0) == (next, Raise("OSError"));
    assert RunScript(w, "p", WRITE_THEN_FAIL, [], 1) == (next, Raise("OSError"));
  }

  /** So the freedom from crashes cannot be dropped: one write followed by an escaping
      exception leaves a divergent file that nobody owns. */
  lemma CrashLosesOwnership()
    ensures var upstream := map["a" := "0"];
            var call := Apply([FAILING], {}, [FAILING]);
            && WellFormed(call)
            && Consistent(upstream, World(upstream, map[]))
            && Crashes(upstream, World(upstream, map[]), call)
            && !Owned(upstream, After(upstream, World(upstream, map[]), call))
  {
    var upstream: Tree := map["a" := "0"];
    var w := World(upstream, map[]);
    ColdStartMatchesUpstream(upstream, upstream, [FAILING], {});
    NamesSplit([FAILING]);
    var kept := Reconciled(upstream, w, [FAILING], {});
    assert "p" in Names([FAILING]);
    FailingRun(kept);
    hide Reconciled, ApplyAll, IsIgnored;
    assert kept.patches.Keys == {"p"};
    assert kept.patches["p"] == Fresh([FAILING][0]);
    assert WrittenFiles(kept.patches) == {};
    var after := After(upstream, w, Apply([FAILING], {}, [FAILING]));
    assert after == World(kept.ui["a" := "1"], kept.patches);
    assert Diverges(upstream, after.ui, "a");
    NotIgnored();
  }

  // ---- Why names must be there and distinct ----

  const NAMELESS: PatchModule :=
    PatchModule(PatchMeta("", [], [], "", ""), "sha",
                replies => if replies == [] then Write("a", "1") else Return(true), 1)

  /** What a patch without a name writes is recorded for nobody. */
  lemma NamelessPatchOwnsNothing()
    ensures var upstream := map["a" := "0"];
            var progress := ApplyAll(World(upstream, map[]), [NAMELESS]);
            !progress.crashed && !Owned(upstream, progress.world)
  {
    var upstream: Tree := map["a" := "0"];
    var w := World(upstream, map[]);
    var next := World(map["a" := "1"], map[]);
    assert [] + [Done] == [Done];
    assert RunScript(next, "", NAMELESS.script, [Done], 0) == (next, Return(true));
    assert w.ui["a" := "1"] == next.ui;
    assert Perform(w, "", Write("a", "1")) == (next, Done);
    assert RunScript(w, "", NAMELESS.script, [], 1) == (next, Return(true));
    var after := ApplyOne(w, NAMELESS).world;
    assert after.patches == WithStatus(map[], NAMELESS, StatusAfter(next.ui, NAMELESS.meta, true));
    StatusKeepsWritten(map[], NAMELESS, StatusAfter(next.ui, NAMELESS.meta, true));
    hide IsIgnored, RunScript;
    assert ApplyAll(w, [NAMELESS]).world == after by {
      assert [NAMELESS][1..] == [];
      assert ApplyAll(after, []).world == after;
    }
    assert Diverges(upstream, after.ui, "a");
    NotIgnored();
  }

  const FIRST_TWIN: PatchModule := PatchModule(PatchMeta("p", [], [], "", ""), "sha", _ => Return(false), 0)
  const SECOND_TWIN: PatchModule := PatchModule(PatchMeta("p", ["a"], [], "", ""), "sha", _ => Return(false), 0)

  /** Of two patches with one name, a cold start overlooks what the second declares. */
  lemma SecondTwinIsOverlooked()
    ensures var upstream := map["a" := "0"];
            !Owned(upstream, Reconciled(upstream, World(map["a" := "1"], map[]), [FIRST_TWIN, SECOND_TWIN], {}))
  {
    var upstream, ui: Tree := map["a" := "0"], map["a" := "1"];
    var twins := [FIRST_TWIN, SECOND_TWIN];
    assert twins[1..] == [SECOND_TWIN] && [SECOND_TWIN][1..] == [];
    assert RepeatsUnmarked([], {} + {"p"} + {"p"}) && FirstDeclared([], {} + {"p"} + {"p"}) == {};
    assert RepeatsUnmarked([SECOND_TWIN], {} + {"p"}) && FirstDeclared([SECOND_TWIN], {} + {"p"}) == {};
    assert RepeatsUnmarked(twins, {}) && FirstDeclared(twins, {}) == {};
    assert "a" in Declared(twins) by {
      assert "a" in twins[1].meta.files;
    }
    NotIgnored();
    hide IsIgnored, FirstDeclared, Declared, RepeatsUnmarked;
    assert Diverges(upstream, ui, "a");
    UnmarkedColdStartOwnedIff(upstream, ui, twins, {});
  }
}
