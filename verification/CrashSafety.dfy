/** When losing the record of what patches wrote does no harm: after a crash, and for a patch
    without a name. */
module CrashSafety {
  import opened Applying
  import opened PatchContexts
  import opened PatchTypes
  import opened Reconciling

  // ---- What patches do to the tree has nothing to do with the manifest ----

  /** A run outside any patch invocation, which records nothing. */
  function OnTree(ui: Tree, script: Script, replies: seq<Reply>, limit: nat): (Tree, Action) {
    var (w, ending) := RunScript(World(ui, map[]), "", script, replies, limit);
    (w.ui, ending)
  }

  /** The tree after the patches in `order`, and whether one of them crashed. */
  function ApplyOnTree(ui: Tree, order: seq<PatchModule>): (Tree, bool)
    decreases order
  {
    if order == [] then (ui, false)
    else
      var (next, ending) := OnTree(ui, order[0].script, [], order[0].limit);
      if ending.Raise? then (next, true) else ApplyOnTree(next, order[1..])
  }

  lemma {:induction false} NamelessRunRecordsNothing(
    w: World, script: Script, replies: seq<Reply>, limit: nat)
    ensures RunScript(w, "", script, replies, limit).0.patches == w.patches
    decreases limit
  {
    var action := script(replies);
    if !action.Ends() && limit > 0 {
      var (next, reply) := Perform(w, "", action);
      NamelessRunRecordsNothing(next, script, replies + [reply], limit - 1);
    }
  }

  lemma {:induction false} ScriptIgnoresManifest(
    w: World, who: string, script: Script, replies: seq<Reply>, limit: nat)
    ensures var (after, ending) := RunScript(w, who, script, replies, limit);
            (after.ui, ending) == OnTree(w.ui, script, replies, limit)
    decreases limit
  {
    var action := script(replies);
    if !action.Ends() && limit > 0 {
      var (next, reply) := Perform(w, who, action);
      var alone := Perform(World(w.ui, map[]), "", action).0;
      assert alone == World(next.ui, map[]);
      ScriptIgnoresManifest(next, who, script, replies + [reply], limit - 1);
    }
  }

  lemma {:induction false} ApplyIgnoresManifest(w: World, order: seq<PatchModule>)
    ensures (ApplyAll(w, order).world.ui, ApplyAll(w, order).crashed) == ApplyOnTree(w.ui, order)
    decreases order
  {
    if order != [] {
      var pm := order[0];
      ScriptIgnoresManifest(w, pm.meta.name, pm.script, [], pm.limit);
      hide OnTree, RunScript, StatusAfter, WithStatus;
      var first := ApplyOne(w, pm);
      ApplyIgnoresManifest(first.world, order[1..]);
    }
  }

  // ---- Losing the record ----

  /** Every file that changed or came, ignored ones aside, is among `listed`. */
  ghost predicate OnlyListedChange(before: Tree, after: Tree, listed: set<Path>) {
    forall rel :: rel in after && !IsIgnored(rel) && (rel !in before || before[rel] != after[rel]) ==> rel in listed
  }

  /** Going from `before` to `after` with the manifest as it was, under any upstream. */
  ghost predicate KeepsOwnership(before: Tree, after: Tree, patches: Patches) {
    forall upstream: Tree :: Owned(upstream, World(before, patches)) ==> Owned(upstream, World(after, patches))
  }

  lemma LosingRecordIff(before: Tree, after: Tree, patches: Patches)
    ensures OnlyListedChange(before, after, WrittenFiles(patches)) <==> KeepsOwnership(before, after, patches)
  {
    hide IsIgnored, WrittenFiles;
    if !OnlyListedChange(before, after, WrittenFiles(patches)) {
      var rel :|
        && rel in after && !IsIgnored(rel)
        && (rel !in before || before[rel] != after[rel])
        && rel !in WrittenFiles(patches);
      var upstream: Tree := map[rel := if rel in before then before[rel] else after[rel] + "x"];
      assert Owned(upstream, World(before, patches));
      assert after[rel] != after[rel] + "x";
      assert Diverges(upstream, after, rel);
      assert !Owned(upstream, World(after, patches));
    } else {
      forall upstream: Tree | Owned(upstream, World(before, patches))
        ensures Owned(upstream, World(after, patches))
      {
        forall rel | Diverges(upstream, after, rel) && !IsIgnored(rel)
          ensures rel in WrittenFiles(patches)
        {
          assert rel in before && before[rel] == after[rel] ==> Diverges(upstream, before, rel);
        }
      }
    }
  }

  /** From no tree do the patches in `order` crash after having changed anything but ignored
      files and files in `listed`. It speaks of the programs alone. */
  ghost predicate CrashesOnlyClean(order: seq<PatchModule>, listed: set<Path>) {
    forall ui :: ApplyOnTree(ui, order).1 ==> OnlyListedChange(ui, ApplyOnTree(ui, order).0, listed)
  }

  /** From every owned state with this manifest a crash of the patches leaves an owned one. */
  ghost predicate CrashesKeepOwnership(order: seq<PatchModule>, patches: Patches) {
    forall upstream: Tree, ui: Tree ::
      Owned(upstream, World(ui, patches)) && ApplyAll(World(ui, patches), order).crashed ==>
      Owned(upstream, World(ApplyAll(World(ui, patches), order).world.ui, patches))
  }

  /** Over all trees and upstreams: a crash, which leaves the stored manifest as it was
      before the patches, keeps ownership if and only if the patches crash clean. */
  lemma CrashKeepsOwnershipIff(order: seq<PatchModule>, patches: Patches)
    ensures CrashesOnlyClean(order, WrittenFiles(patches)) <==> CrashesKeepOwnership(order, patches)
  {
    hide Owned, OnlyListedChange, ApplyAll, ApplyOnTree, WrittenFiles;
    forall ui: Tree
      ensures var progress := ApplyAll(World(ui, patches), order);
              (progress.world.ui, progress.crashed) == ApplyOnTree(ui, order)
      ensures OnlyListedChange(ui, ApplyOnTree(ui, order).0, WrittenFiles(patches)) <==>
              KeepsOwnership(ui, ApplyOnTree(ui, order).0, patches)
    {
      ApplyIgnoresManifest(World(ui, patches), order);
      LosingRecordIff(ui, ApplyOnTree(ui, order).0, patches);
    }
    if CrashesKeepOwnership(order, patches) {
      forall ui: Tree | ApplyOnTree(ui, order).1
        ensures OnlyListedChange(ui, ApplyOnTree(ui, order).0, WrittenFiles(patches))
      {
        assert ApplyAll(World(ui, patches), order).crashed;
        assert KeepsOwnership(ui, ApplyOnTree(ui, order).0, patches);
      }
    }
    if CrashesOnlyClean(order, WrittenFiles(patches)) {
      forall upstream: Tree, ui: Tree |
        Owned(upstream, World(ui, patches)) && ApplyAll(World(ui, patches), order).crashed
        ensures Owned(upstream, World(ApplyAll(World(ui, patches), order).world.ui, patches))
      {
        assert KeepsOwnership(ui, ApplyOnTree(ui, order).0, patches);
      }
    }
  }

  /** The same for a patch whose name is empty, however it ends: over all trees and
      upstreams it keeps ownership if and only if it changes only what is listed already. */
  lemma NamelessKeepsOwnershipIff(pm: PatchModule, patches: Patches)
    requires pm.meta.name == ""
    ensures (forall ui :: OnlyListedChange(ui, OnTree(ui, pm.script, [], pm.limit).0, WrittenFiles(patches))) <==>
            forall upstream: Tree, ui: Tree ::
              Owned(upstream, World(ui, patches)) ==> Owned(upstream, ApplyOne(World(ui, patches), pm).world)
  {
    forall ui: Tree
      ensures OnlyListedChange(ui, OnTree(ui, pm.script, [], pm.limit).0, WrittenFiles(patches)) <==>
              forall upstream: Tree ::
                Owned(upstream, World(ui, patches)) ==> Owned(upstream, ApplyOne(World(ui, patches), pm).world)
    {
      NamelessStep(World(ui, patches), pm);
      var after := OnTree(ui, pm.script, [], pm.limit).0;
      LosingRecordIff(ui, after, patches);
      hide OnTree, ApplyOne, OnlyListedChange, WrittenFiles, IsIgnored;
      forall upstream: Tree
        ensures Owned(upstream, ApplyOne(World(ui, patches), pm).world) <==> Owned(upstream, World(after, patches))
      {
      }
    }
    hide OnlyListedChange, OnTree, Owned, ApplyOne, WrittenFiles;
  }

  lemma NamelessStep(w: World, pm: PatchModule)
    requires pm.meta.name == ""
    ensures ApplyOne(w, pm).world.ui == OnTree(w.ui, pm.script, [], pm.limit).0
    ensures WrittenFiles(ApplyOne(w, pm).world.patches) == WrittenFiles(w.patches)
  {
    ScriptIgnoresManifest(w, "", pm.script, [], pm.limit);
    NamelessRunRecordsNothing(w, pm.script, [], pm.limit);
    var ran := RunScript(w, "", pm.script, [], pm.limit).0;
    StatusKeepsWritten(w.patches, pm, StatusAfter(ran.ui, pm.meta, true));
    StatusKeepsWritten(w.patches, pm, StatusAfter(ran.ui, pm.meta, false));
    hide RunScript, StatusAfter, WithStatus, WrittenFiles;
  }

  // ---- Programs that never crash, or only before they write ----

  ghost predicate NeverRaises(script: Script) {
    forall replies :: !script(replies).Raise?
  }

  lemma {:induction false} NeverRaisingEnds(ui: Tree, script: Script, replies: seq<Reply>, limit: nat)
    requires NeverRaises(script)
    ensures !OnTree(ui, script, replies, limit).1.Raise?
    decreases limit
  {
    var action := script(replies);
    if !action.Ends() && limit > 0 {
      var (next, reply) := Perform(World(ui, map[]), "", action);
      assert next == World(next.ui, map[]);
      NeverRaisingEnds(next.ui, script, replies + [reply], limit - 1);
    }
  }

  lemma {:induction false} NeverRaisingNeverCrashes(ui: Tree, order: seq<PatchModule>)
    requires forall m :: m in order ==> NeverRaises(m.script)
    ensures !ApplyOnTree(ui, order).1
    decreases order
  {
    if order != [] {
      var pm := order[0];
      assert pm in order;
      NeverRaisingEnds(ui, pm.script, [], pm.limit);
      hide OnTree, NeverRaises;
      NeverRaisingNeverCrashes(OnTree(ui, pm.script, [], pm.limit).0, order[1..]);
    }
  }

  /** It can raise only while all it has done is read. */
  ghost predicate RaisesBeforeWriting(script: Script) {
    forall replies :: script(replies).Raise? ==>
      forall i :: 0 <= i < |replies| ==> script(replies[..i]).Read?
  }

  lemma {:induction false} OnlyReadSoFar(ui: Tree, script: Script, replies: seq<Reply>, limit: nat)
    requires RaisesBeforeWriting(script) && OnTree(ui, script, replies, limit).1.Raise?
    ensures OnTree(ui, script, replies, limit).0 == ui
    decreases limit
  {
    var action := script(replies);
    if !action.Ends() && limit > 0 {
      var (next, reply) := Perform(World(ui, map[]), "", action);
      assert next == World(next.ui, map[]);
      OnlyReadSoFar(next.ui, script, replies + [reply], limit - 1);
      RaiseIsAfterReads(next.ui, script, replies + [reply], limit - 1, |replies|);
      assert (replies + [reply])[..|replies|] == replies;
    }
  }

  lemma {:induction false} RaiseIsAfterReads(ui: Tree, script: Script, replies: seq<Reply>, limit: nat, i: nat)
    requires RaisesBeforeWriting(script) && OnTree(ui, script, replies, limit).1.Raise? && i < |replies|
    ensures script(replies[..i]).Read?
    decreases limit
  {
    var action := script(replies);
    if !action.Ends() && limit > 0 {
      var (next, reply) := Perform(World(ui, map[]), "", action);
      assert next == World(next.ui, map[]);
      RaiseIsAfterReads(next.ui, script, replies + [reply], limit - 1, i);
      assert (replies + [reply])[..i] == replies[..i];
    }
  }

  /** A set of patches crashes clean if none raises, but for the first one, which may raise
      before it writes. */
  lemma EarlyRaisingCrashesClean(order: seq<PatchModule>, listed: set<Path>)
    requires order != [] && RaisesBeforeWriting(order[0].script)
    requires forall m :: m in order[1..] ==> NeverRaises(m.script)
    ensures CrashesOnlyClean(order, listed)
  {
    var pm := order[0];
    forall ui: Tree | ApplyOnTree(ui, order).1
      ensures OnlyListedChange(ui, ApplyOnTree(ui, order).0, listed)
    {
      var (next, ending) := OnTree(ui, pm.script, [], pm.limit);
      hide OnTree, NeverRaises, RaisesBeforeWriting;
      if ending.Raise? {
        OnlyReadSoFar(ui, pm.script, [], pm.limit);
      } else {
        NeverRaisingNeverCrashes(next, order[1..]);
      }
    }
  }

  /** Writes back what it has read, and then raises. */
  const REWRITES: Script :=
    replies =>
      if |replies| == 0 then Read("a")
      else if |replies| == 1 && replies[0] == Text("0") then Write("a", "0")
      else Raise("OSError")

  /** What counts is what has changed, not what has been written. */
  lemma RewritingCrashesClean()
    ensures CrashesOnlyClean([PatchModule(PatchMeta("p", [], [], "", ""), "sha", REWRITES, 2)], {})
  {
    var order := [PatchModule(PatchMeta("p", [], [], "", ""), "sha", REWRITES, 2)];
    forall ui: Tree
      ensures ApplyOnTree(ui, order) == (ui, true)
    {
      var w := World(ui, map[]);
      var reply := Perform(w, "", Read("a")).1;
      assert [] + [reply] == [reply];
      assert RunScript(w, "", REWRITES, [reply] + [Done], 0) == (w, Raise("OSError"));
      if reply == Text("0") {
        assert w.ui["a" := "0"] == w.ui;
        assert Perform(w, "", Write("a", "0")) == (w, Done);
      }
      assert RunScript(w, "", REWRITES, [reply], 1) == (w, Raise("OSError"));
      assert RunScript(w, "", REWRITES, [], 2) == (w, Raise("OSError"));
    }
    hide ApplyOnTree;
  }
}
