/** What applying patches does to the tree and the in-memory manifest. */
module Applying {
  import opened PatchTypes
  import opened PatchContexts
  import opened Reconciling

  datatype PatchResult = PatchResult(name: string, status: string)

  /** The status of a patch that returned `applied`. */
  function StatusAfter(ui: Tree, meta: PatchMeta, applied: bool): string {
    if applied then "applied"
    else if meta.verifyMarker != "" && (CheckFile(meta) == "" || MarkerAbsent(ui, CheckFile(meta), meta.verifyMarker))
    then "broken"
    else "skipped"
  }

  function WithStatus(patches: Patches, pm: PatchModule, status: string): Patches {
    var name := pm.meta.name;
    var entry := if name in patches then patches[name] else PatchEntry(name, "skipped", "", []);
    patches[name := entry.(status := status, sourceSha := pm.sha)]
  }

  /** `crashed` means that something other than SystemExit came out of a patch. */
  datatype Progress = Progress(world: World, results: seq<PatchResult>, crashed: bool)

  function ApplyOne(w: World, pm: PatchModule): Progress {
    var (next, ending) := RunScript(w, pm.meta.name, pm.script, [], pm.limit);
    match ending
    case Return(applied) =>
      var status := StatusAfter(next.ui, pm.meta, applied);
      Progress(World(next.ui, WithStatus(next.patches, pm, status)), [PatchResult(pm.meta.name, status)], false)
    case Exit(_) =>
      Progress(next, [PatchResult(pm.meta.name, "broken")], false)
    case _ =>
      Progress(next, [], true)
  }

  function ApplyAll(w: World, order: seq<PatchModule>): Progress
    decreases order
  {
    if order == [] then Progress(w, [], false)
    else
      var first := ApplyOne(w, order[0]);
      if first.crashed then first
      else
        var rest := ApplyAll(first.world, order[1..]);
        rest.(results := first.results + rest.results)
  }

  // ---- Patches keep ownership, whatever they do ----

  lemma RecordingOwns(patches: Patches, who: string, rel: Path)
    requires who != ""
    ensures WrittenFiles(Recorded(patches, who, rel)) == WrittenFiles(patches) + {rel}
  {
    var after := Recorded(patches, who, rel);
    assert who in after && rel in after[who].written;
    forall r | r in WrittenFiles(patches)
      ensures r in WrittenFiles(after)
    {
      var n :| n in patches && r in patches[n].written;
      assert n in after && r in after[n].written;
    }
  }

  /** Whatever a patch with a name does, everything it makes diverge is owned; with or without
      a name it drops no recorded file. */
  lemma {:induction false} ScriptKeepsOwnership(
    upstream: Tree, w: World, who: string, script: Script, replies: seq<Reply>, limit: nat)
    ensures who != "" && Owned(upstream, w) ==> Owned(upstream, RunScript(w, who, script, replies, limit).0)
    ensures w.patches.Keys <= RunScript(w, who, script, replies, limit).0.patches.Keys <= w.patches.Keys + {who}
    ensures WrittenFiles(w.patches) <= WrittenFiles(RunScript(w, who, script, replies, limit).0.patches)
    decreases limit
  {
    var action := script(replies);
    if !action.Ends() && limit > 0 {
      var (next, reply) := Perform(w, who, action);
      if !action.Read? && who != "" {
        RecordingOwns(w.patches, who, action.rel);
      }
      ScriptKeepsOwnership(upstream, next, who, script, replies + [reply], limit - 1);
    }
  }

  lemma StatusKeepsWritten(patches: Patches, pm: PatchModule, status: string)
    ensures WrittenFiles(WithStatus(patches, pm, status)) == WrittenFiles(patches)
  {
    var after := WithStatus(patches, pm, status);
    forall r | r in WrittenFiles(patches)
      ensures r in WrittenFiles(after)
    {
      var n :| n in patches && r in patches[n].written;
      assert n in after && r in after[n].written;
    }
  }

  lemma OneKeepsOwnership(upstream: Tree, w: World, pm: PatchModule)
    ensures var next := ApplyOne(w, pm).world;
            && (pm.meta.name != "" && Owned(upstream, w) ==> Owned(upstream, next))
            && w.patches.Keys <= next.patches.Keys <= w.patches.Keys + {pm.meta.name}
            && WrittenFiles(w.patches) <= WrittenFiles(next.patches)
  {
    ScriptKeepsOwnership(upstream, w, pm.meta.name, pm.script, [], pm.limit);
    var ran := RunScript(w, pm.meta.name, pm.script, [], pm.limit).0;
    StatusKeepsWritten(ran.patches, pm, StatusAfter(ran.ui, pm.meta, true));
    StatusKeepsWritten(ran.patches, pm, StatusAfter(ran.ui, pm.meta, false));
    hide RunScript, StatusAfter, IsIgnored, WrittenFiles, Diverges;
  }

  lemma {:induction false} ApplyKeepsOwnership(upstream: Tree, w: World, order: seq<PatchModule>)
    ensures "" !in Names(order) && Owned(upstream, w) ==> Owned(upstream, ApplyAll(w, order).world)
    ensures w.patches.Keys <= ApplyAll(w, order).world.patches.Keys <= w.patches.Keys + Names(order)
    ensures WrittenFiles(w.patches) <= WrittenFiles(ApplyAll(w, order).world.patches)
    decreases order
  {
    if order != [] {
      NamesSplit(order);
      OneKeepsOwnership(upstream, w, order[0]);
      hide ApplyOne, Owned, WrittenFiles, Names, Declared;
      ApplyKeepsOwnership(upstream, ApplyOne(w, order[0]).world, order[1..]);
    }
  }

  // ---- What apply reports is what the manifest says ----

  /** A patch records under its own name only. */
  lemma {:induction false} ScriptKeepsOtherEntries(
    w: World, who: string, script: Script, replies: seq<Reply>, limit: nat)
    ensures var after := RunScript(w, who, script, replies, limit).0.patches;
            forall name :: name in w.patches && name != who ==> name in after && after[name] == w.patches[name]
    decreases limit
  {
    var action := script(replies);
    if !action.Ends() && limit > 0 {
      var (next, reply) := Perform(w, who, action);
      ScriptKeepsOtherEntries(next, who, script, replies + [reply], limit - 1);
    }
  }

  lemma {:induction false} ApplyKeepsOtherEntries(w: World, order: seq<PatchModule>, name: string)
    requires name in w.patches && name !in Names(order)
    ensures name in ApplyAll(w, order).world.patches
    ensures ApplyAll(w, order).world.patches[name] == w.patches[name]
    decreases order
  {
    if order != [] {
      NamesSplit(order);
      ScriptKeepsOtherEntries(w, order[0].meta.name, order[0].script, [], order[0].limit);
      ApplyKeepsOtherEntries(ApplyOne(w, order[0]).world, order[1..], name);
    }
  }

  /** An apply that ends reports once on each patch, in order. Unless it reports a patch as
      broken, the manifest carries the reported status and the module's hash. */
  lemma {:induction false} ApplyReportsTruly(w: World, order: seq<PatchModule>)
    requires DistinctNames(order) && !ApplyAll(w, order).crashed
    ensures |ApplyAll(w, order).results| == |order|
    ensures forall i :: 0 <= i < |order| ==> ApplyAll(w, order).results[i].name == order[i].meta.name
    ensures var (results, patches) := (ApplyAll(w, order).results, ApplyAll(w, order).world.patches);
            forall i :: 0 <= i < |order| && results[i].status != "broken" ==>
              && order[i].meta.name in patches
              && patches[order[i].meta.name].status == results[i].status
              && patches[order[i].meta.name].sourceSha == order[i].sha
    decreases order
  {
    if order != [] {
      var pm, rest := order[0], order[1..];
      var first := ApplyOne(w, pm);
      OneReportsTruly(w, pm);
      assert pm.meta.name !in Names(rest);
      hide ApplyOne, Names;
      ApplyReportsTruly(first.world, rest);
      if pm.meta.name in first.world.patches {
        ApplyKeepsOtherEntries(first.world, rest, pm.meta.name);
      }
      assert ApplyAll(w, order).results == first.results + ApplyAll(first.world, rest).results;
      assert order == [pm] + rest;
      hide *;
    }
  }

  lemma OneReportsTruly(w: World, pm: PatchModule)
    requires !ApplyOne(w, pm).crashed
    ensures var (results, patches) := (ApplyOne(w, pm).results, ApplyOne(w, pm).world.patches);
            && |results| == 1 && results[0].name == pm.meta.name
            && (results[0].status != "broken" ==>
                  && pm.meta.name in patches
                  && patches[pm.meta.name].status == results[0].status
                  && patches[pm.meta.name].sourceSha == pm.sha)
  {
    hide RunScript, StatusAfter;
  }

  // ---- What each report means ----

  /** The state in which patch `i` starts. */
  function StartOf(w: World, order: seq<PatchModule>, i: nat): World
    requires i <= |order|
  {
    ApplyAll(w, order[..i]).world
  }

  /** The status to report for a program that ended with `ending` on the tree `ui`. */
  ghost predicate IsStatus(ui: Tree, meta: PatchMeta, ending: Action, status: string) {
    && (status == "applied" <==> ending == Return(true))
    && (status == "broken" <==>
          ending.Exit? || (ending == Return(false) && meta.verifyMarker != "" && !MarkerFound(ui, meta)))
    && (status == "skipped" <==>
          ending == Return(false) && (meta.verifyMarker == "" || MarkerFound(ui, meta)))
  }

  lemma OneStatus(w: World, pm: PatchModule)
    requires !ApplyOne(w, pm).crashed
    ensures var (left, ending) := RunScript(w, pm.meta.name, pm.script, [], pm.limit);
            var (results, after) := (ApplyOne(w, pm).results, ApplyOne(w, pm).world);
            && |results| == 1 && results[0].name == pm.meta.name
            && IsStatus(left.ui, pm.meta, ending, results[0].status)
            && after.ui == left.ui
            && if ending.Exit? then after.patches == left.patches
               else pm.meta.name in after.patches
                    && after.patches[pm.meta.name].status == results[0].status
                    && after.patches[pm.meta.name].sourceSha == pm.sha
  {
    var left := RunScript(w, pm.meta.name, pm.script, [], pm.limit).0;
    MarkerAbsentIff(left.ui, pm.meta);
    hide RunScript, MarkerAbsent, CheckFile;
  }

  lemma {:induction false} ApplyInTwoParts(w: World, order: seq<PatchModule>, i: nat)
    requires i < |order| && !ApplyAll(w, order).crashed
    ensures !ApplyAll(w, order[..i]).crashed && !ApplyOne(StartOf(w, order, i), order[i]).crashed
    ensures |ApplyAll(w, order).results| == |order|
    ensures [ApplyAll(w, order).results[i]] == ApplyOne(StartOf(w, order, i), order[i]).results
    ensures ApplyAll(w, order).world == ApplyAll(StartOf(w, order, i + 1), order[i + 1..]).world
    ensures StartOf(w, order, i + 1) == ApplyOne(StartOf(w, order, i), order[i]).world
    ensures !ApplyAll(StartOf(w, order, i + 1), order[i + 1..]).crashed
    decreases i
  {
    var rest := order[1..];
    var first := ApplyOne(w, order[0]);
    OneStatus(w, order[0]);
    assert first.results == [first.results[0]];
    ResultsCount(first.world, rest);
    hide ApplyOne, IsStatus;
    assert ApplyAll(w, order).results == [first.results[0]] + ApplyAll(first.world, rest).results;
    if i == 0 {
      assert order[..0] == [] && order[..1] == [order[0]] && [order[0]][1..] == [];
      assert ApplyAll(first.world, []) == Progress(first.world, [], false);
    } else {
      ApplyInTwoParts(first.world, rest, i - 1);
      assert order[..i][1..] == rest[..i - 1] && order[..i + 1][1..] == rest[..i];
      assert order[i + 1..] == rest[i..];
    }
  }

  lemma {:induction false} ResultsCount(w: World, order: seq<PatchModule>)
    requires !ApplyAll(w, order).crashed
    ensures |ApplyAll(w, order).results| == |order|
    decreases order
  {
    if order != [] {
      OneStatus(w, order[0]);
      hide ApplyOne, IsStatus;
      ResultsCount(ApplyOne(w, order[0]).world, order[1..]);
    }
  }

  /** The i-th report of an apply, and what the final manifest says of that patch. It is applied
      if its program returned True, and broken if the program exited, or returned False while
      the marker was not in the file to look in; otherwise it is skipped. The manifest has the
      same status and the current hash, except after an exit, which leaves status and hash. */
  lemma ReportsMeanThis(w: World, order: seq<PatchModule>, i: nat)
    requires DistinctNames(order) && !ApplyAll(w, order).crashed && i < |order|
    ensures |ApplyAll(w, order).results| == |order|
    ensures var (pm, start, result, patches) :=
              (order[i], StartOf(w, order, i), ApplyAll(w, order).results[i], ApplyAll(w, order).world.patches);
            var (left, ending) := RunScript(start, pm.meta.name, pm.script, [], pm.limit);
            && result.name == pm.meta.name
            && IsStatus(left.ui, pm.meta, ending, result.status)
            && if ending.Exit? then
                 pm.meta.name in left.patches ==>
                   pm.meta.name in patches && patches[pm.meta.name] == left.patches[pm.meta.name]
               else
                 && pm.meta.name in patches
                 && patches[pm.meta.name].status == result.status
                 && patches[pm.meta.name].sourceSha == pm.sha
  {
    var pm, start := order[i], StartOf(w, order, i);
    ApplyInTwoParts(w, order, i);
    OneStatus(start, pm);
    var next := StartOf(w, order, i + 1);
    assert pm.meta.name !in Names(order[i + 1..]);
    hide ApplyOne, IsStatus, Names, ApplyAll, RunScript, StartOf;
    if pm.meta.name in next.patches {
      ApplyKeepsOtherEntries(next, order[i + 1..], pm.meta.name);
    }
  }

  const FLAGS_NOTHING: PatchModule :=
    PatchModule(PatchMeta("p", ["a"], [], "a", "M"), "sha", _ => Return(false), 0)

  /** An input: a patch that returns False where its file is missing is broken, not skipped. */
  lemma MissingFileIsBroken()
    ensures var progress := ApplyAll(World(map[], map[]), [FLAGS_NOTHING]);
            && !progress.crashed && progress.results == [PatchResult("p", "broken")]
            && "p" in progress.world.patches && progress.world.patches["p"].status == "broken"
  {
    var w := World(map[], map[]);
    var one := ApplyOne(w, FLAGS_NOTHING);
    assert RunScript(w, "p", FLAGS_NOTHING.script, [], 0) == (w, Return(false));
    assert !one.crashed;
    OneStatus(w, FLAGS_NOTHING);
    hide ApplyOne, RunScript;
    assert [FLAGS_NOTHING][1..] == [] && ApplyAll(one.world, []) == Progress(one.world, [], false);
    assert one.results == [one.results[0]] && one.results + [] == one.results;
  }
}
