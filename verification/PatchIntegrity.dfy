/** The integrity check of patches: a context that records what a patch would write, and
    how far that agrees with what the real context does. */
module PatchIntegrity {
  import opened PatchContexts
  import opened PatchTypes

  type Captured = map<Path, Content>

  function PerformCaptured(ui: Tree, written: Captured, action: Action): (Captured, Reply)
    requires !action.Ends()
  {
    match action
    case Read(rel) => (written, if rel in ui then Text(ui[rel]) else Missing)
    case Write(rel, text) => (written[rel := text], Done)
    case WriteIfChanged(rel, text) => (written[rel := text], Flag(true))
    case CreateFile(rel, text) => (written[rel := text], Flag(true))
  }

  function RunCaptured(ui: Tree, written: Captured, script: Script, replies: seq<Reply>, limit: nat): (Captured, Action)
    decreases limit
  {
    var action := script(replies);
    if action.Ends() then (written, action)
    else if limit == 0 then (written, CUT_OFF)
    else
      var (next, reply) := PerformCaptured(ui, written, action);
      RunCaptured(ui, next, script, replies + [reply], limit - 1)
  }

  class CaptureContext {
    const ui: Disk
    var written: Captured

    constructor (ui: Disk)
      ensures this.ui == ui && written == map[]
    {
      this.ui := ui;
      written := map[];
    }

    /** Calls a patch's `apply`; no file is touched. */
    method Invoke(script: Script, limit: nat) returns (ending: Action)
      modifies this
      ensures (written, ending) == RunCaptured(ui.files, old(written), script, [], limit)
    {
      var replies: seq<Reply> := [];
      var left: nat := limit;
      ending := script(replies);
      while !ending.Ends() && left > 0
        invariant ending == script(replies)
        invariant RunCaptured(ui.files, written, script, replies, left) ==
                  RunCaptured(ui.files, old(written), script, [], limit)
        decreases left
      {
        var reply;
        match ending {
          case Read(rel) =>
            reply := if rel in ui.files then Text(ui.files[rel]) else Missing;
          case Write(rel, text) =>
            written := written[rel := text];
            reply := Done;
          case WriteIfChanged(rel, text) =>
            written := written[rel := text];
            reply := Flag(true);
          case CreateFile(rel, text) =>
            written := written[rel := text];
            reply := Flag(true);
        }
        replies := replies + [reply];
        left := left - 1;
        ending := script(replies);
      }
      if !ending.Ends() {
        ending := CUT_OFF;
      }
    }
  }

  // ---- When the two contexts agree ----

  ghost predicate SameUpToFlags(a: seq<Reply>, b: seq<Reply>) {
    |a| == |b| && forall i :: 0 <= i < |a| ==> a[i] == b[i] || (a[i].Flag? && b[i].Flag?)
  }

  /** The script never looks at what a write returned. */
  ghost predicate IgnoresFlags(script: Script) {
    forall a, b :: SameUpToFlags(a, b) ==> script(a) == script(b)
  }

  /** No read of a path already written, no create_file on a file that is there by then. */
  predicate ReadsBeforeWrites(ui: Tree, written: Captured, script: Script, replies: seq<Reply>, limit: nat)
    decreases limit
  {
    var action := script(replies);
    action.Ends() || limit == 0 ||
    (&& (action.Read? ==> action.rel !in written)
     && (action.CreateFile? ==> action.rel !in ui && action.rel !in written)
     && (var (next, reply) := PerformCaptured(ui, written, action);
         ReadsBeforeWrites(ui, next, script, replies + [reply], limit - 1)))
  }

  /** One action keeps the two trees in agreement, and the answers but for flags. */
  lemma ActionsAgree(ui: Tree, written: Captured, w: World, who: string, action: Action)
    requires !action.Ends() && w.ui == ui + written
    requires action.Read? ==> action.rel !in written
    requires action.CreateFile? ==> action.rel !in ui && action.rel !in written
    ensures Perform(w, who, action).0.ui == ui + PerformCaptured(ui, written, action).0
    ensures var (reply, realReply) := (PerformCaptured(ui, written, action).1, Perform(w, who, action).1);
            reply == realReply || (reply.Flag? && realReply.Flag?)
  {
    hide Recorded;
  }

  lemma {:induction false} RunsAgree(
    ui: Tree, written: Captured, w: World, who: string, script: Script,
    captured: seq<Reply>, actual: seq<Reply>, limit: nat)
    requires IgnoresFlags(script) && SameUpToFlags(captured, actual)
    requires ReadsBeforeWrites(ui, written, script, captured, limit)
    requires w.ui == ui + written
    ensures var (left, realEnd) := RunScript(w, who, script, actual, limit);
            var (noted, capturedEnd) := RunCaptured(ui, written, script, captured, limit);
            left.ui == ui + noted && realEnd == capturedEnd
    decreases limit
  {
    var action := script(captured);
    assert script(actual) == action;
    if !action.Ends() && limit > 0 {
      var (next, reply) := PerformCaptured(ui, written, action);
      var (nextW, realReply) := Perform(w, who, action);
      ActionsAgree(ui, written, w, who, action);
      assert ReadsBeforeWrites(ui, next, script, captured + [reply], limit - 1);
      assert SameUpToFlags(captured + [reply], actual + [realReply]);
      hide Perform, PerformCaptured, IgnoresFlags, SameUpToFlags, ReadsBeforeWrites;
      RunsAgree(ui, next, nextW, who, script, captured + [reply], actual + [realReply], limit - 1);
    }
  }

  /** The capture holds, for every path written, the bytes the real run leaves there; the
      real run leaves every other file alone, and both end the same way. */
  lemma CaptureSimulatesRun(w: World, who: string, script: Script, limit: nat)
    requires IgnoresFlags(script) && ReadsBeforeWrites(w.ui, map[], script, [], limit)
    ensures var (left, ending) := RunScript(w, who, script, [], limit);
            var (written, capturedEnd) := RunCaptured(w.ui, map[], script, [], limit);
            && ending == capturedEnd
            && (forall rel :: rel in written ==> rel in left.ui && left.ui[rel] == written[rel])
            && (forall rel :: rel !in written ==> (rel in left.ui <==> rel in w.ui))
            && (forall rel :: rel !in written && rel in w.ui ==> left.ui[rel] == w.ui[rel])
  {
    assert w.ui + map[] == w.ui;
    RunsAgree(w.ui, map[], w, who, script, [], [], limit);
  }

  // ---- Exactly when the capture holds what the real run leaves ----

  /** No read of a path that is captured already. */
  predicate ReadsUncaptured(ui: Tree, written: Captured, script: Script, replies: seq<Reply>, limit: nat)
    decreases limit
  {
    var action := script(replies);
    action.Ends() || limit == 0 ||
    (&& (action.Read? ==> action.rel !in written)
     && (var (next, reply) := PerformCaptured(ui, written, action);
         ReadsUncaptured(ui, next, script, replies + [reply], limit - 1)))
  }

  /** A write settles what its path holds. create_file unsettles it where the file is there
      by then with other text, and settles it otherwise. */
  function UnfitAfter(tree: Tree, unfit: set<Path>, action: Action): set<Path>
    requires !action.Ends()
  {
    match action
    case Read(_) => unfit
    case Write(rel, _) => unfit - {rel}
    case WriteIfChanged(rel, _) => unfit - {rel}
    case CreateFile(rel, text) => if rel in tree && tree[rel] != text then unfit + {rel} else unfit - {rel}
  }

  /** The paths that a run on `tree` leaves unsettled. */
  function Unfit(tree: Tree, unfit: set<Path>, script: Script, replies: seq<Reply>, limit: nat): set<Path>
    decreases limit
  {
    var action := script(replies);
    if action.Ends() || limit == 0 then unfit
    else
      var (next, reply) := Perform(World(tree, map[]), "", action);
      Unfit(next.ui, UnfitAfter(tree, unfit, action), script, replies + [reply], limit - 1)
  }

  /** The real tree and the capture after the same actions from `ui`: what is not captured is
      as it was, and what is captured is right but for `unfit`. */
  ghost predicate Tallies(ui: Tree, written: Captured, tree: Tree, unfit: set<Path>) {
    && tree.Keys == ui.Keys + written.Keys
    && (forall rel :: rel in ui && rel !in written ==> tree[rel] == ui[rel])
    && unfit == set rel | rel in written && tree[rel] != written[rel]
  }

  lemma ActionTallies(ui: Tree, written: Captured, w: World, unfit: set<Path>, who: string, action: Action)
    requires !action.Ends() && Tallies(ui, written, w.ui, unfit)
    requires action.Read? ==> action.rel !in written
    ensures var (next, reply) := PerformCaptured(ui, written, action);
            var (nextW, realReply) := Perform(w, who, action);
            && Tallies(ui, next, nextW.ui, UnfitAfter(w.ui, unfit, action))
            && nextW.ui == Perform(World(w.ui, map[]), "", action).0.ui
            && realReply == Perform(World(w.ui, map[]), "", action).1
            && (reply == realReply || (reply.Flag? && realReply.Flag?))
  {
    hide Recorded;
    if !action.Read? {
      CapturedOnce(ui, written, w.ui, Perform(w, who, action).0.ui, unfit, action.rel, action.text);
      hide Tallies;
    }
  }

  /** One path captured, and at most that path of the tree written. */
  lemma CapturedOnce(
    ui: Tree, written: Captured, before: Tree, after: Tree, unfit: set<Path>, rel: Path, text: Content)
    requires Tallies(ui, written, before, unfit)
    requires after.Keys == before.Keys + {rel}
    requires forall other :: other in before && other != rel ==> after[other] == before[other]
    ensures Tallies(ui, written[rel := text], after, if after[rel] == text then unfit - {rel} else unfit + {rel})
  {
  }

  lemma {:induction false} RunsTally(
    ui: Tree, written: Captured, w: World, unfit: set<Path>, who: string, script: Script,
    captured: seq<Reply>, actual: seq<Reply>, limit: nat)
    requires IgnoresFlags(script) && SameUpToFlags(captured, actual)
    requires ReadsUncaptured(ui, written, script, captured, limit)
    requires Tallies(ui, written, w.ui, unfit)
    ensures var (left, realEnd) := RunScript(w, who, script, actual, limit);
            var (noted, capturedEnd) := RunCaptured(ui, written, script, captured, limit);
            && realEnd == capturedEnd
            && Tallies(ui, noted, left.ui, Unfit(w.ui, unfit, script, actual, limit))
    decreases limit
  {
    var action := script(captured);
    assert script(actual) == action;
    if !action.Ends() && limit > 0 {
      var (next, reply) := PerformCaptured(ui, written, action);
      var (nextW, realReply) := Perform(w, who, action);
      ActionTallies(ui, written, w, unfit, who, action);
      assert ReadsUncaptured(ui, next, script, captured + [reply], limit - 1);
      assert SameUpToFlags(captured + [reply], actual + [realReply]);
      hide Perform, PerformCaptured, IgnoresFlags, SameUpToFlags, ReadsUncaptured, Tallies, UnfitAfter;
      RunsTally(ui, next, nextW, UnfitAfter(w.ui, unfit, action), who, script,
                captured + [reply], actual + [realReply], limit - 1);
    }
  }

  /** For programs that ignore the answers of writes and read nothing captured: the capture is
      wrong at exactly the unfit paths, so it is right throughout if and only if there are none. */
  lemma CaptureIsRightIff(w: World, who: string, script: Script, limit: nat)
    requires IgnoresFlags(script) && ReadsUncaptured(w.ui, map[], script, [], limit)
    ensures var (left, ending) := RunScript(w, who, script, [], limit);
            var (written, capturedEnd) := RunCaptured(w.ui, map[], script, [], limit);
            && ending == capturedEnd
            && left.ui.Keys == w.ui.Keys + written.Keys
            && (forall rel :: rel in w.ui && rel !in written ==> left.ui[rel] == w.ui[rel])
            && (Unfit(w.ui, {}, script, [], limit) == set rel | rel in written && left.ui[rel] != written[rel])
            && ((forall rel :: rel in written ==> left.ui[rel] == written[rel]) <==>
                Unfit(w.ui, {}, script, [], limit) == {})
  {
    RunsTally(w.ui, map[], w, {}, who, script, [], [], limit);
    hide RunScript, RunCaptured, Unfit, IgnoresFlags, ReadsUncaptured;
    var left := RunScript(w, who, script, [], limit).0;
    var written := RunCaptured(w.ui, map[], script, [], limit).0;
    if Unfit(w.ui, {}, script, [], limit) == {} {
      forall rel | rel in written
        ensures left.ui[rel] == written[rel]
      {
        assert rel !in Unfit(w.ui, {}, script, [], limit);
      }
    }
  }

  /** Declared files that are not there, and those whose bytes are not the captured ones. */
  ghost predicate Verdict(ui: Tree, files: seq<Path>, written: Captured, missing: seq<Path>, drifted: seq<Path>) {
    && (forall rel :: rel in missing <==> rel in files && rel !in ui)
    && (forall rel :: rel in drifted <==> rel in files && rel in ui && rel in written && ui[rel] != written[rel])
  }

  /** The verdict on the declared files of one patch. */
  method CheckTargets(ui: Tree, files: seq<Path>, written: Captured)
    returns (missing: seq<Path>, drifted: seq<Path>)
    ensures Verdict(ui, files, written, missing, drifted)
  {
    missing, drifted := [], [];
    for i := 0 to |files|
      invariant Verdict(ui, files[..i], written, missing, drifted)
    {
      var target := files[i];
      assert files[..i + 1] == files[..i] + [target];
      if target !in written {
        if target !in ui {
          missing := missing + [target];
        }
      } else if target !in ui {
        missing := missing + [target];
      } else if ui[target] != written[target] {
        drifted := drifted + [target];
      }
    }
    assert files[..|files|] == files;
  }

  /** What a clean verdict means: all declared files are there, and applying the patch to
      the tree once more would leave each of them as it is. */
  lemma CleanVerdictIffReapplyIsIdle(
    w: World, who: string, pm: PatchModule, missing: seq<Path>, drifted: seq<Path>)
    requires IgnoresFlags(pm.script) && ReadsBeforeWrites(w.ui, map[], pm.script, [], pm.limit)
    requires Verdict(w.ui, pm.meta.files, RunCaptured(w.ui, map[], pm.script, [], pm.limit).0, missing, drifted)
    ensures var left := RunScript(w, who, pm.script, [], pm.limit).0;
            (missing == [] && drifted == []) <==>
            forall rel :: rel in pm.meta.files ==> rel in w.ui && rel in left.ui && left.ui[rel] == w.ui[rel]
  {
    CaptureSimulatesRun(w, who, pm.script, pm.limit);
    var left := RunScript(w, who, pm.script, [], pm.limit).0;
    hide RunScript, RunCaptured, ReadsBeforeWrites, IgnoresFlags;
    if missing != [] {
      assert missing[0] in missing;
    }
    if drifted != [] {
      assert drifted[0] in drifted;
    }
  }

  // ---- Why each restriction is there: one input for each ----

  const CREATES: Script := replies => if replies == [] then CreateFile("a", "new") else Return(true)

  /** create_file on a file with other text: the tree keeps the old bytes, the capture the new. */
  lemma CreatingOverAFileMisleads()
    ensures var w := World(map["a" := "old"], map[]);
            && RunScript(w, "p", CREATES, [], 1).0.ui["a"] == "old"
            && RunCaptured(w.ui, map[], CREATES, [], 1).0["a"] == "new"
  {
    var w := World(map["a" := "old"], map[]);
    assert [] + [Flag(false)] == [Flag(false)] && [] + [Flag(true)] == [Flag(true)];
    assert RunScript(w, "p", CREATES, [Flag(false)], 0) == (w, Return(true));
    var written: Captured := map["a" := "new"];
    assert PerformCaptured(w.ui, map[], CreateFile("a", "new")) == (written, Flag(true));
    assert RunCaptured(w.ui, written, CREATES, [Flag(true)], 0) == (written, Return(true));
  }

  /** Writes a file, reads it back and writes what it found elsewhere. */
  const READS_BACK: Script :=
    (replies: seq<Reply>) =>
      if |replies| == 0 then Write("a", "1")
      else if |replies| == 1 then Read("a")
      else if |replies| == 2 && replies[1].Text? then Write("b", replies[1].text)
      else Return(true)

  /** Reading what was written: the real run copies the new text, the capture the old. */
  lemma ReadingBackMisleads()
    ensures var w := World(map["a" := "0"], map[]);
            && IgnoresFlags(READS_BACK)
            && (var left := RunScript(w, "p", READS_BACK, [], 3).0.ui; "b" in left && left["b"] == "1")
            && (var written := RunCaptured(w.ui, map[], READS_BACK, [], 3).0; "b" in written && written["b"] == "0")
  {
    var w := World(map["a" := "0"], map[]);
    var once := Put(w, "p", "a", "1");
    var twice := Put(once, "p", "b", "1");
    var actual, captured := [Done, Text("1")], [Done, Text("0")];
    assert [] + [Done] == [Done];
    assert [Done] + [Text("1")] == actual && [Done] + [Text("0")] == captured;
    assert RunScript(twice, "p", READS_BACK, actual + [Done], 0) == (twice, Return(true));
    assert RunScript(once, "p", READS_BACK, actual, 1) == (twice, Return(true));
    assert RunScript(once, "p", READS_BACK, [Done], 2) == (twice, Return(true));
    assert RunScript(w, "p", READS_BACK, [], 3) == (twice, Return(true));
    var first: Captured := map["a" := "1"];
    var second: Captured := first["b" := "0"];
    assert RunCaptured(w.ui, second, READS_BACK, captured + [Done], 0) == (second, Return(true));
    assert RunCaptured(w.ui, first, READS_BACK, captured, 1) == (second, Return(true));
    assert RunCaptured(w.ui, first, READS_BACK, [Done], 2) == (second, Return(true));
    assert PerformCaptured(w.ui, map[], Write("a", "1")) == (first, Done);
    assert RunCaptured(w.ui, map[], READS_BACK, [], 3) == (second, Return(true));
  }

  /** Writes a second file only if the first one changed. */
  const BRANCHES: Script :=
    replies =>
      if |replies| == 0 then WriteIfChanged("a", "0")
      else if replies == [Flag(true)] then Write("b", "1")
      else Return(true)

  /** Branching on an answer: the capture records a file that the real run leaves alone. */
  lemma BranchingOnAnswersMisleads()
    ensures var w := World(map["a" := "0"], map[]);
            && ReadsBeforeWrites(w.ui, map[], BRANCHES, [], 2)
            && "b" !in RunScript(w, "p", BRANCHES, [], 2).0.ui
            && "b" in RunCaptured(w.ui, map[], BRANCHES, [], 2).0
  {
    var w := World(map["a" := "0"], map[]);
    assert [] + [Flag(false)] == [Flag(false)] && [] + [Flag(true)] == [Flag(true)];
    assert RunScript(w, "p", BRANCHES, [Flag(false)], 1) == (w, Return(true));
    assert RunScript(w, "p", BRANCHES, [], 2) == (w, Return(true));
    var once: Captured := map["a" := "0"];
    var twice: Captured := once["b" := "1"];
    assert PerformCaptured(w.ui, map[], WriteIfChanged("a", "0")) == (once, Flag(true));
    assert |[Flag(true)] + [Done]| == 2;
    assert RunCaptured(w.ui, twice, BRANCHES, [Flag(true)] + [Done], 0) == (twice, Return(true));
    assert RunCaptured(w.ui, once, BRANCHES, [Flag(true)], 1) == (twice, Return(true));
    assert ReadsBeforeWrites(w.ui, twice, BRANCHES, [Flag(true)] + [Done], 0);
    assert ReadsBeforeWrites(w.ui, once, BRANCHES, [Flag(true)], 1);
  }
}
