/** The context a patch runs in: every change of the tree goes through it, and
    it records who wrote which file. */
module PatchContexts {
  import opened PatchTypes

  function Recorded(patches: Patches, who: string, rel: Path): Patches {
    if who == "" then patches
    else
      var entry := if who in patches then patches[who] else PatchEntry(who, "skipped", "", []);
      patches[who := if rel in entry.written then entry else entry.(written := entry.written + [rel])]
  }

  function Put(w: World, who: string, rel: Path, text: Content): World {
    World(w.ui[rel := text], Recorded(w.patches, who, rel))
  }

  /** One action on the tree and the manifest, with the answer the patch gets. */
  function Perform(w: World, who: string, action: Action): (World, Reply)
    requires !action.Ends()
  {
    match action
    case Read(rel) =>
      (w, if rel in w.ui then Text(w.ui[rel]) else Missing)
    case Write(rel, text) =>
      (Put(w, who, rel, text), Done)
    case WriteIfChanged(rel, text) =>
      if rel in w.ui && w.ui[rel] == text then (w, Flag(false)) else (Put(w, who, rel, text), Flag(true))
    case CreateFile(rel, text) =>
      if rel in w.ui then (w, Flag(false)) else (Put(w, who, rel, text), Flag(true))
  }

  // ---- What a patch can rely on ----

  /** What was written is what is read, and no other file reads differently. */
  lemma WrittenIsRead(w: World, who: string, rel: Path, other: Path, text: Content)
    ensures var next := Perform(w, who, Write(rel, text)).0;
            && Perform(next, who, Read(rel)) == (next, Text(text))
            && (other != rel ==> Perform(next, who, Read(other)).1 == Perform(w, who, Read(other)).1)
  {
  }

  /** write_if_changed is write where that changes the tree, and nothing otherwise; it tells
      which. create_file is write where there is no file, and nothing otherwise. */
  lemma ConditionalWrites(w: World, who: string, rel: Path, text: Content)
    ensures var written := Perform(w, who, Write(rel, text)).0;
            && Perform(w, who, WriteIfChanged(rel, text)) ==
               (if written.ui == w.ui then (w, Flag(false)) else (written, Flag(true)))
            && Perform(w, who, CreateFile(rel, text)) ==
               (if Perform(w, who, Read(rel)).1 == Missing then (written, Flag(true)) else (w, Flag(false)))
  {
    var written := Perform(w, who, Write(rel, text)).0;
    assert written.ui == w.ui[rel := text];
    if rel in w.ui && w.ui[rel] == text {
      assert w.ui[rel := text] == w.ui;
    } else {
      assert rel in written.ui && written.ui[rel] == text;
    }
  }

  /** A write is on record once, after what was on record; the entry of a patch that is not
      listed yet starts as skipped, without a hash; nothing else in the manifest changes. */
  lemma RecordedLast(w: World, who: string, rel: Path, text: Content)
    requires who != ""
    ensures var (before, after) := (w.patches, Perform(w, who, Write(rel, text)).0.patches);
            var known := if who in before then before[who].written else [];
            && after.Keys == before.Keys + {who}
            && after[who].written == (if rel in known then known else known + [rel])
            && (who in before ==> after[who] == before[who].(written := after[who].written))
            && (who !in before ==> after[who] == PatchEntry(who, "skipped", "", [rel]))
            && forall name :: name in before && name != who ==> after[name] == before[name]
  {
  }

  const CUT_OFF: Action := Exit("still running")

  /** A whole run of a script that has already received `replies`. */
  function RunScript(w: World, who: string, script: Script, replies: seq<Reply>, limit: nat): (r: (World, Action))
    ensures r.1.Ends()
    decreases limit
  {
    var action := script(replies);
    if action.Ends() then (w, action)
    else if limit == 0 then (w, CUT_OFF)
    else
      var (next, reply) := Perform(w, who, action);
      RunScript(next, who, script, replies + [reply], limit - 1)
  }

  /** The working tree on disk. */
  class Disk {
    var files: Tree

    constructor (files: Tree)
      ensures this.files == files
    {
      this.files := files;
    }
  }

  /** The manifest as loaded in memory. */
  class Manifest {
    var patches: Patches

    constructor (patches: Patches)
      ensures this.patches == patches
    {
      this.patches := patches;
    }
  }

  class PatchContext {
    const ui: Disk
    const manifest: Manifest
    var currentPatch: string

    constructor (ui: Disk, manifest: Manifest)
      ensures this.ui == ui && this.manifest == manifest && currentPatch == ""
    {
      this.ui := ui;
      this.manifest := manifest;
      currentPatch := "";
    }

    function Now(): World
      reads this, ui, manifest
    {
      World(ui.files, manifest.patches)
    }

    method Record(rel: Path)
      modifies manifest
      ensures manifest.patches == Recorded(old(manifest.patches), currentPatch, rel)
    {
      if currentPatch == "" {
        return;
      }
      if currentPatch !in manifest.patches {
        manifest.patches := manifest.patches[currentPatch := PatchEntry(currentPatch, "skipped", "", [])];
      }
      var entry := manifest.patches[currentPatch];
      if rel !in entry.written {
        manifest.patches := manifest.patches[currentPatch := entry.(written := entry.written + [rel])];
      }
    }

    method ReadText(rel: Path) returns (reply: Reply)
      ensures (Now(), reply) == Perform(Now(), currentPatch, Read(rel))
    {
      if rel !in ui.files {
        return Missing;
      }
      return Text(ui.files[rel]);
    }

    method WriteText(rel: Path, text: Content)
      modifies ui, manifest
      ensures (Now(), Done) == Perform(old(Now()), currentPatch, Write(rel, text))
    {
      ui.files := ui.files[rel := text];
      Record(rel);
    }

    method WriteTextIfChanged(rel: Path, text: Content) returns (changed: bool)
      modifies ui, manifest
      ensures (Now(), Flag(changed)) == Perform(old(Now()), currentPatch, WriteIfChanged(rel, text))
    {
      if rel !in ui.files {
        ui.files := ui.files[rel := text];
        Record(rel);
        return true;
      }
      var current := ui.files[rel];
      if current != text {
        ui.files := ui.files[rel := text];
        Record(rel);
        return true;
      }
      return false;
    }

    method Create(rel: Path, text: Content) returns (created: bool)
      modifies ui, manifest
      ensures (Now(), Flag(created)) == Perform(old(Now()), currentPatch, CreateFile(rel, text))
    {
      if rel in ui.files {
        return false;
      }
      ui.files := ui.files[rel := text];
      Record(rel);
      return true;
    }

    /** Calls a patch's `apply` with this context. */
    method Invoke(script: Script, limit: nat) returns (ending: Action)
      modifies ui, manifest
      ensures ending.Ends()
      ensures (Now(), ending) == RunScript(old(Now()), currentPatch, script, [], limit)
    {
      var replies: seq<Reply> := [];
      var left: nat := limit;
      ending := script(replies);
      while !ending.Ends() && left > 0
        invariant left <= limit
        invariant ending == script(replies)
        invariant RunScript(Now(), currentPatch, script, replies, left) ==
                  RunScript(old(Now()), currentPatch, script, [], limit)
        decreases left
      {
        var reply;
        match ending {
          case Read(rel) =>
            reply := ReadText(rel);
          case Write(rel, text) =>
            WriteText(rel, text);
            reply := Done;
          case WriteIfChanged(rel, text) =>
            var changed := WriteTextIfChanged(rel, text);
            reply := Flag(changed);
          case CreateFile(rel, text) =>
            var created := Create(rel, text);
            reply := Flag(created);
        }
        replies := replies + [reply];
        left := left - 1;
        ending := script(replies);
      }
      if !ending.Ends() {
        ending := CUT_OFF;
      }
    }
  }
}
