/** The data that the LobeHub patch engine works on: trees of files, patch
    modules, manifest entries, and the ignore rules of the drift guard. */
module PatchTypes {
  type Path = string
  type Content = string
  type Tree = map<Path, Content>
  type Patches = map<string, PatchEntry>

  datatype PatchMeta = PatchMeta(
    name: string,
    files: seq<Path>,
    dependsOn: seq<string>,
    verifyFile: Path,
    verifyMarker: string)

  /** What a patch can ask of its context, and the three ways it can end:
      it returns, raises SystemExit, or raises anything else. */
  datatype Action =
    | Read(rel: Path)
    | Write(rel: Path, text: Content)
    | WriteIfChanged(rel: Path, text: Content)
    | CreateFile(rel: Path, text: Content)
    | Return(applied: bool)
    | Exit(message: string)
    | Raise(message: string)
  {
    predicate Ends() {
      Return? || Exit? || Raise?
    }
  }

  datatype Reply = Text(text: Content) | Missing | Flag(value: bool) | Done

  /** A patch program: its next action, given every answer it got so far. */
  type Script = seq<Reply> -> Action

  /** `sha` stands for the hash of the module's source file. A script that is still
      going after `limit` actions is cut off, so `limit` bounds a run, not a patch. */
  datatype PatchModule = PatchModule(meta: PatchMeta, sha: string, script: Script, limit: nat)

  datatype PatchEntry = PatchEntry(name: string, status: string, sourceSha: string, written: seq<Path>)

  /** The working tree and a manifest, seen as one value. */
  datatype World = World(ui: Tree, patches: Patches)

  function Names(modules: seq<PatchModule>): set<string> {
    set i | 0 <= i < |modules| :: modules[i].meta.name
  }

  predicate DistinctNames(modules: seq<PatchModule>) {
    forall i, j :: 0 <= i < j < |modules| ==> modules[i].meta.name != modules[j].meta.name
  }

  predicate WellNamed(modules: seq<PatchModule>) {
    DistinctNames(modules) && "" !in Names(modules)
  }

  function Declared(modules: seq<PatchModule>): set<Path> {
    set i, rel | 0 <= i < |modules| && rel in modules[i].meta.files :: rel
  }

  /** Manifest.written_files(). */
  function WrittenFiles(patches: Patches): set<Path> {
    set name, rel | name in patches && rel in patches[name].written :: rel
  }

  predicate Contains(text: string, part: string) {
    exists i :: 0 <= i <= |text| && part <= text[i..]
  }

  predicate EndsWith(text: string, suffix: string) {
    |suffix| <= |text| && text[|text| - |suffix|..] == suffix
  }

  const DRIFT_IGNORE: set<Path> := {
    ".env",
    ".lca-manifest.json",
    ".lca-integration-patched",
    ".lca-qwen-defaults-patched",
    ".lca-origin.json",
    "next-env.d.ts"
  }

  const DRIFT_IGNORE_PREFIXES: seq<string> := [
    "node_modules/",
    ".next/",
    ".turbo/",
    "dist/",
    "coverage/",
    ".git/",
    "public/_spa/",
    "public/_spa-auth/",
    ".pytest_cache/",
    "docker-compose/dev/data/",
    ".agent-tracing/",
    ".llm-generation-tracing/"
  ]

  predicate IsIgnored(rel: Path) {
    || rel in DRIFT_IGNORE
    || (exists i :: 0 <= i < |DRIFT_IGNORE_PREFIXES| && DRIFT_IGNORE_PREFIXES[i] <= rel)
    || Contains(rel, "/node_modules/")
    || EndsWith(rel, "/node_modules")
  }

  /** "a" is the file of all examples. */
  lemma NotIgnored()
    ensures !IsIgnored("a")
  {
    forall i | 0 <= i < |DRIFT_IGNORE_PREFIXES|
      ensures !(DRIFT_IGNORE_PREFIXES[i] <= "a")
    {
      assert |DRIFT_IGNORE_PREFIXES[i]| > 1;
    }
  }

  /** The file whose text must hold the marker: `verify_file`, else the first declared file. */
  function CheckFile(meta: PatchMeta): Path {
    if meta.verifyFile != "" then meta.verifyFile
    else if meta.files != [] then meta.files[0]
    else ""
  }

  /** The marker is not to be found in `file`. */
  predicate MarkerAbsent(ui: Tree, file: Path, marker: string) {
    file !in ui || !Contains(ui[file], marker)
  }

  // ---- What these tests come to, said without them ----

  /** `part` stands somewhere in `text`. */
  ghost predicate Occurs(text: string, part: string) {
    exists before: string, after: string :: text == before + part + after
  }

  lemma ContainsIffOccurs(text: string, part: string)
    ensures Contains(text, part) <==> Occurs(text, part)
  {
    if i :| 0 <= i <= |text| && part <= text[i..] {
      assert text == text[..i] + part + text[i + |part|..];
    }
    if before: string, after: string :| text == before + part + after {
      assert text[|before|..] == part + after;
    }
  }

  /** The marker stands in the file that `verify_file` names or, if it names none, in the
      first declared file. */
  ghost predicate MarkerFound(ui: Tree, meta: PatchMeta) {
    || (meta.verifyFile != "" && meta.verifyFile in ui && Occurs(ui[meta.verifyFile], meta.verifyMarker))
    || (meta.verifyFile == "" && meta.files != [] && meta.files[0] != "" && meta.files[0] in ui &&
        Occurs(ui[meta.files[0]], meta.verifyMarker))
  }

  predicate NowhereToLook(meta: PatchMeta) {
    meta.verifyFile == "" && (meta.files == [] || meta.files[0] == "")
  }

  lemma MarkerAbsentIff(ui: Tree, meta: PatchMeta)
    ensures CheckFile(meta) == "" <==> NowhereToLook(meta)
    ensures CheckFile(meta) != "" ==> (MarkerAbsent(ui, CheckFile(meta), meta.verifyMarker) <==> !MarkerFound(ui, meta))
  {
    hide Contains;
    if CheckFile(meta) in ui {
      ContainsIffOccurs(ui[CheckFile(meta)], meta.verifyMarker);
    }
  }

  lemma EndsWithIff(text: string, suffix: string)
    ensures EndsWith(text, suffix) <==> exists before: string :: text == before + suffix
  {
    if EndsWith(text, suffix) {
      assert text == text[..|text| - |suffix|] + suffix;
    }
  }

  /** The drift guard and the sweep look away from exactly these. */
  lemma IgnoredIff(rel: Path)
    ensures IsIgnored(rel) <==>
            || rel == ".env" || rel == ".lca-manifest.json" || rel == ".lca-integration-patched"
            || rel == ".lca-qwen-defaults-patched" || rel == ".lca-origin.json" || rel == "next-env.d.ts"
            || "node_modules/" <= rel || ".next/" <= rel || ".turbo/" <= rel || "dist/" <= rel
            || "coverage/" <= rel || ".git/" <= rel || "public/_spa/" <= rel || "public/_spa-auth/" <= rel
            || ".pytest_cache/" <= rel || "docker-compose/dev/data/" <= rel
            || ".agent-tracing/" <= rel || ".llm-generation-tracing/" <= rel
            || Occurs(rel, "/node_modules/")
            || (exists before: string :: rel == before + "/node_modules")
  {
    ContainsIffOccurs(rel, "/node_modules/");
    EndsWithIff(rel, "/node_modules");
    hide Contains, EndsWith, Occurs;
    PrefixIgnoredIff(rel);
  }

  lemma PrefixIgnoredIff(rel: Path)
    ensures (exists i :: 0 <= i < |DRIFT_IGNORE_PREFIXES| && DRIFT_IGNORE_PREFIXES[i] <= rel) <==>
            || "node_modules/" <= rel || ".next/" <= rel || ".turbo/" <= rel || "dist/" <= rel
            || "coverage/" <= rel || ".git/" <= rel || "public/_spa/" <= rel || "public/_spa-auth/" <= rel
            || ".pytest_cache/" <= rel || "docker-compose/dev/data/" <= rel
            || ".agent-tracing/" <= rel || ".llm-generation-tracing/" <= rel
  {
    var all := DRIFT_IGNORE_PREFIXES;
    assert |all| == 12;
    assert all[0] == "node_modules/" && all[1] == ".next/" && all[2] == ".turbo/" && all[3] == "dist/";
    assert all[4] == "coverage/" && all[5] == ".git/" && all[6] == "public/_spa/" && all[7] == "public/_spa-auth/";
    assert all[8] == ".pytest_cache/" && all[9] == "docker-compose/dev/data/";
    assert all[10] == ".agent-tracing/" && all[11] == ".llm-generation-tracing/";
  }
}
