/** Moving flat trace files into one directory per run. */
module TraceMigration {
  import opened Options
  import opened Sequences

  // ---- File names ----

  datatype Suffix = Journal | Doctor | Diagnostic

  function SuffixText(s: Suffix): string {
    match s
    case Journal => ".jsonl"
    case Doctor => ".doctor.json"
    case Diagnostic => ".diagnostic.jsonl"
  }

  predicate IsIdChar(c: char) {
    'a' <= c <= 'z' || '0' <= c <= '9'
  }

  const RUN_PREFIX: string := "run_"

  /** The pattern ends in `$`, which also matches before a final line feed. */
  predicate IsRunId(s: string) {
    var id := if s != "" && s[|s| - 1] == '\n' then s[..|s| - 1] else s;
    && RUN_PREFIX <= id
    && |RUN_PREFIX| + 4 <= |id| <= |RUN_PREFIX| + 26
    && forall i :: |RUN_PREFIX| <= i < |id| ==> IsIdChar(id[i])
  }

  function FileName(runId: string, s: Suffix): string {
    runId + SuffixText(s)
  }

  function Strip(name: string, s: Suffix): Option<string> {
    var n := |name| - |SuffixText(s)|;
    if n >= 0 && name[n..] == SuffixText(s) && IsRunId(name[..n]) then Some(name[..n]) else None
  }

  /** The longest suffix is tried first. */
  function Decode(name: string): Option<(string, Suffix)> {
    if Strip(name, Diagnostic).Some? then Some((Strip(name, Diagnostic).value, Diagnostic))
    else if Strip(name, Doctor).Some? then Some((Strip(name, Doctor).value, Doctor))
    else if Strip(name, Journal).Some? then Some((Strip(name, Journal).value, Journal))
    else None
  }

  function FirstDot(s: string): nat {
    if s == "" || s[0] == '.' then 0 else 1 + FirstDot(s[1..])
  }

  lemma {:induction false} FirstDotAfter(a: string, b: string)
    requires '.' !in a && b != "" && b[0] == '.'
    ensures FirstDot(a + b) == |a|
    decreases a
  {
    if a == "" {
      assert a + b == b;
    } else {
      assert (a + b)[1..] == a[1..] + b;
      FirstDotAfter(a[1..], b);
    }
  }

  /** The pattern in words: `run_`, then 4 to 26 small letters and digits, then at most one
      line feed. */
  lemma RunIdIs(s: string)
    ensures IsRunId(s) <==>
            exists body :: (s == "run_" + body || s == "run_" + body + "\n") && 4 <= |body| <= 26 &&
              forall c :: c in body ==> 'a' <= c <= 'z' || '0' <= c <= '9'
  {
    if IsRunId(s) {
      var body := RunIdHasBody(s);
    }
    if body :| (s == "run_" + body || s == "run_" + body + "\n") && 4 <= |body| <= 26 &&
               forall c :: c in body ==> 'a' <= c <= 'z' || '0' <= c <= '9' {
      BodyMakesRunId(body);
    }
  }

  lemma RunIdHasBody(s: string) returns (body: string)
    requires IsRunId(s)
    ensures s == "run_" + body || s == "run_" + body + "\n"
    ensures 4 <= |body| <= 26 && forall c :: c in body ==> 'a' <= c <= 'z' || '0' <= c <= '9'
  {
    var id := if s[|s| - 1] == '\n' then s[..|s| - 1] else s;
    body := id[4..];
    assert id == "run_" + body;
    assert s == id || s == id + "\n";
    forall i | 0 <= i < |body|
      ensures 'a' <= body[i] <= 'z' || '0' <= body[i] <= '9'
    {
      assert body[i] == id[i + 4] && IsIdChar(id[i + 4]);
    }
  }

  lemma BodyMakesRunId(body: string)
    requires 4 <= |body| <= 26 && forall c :: c in body ==> 'a' <= c <= 'z' || '0' <= c <= '9'
    ensures IsRunId("run_" + body) && IsRunId("run_" + body + "\n")
  {
    var id := "run_" + body;
    assert id[4..] == body;
    assert id[|id| - 1] in body;
    forall i | 4 <= i < |id|
      ensures IsIdChar(id[i])
    {
      assert id[i] == body[i - 4] && body[i - 4] in body;
    }
    assert (id + "\n")[..|id|] == id;
  }

  lemma RunIdHasNoDot(s: string)
    requires IsRunId(s)
    ensures '.' !in s
  {
    var id := if s[|s| - 1] == '\n' then s[..|s| - 1] else s;
    forall i | 0 <= i < |s|
      ensures s[i] != '.'
    {
      if i < |RUN_PREFIX| {
        assert s[i] == RUN_PREFIX[i];
      } else if i < |id| {
        assert IsIdChar(id[i]);
      }
    }
  }

  /** The first dot tells where the run id ends. */
  lemma FirstDotSplits(id: string, s: Suffix, other: string, t: Suffix)
    requires IsRunId(id) && IsRunId(other) && FileName(id, s) == FileName(other, t)
    ensures id == other && s == t
  {
    var name := FileName(id, s);
    RunIdHasNoDot(id);
    RunIdHasNoDot(other);
    FirstDotAfter(id, SuffixText(s));
    FirstDotAfter(other, SuffixText(t));
    hide IsRunId, FirstDot;
    assert id == name[..|id|] && other == name[..|other|];
    assert SuffixText(s) == name[|id|..] && SuffixText(t) == name[|other|..];
  }

  lemma StripInverts(id: string, s: Suffix, other: Suffix)
    requires IsRunId(id)
    ensures Strip(FileName(id, s), other) == if other == s then Some(id) else None
  {
    hide IsRunId;
    var name := FileName(id, s);
    assert name[|name| - |SuffixText(s)|..] == SuffixText(s) && name[..|name| - |SuffixText(s)|] == id;
    if Strip(name, other).Some? {
      StrippedFits(name, Strip(name, other).value, other);
      FirstDotSplits(id, s, Strip(name, other).value, other);
    }
  }

  /** A file name decodes to a run id and a suffix exactly if it is made of them, so to at
      most one pair, although one suffix ends in another. */
  lemma DecodeIsExact(name: string, id: string, s: Suffix)
    ensures Decode(name) == Some((id, s)) <==> IsRunId(id) && name == FileName(id, s)
  {
    hide IsRunId, Strip, FileName;
    if IsRunId(id) && name == FileName(id, s) {
      StripInverts(id, s, Diagnostic);
      StripInverts(id, s, Doctor);
      StripInverts(id, s, Journal);
    }
    if Strip(name, s) == Some(id) {
      StrippedFits(name, id, s);
    }
  }

  lemma StrippedFits(name: string, id: string, s: Suffix)
    requires Strip(name, s) == Some(id)
    ensures IsRunId(id) && name == FileName(id, s)
  {
    hide IsRunId;
    assert name == name[..|name| - |SuffixText(s)|] + name[|name| - |SuffixText(s)|..];
  }

  lemma NamesDiffer(id: string, s: Suffix, other: string, t: Suffix)
    requires IsRunId(id) && IsRunId(other)
    ensures FileName(id, s) == FileName(other, t) <==> id == other && s == t
  {
    DecodeIsExact(FileName(id, s), id, s);
    DecodeIsExact(FileName(id, s), other, t);
  }

  lemma RunIdIsNoFlatName(id: string, other: string, t: Suffix)
    requires IsRunId(id)
    ensures id != FileName(other, t)
  {
    RunIdHasNoDot(id);
    assert FileName(other, t)[|other|] == '.';
  }

  // ---- The directory ----

  datatype Json = JsonNull | JsonValue(text: string)

  /** A manifest is known by its run and the doctor report it embeds. */
  datatype Content = Raw(bytes: string) | ManifestFile(runId: string, doctorReport: Option<Json>)

  type Directory = map<string, Content>

  /** `runs/`: plain files and per-run directories. */
  datatype Runs = Runs(files: map<string, string>, dirs: map<string, Directory>)

  predicate Flat(r: Runs, id: string, s: Suffix) {
    IsRunId(id) && FileName(id, s) in r.files
  }

  predicate Taken(r: Runs, id: string) {
    id in r.dirs || id in r.files
  }

  predicate MovesJournal(r: Runs, id: string) {
    Flat(r, id, Journal) && !Taken(r, id)
  }

  predicate MovesDiagnostic(r: Runs, id: string) {
    Flat(r, id, Diagnostic) && (Taken(r, id) || Flat(r, id, Journal))
  }

  type Parser = string -> Option<Json>

  /** The report to embed: what the doctor file parses to, unless that is null. */
  function Report(r: Runs, id: string, parse: Parser): Option<Json> {
    if FileName(id, Doctor) in r.files && parse(r.files[FileName(id, Doctor)]) != Some(JsonNull)
    then parse(r.files[FileName(id, Doctor)])
    else None
  }

  datatype Plan = Plan(
    journals: seq<string>, manifests: seq<string>, diagnostics: seq<string>, doctors: seq<string>,
    existing: seq<string>, orphans: seq<string>)

  ghost predicate IsPlan(r: Runs, plan: Plan) {
    && (forall id :: id in plan.journals <==> MovesJournal(r, id))
    && plan.manifests == plan.journals
    && (forall id :: id in plan.diagnostics <==> MovesDiagnostic(r, id))
    && (forall id :: id in plan.doctors <==> MovesJournal(r, id) && Flat(r, id, Doctor))
    && Distinct(plan.journals) && Distinct(plan.diagnostics)
  }

  // ---- The passes, one run at a time ----

  function FlatNames(ids: set<string>, s: Suffix): set<string> {
    set id | id in ids :: FileName(id, s)
  }

  function Under(r: Runs, id: string): Directory {
    if id in r.dirs then r.dirs[id] else map[]
  }

  /** Moves the flat file of one run into its directory, over what is there by that name. */
  function MoveFile(r: Runs, id: string, s: Suffix, target: string): Runs {
    var name := FileName(id, s);
    if name !in r.files then r
    else Runs(r.files - {name}, r.dirs[id := Under(r, id)[target := Raw(r.files[name])]])
  }

  function MoveAll(r: Runs, ids: seq<string>, s: Suffix, target: string): Runs {
    if ids == [] then r else MoveFile(MoveAll(r, ids[..|ids| - 1], s, target), ids[|ids| - 1], s, target)
  }

  function WriteManifest(r: Runs, id: string, parse: Parser): Runs {
    r.(dirs := r.dirs[id := Under(r, id)["manifest.json" := ManifestFile(id, Report(r, id, parse))]])
  }

  function WriteAll(r: Runs, ids: seq<string>, parse: Parser): Runs {
    if ids == [] then r else WriteManifest(WriteAll(r, ids[..|ids| - 1], parse), ids[|ids| - 1], parse)
  }

  function AfterDoctors(r: Runs, ids: set<string>): Runs {
    r.(files := r.files - FlatNames(ids, Doctor))
  }

  lemma MoveOne(r: Runs, id: string, s: Suffix, target: string)
    ensures var after := MoveFile(r, id, s, target);
            && after.files == r.files - {FileName(id, s)}
            && (FileName(id, s) in r.files ==>
                  after.dirs == r.dirs[id := Under(r, id)[target := Raw(r.files[FileName(id, s)])]])
  {
  }

  lemma {:induction false} MoveAllFiles(r: Runs, ids: seq<string>, s: Suffix, target: string)
    ensures MoveAll(r, ids, s, target).files == r.files - FlatNames(Elements(ids), s)
    decreases ids
  {
    if ids != [] {
      var front, last := ids[..|ids| - 1], ids[|ids| - 1];
      assert ids == front + [last];
      MoveAllFiles(r, front, s, target);
      MoveOne(MoveAll(r, front, s, target), last, s, target);
      hide MoveFile, FileName;
      assert Elements(ids) == Elements(front) + {last};
      assert FlatNames(Elements(ids), s) == FlatNames(Elements(front), s) + {FileName(last, s)};
    }
  }

  /** The last of a list of runs still has its flat file when the others have been moved. */
  lemma LastStillThere(r: Runs, front: seq<string>, last: string, s: Suffix, target: string)
    requires Distinct(front + [last]) && forall id :: id in front + [last] ==> Flat(r, id, s)
    ensures Distinct(front) && last !in front && forall id :: id in front ==> Flat(r, id, s)
    ensures FileName(last, s) in r.files
    ensures FileName(last, s) in MoveAll(r, front, s, target).files
    ensures last in MoveAll(r, front, s, target).files <==> last in r.files
  {
    var ids := front + [last];
    assert ids[|front|] == last && last in ids && Flat(r, last, s);
    assert forall i :: 0 <= i < |front| ==> ids[i] == front[i];
    assert forall id :: id in front ==> id in ids;
    MoveAllFiles(r, front, s, target);
    forall id | id in front
      ensures id != last && FileName(id, s) != FileName(last, s) && FileName(id, s) != last
    {
      NamesDiffer(id, s, last, s);
      RunIdIsNoFlatName(last, id, s);
    }
  }

  /** What the pass over `ids` leaves in the directories. */
  ghost predicate Moved(r: Runs, ids: seq<string>, s: Suffix, target: string, dirs: map<string, Directory>) {
    && (forall id :: id in dirs <==> id in r.dirs || id in ids)
    && (forall id :: id in ids ==> FileName(id, s) in r.files)
    && (forall id :: id in ids ==> dirs[id] == Under(r, id)[target := Raw(r.files[FileName(id, s)])])
    && (forall id :: id in r.dirs && id !in ids ==> dirs[id] == r.dirs[id])
  }

  lemma MovedGrows(
    r: Runs, front: seq<string>, last: string, s: Suffix, target: string, mid: Runs)
    requires last !in front && FileName(last, s) in r.files && Moved(r, front, s, target, mid.dirs)
    ensures Moved(r, front + [last], s, target,
              mid.dirs[last := Under(mid, last)[target := Raw(r.files[FileName(last, s)])]])
  {
    hide FileName;
    assert Under(mid, last) == Under(r, last);
    assert forall id :: id in front + [last] <==> id in front || id == last;
  }

  /** The whole move pass at a glance. */
  lemma {:induction false} MoveAllIs(r: Runs, ids: seq<string>, s: Suffix, target: string)
    requires Distinct(ids) && forall id :: id in ids ==> Flat(r, id, s)
    ensures MoveAll(r, ids, s, target).files == r.files - FlatNames(Elements(ids), s)
    ensures Moved(r, ids, s, target, MoveAll(r, ids, s, target).dirs)
    decreases ids
  {
    MoveAllFiles(r, ids, s, target);
    if ids != [] {
      var front, last := ids[..|ids| - 1], ids[|ids| - 1];
      assert ids == front + [last];
      LastStillThere(r, front, last, s, target);
      hide MoveFile, Flat, Distinct, FileName, FlatNames, Moved;
      MoveAllIs(r, front, s, target);
      var mid := MoveAll(r, front, s, target);
      MoveOne(mid, last, s, target);
      assert r.files[FileName(last, s)] == mid.files[FileName(last, s)];
      MovedGrows(r, front, last, s, target, mid);
    }
  }

  /** What the manifest pass over `ids` leaves in the directories. */
  ghost predicate ManifestsIn(r: Runs, ids: seq<string>, parse: Parser, dirs: map<string, Directory>) {
    && dirs.Keys == r.dirs.Keys + Elements(ids)
    && (forall id :: id in ids ==>
          dirs[id] == Under(r, id)["manifest.json" := ManifestFile(id, Report(r, id, parse))])
    && (forall id :: id in r.dirs && id !in ids ==> dirs[id] == r.dirs[id])
  }

  lemma ManifestsGrow(r: Runs, front: seq<string>, last: string, parse: Parser, before: Runs)
    requires last !in front && before.files == r.files && ManifestsIn(r, front, parse, before.dirs)
    ensures ManifestsIn(r, front + [last], parse, WriteManifest(before, last, parse).dirs)
  {
    assert Report(before, last, parse) == Report(r, last, parse);
    hide Report;
    assert Elements(front + [last]) == Elements(front) + {last};
    assert forall id :: id in front + [last] <==> id in front || id == last;
    assert Under(before, last) == Under(r, last);
  }

  lemma {:induction false} WriteAllIs(r: Runs, ids: seq<string>, parse: Parser)
    requires Distinct(ids)
    ensures WriteAll(r, ids, parse).files == r.files
    ensures ManifestsIn(r, ids, parse, WriteAll(r, ids, parse).dirs)
    decreases ids
  {
    if ids != [] {
      var front, last := ids[..|ids| - 1], ids[|ids| - 1];
      assert ids == front + [last];
      assert last !in front;
      hide ManifestsIn, Report;
      WriteAllIs(r, front, parse);
      ManifestsGrow(r, front, last, parse, WriteAll(r, front, parse));
    }
  }

  // ---- Planning one run ----

  /** The plan as far as the runs in `done` go. */
  ghost predicate Planned(r: Runs, plan: Plan, done: set<string>) {
    && (forall id :: id in plan.journals <==> id in done && MovesJournal(r, id))
    && plan.manifests == plan.journals
    && (forall id :: id in plan.diagnostics <==> id in done && MovesDiagnostic(r, id))
    && (forall id :: id in plan.doctors <==> id in done && MovesJournal(r, id) && Flat(r, id, Doctor))
    && Distinct(plan.journals) && Distinct(plan.diagnostics)
  }

  function PlanRun(r: Runs, plan: Plan, id: string): Plan {
    if Taken(r, id) then
      if Flat(r, id, Diagnostic) then plan.(diagnostics := plan.diagnostics + [id])
      else plan.(existing := plan.existing + [id])
    else if !Flat(r, id, Journal) then plan.(orphans := plan.orphans + [id])
    else
      plan.(journals := plan.journals + [id], manifests := plan.manifests + [id],
            doctors := if Flat(r, id, Doctor) then plan.doctors + [id] else plan.doctors,
            diagnostics := if Flat(r, id, Diagnostic) then plan.diagnostics + [id] else plan.diagnostics)
  }

  lemma PlanRunExtends(r: Runs, plan: Plan, done: set<string>, id: string)
    requires Planned(r, plan, done) && id !in done
    ensures Planned(r, PlanRun(r, plan, id), done + {id})
  {
    hide Flat, Taken;
    assert forall x :: x in plan.journals + [id] <==> x in plan.journals || x == id;
    assert forall x :: x in plan.diagnostics + [id] <==> x in plan.diagnostics || x == id;
    assert forall x :: x in plan.doctors + [id] <==> x in plan.doctors || x == id;
  }

  class RunsDirectory {
    var files: map<string, string>
    var dirs: map<string, Directory>

    constructor (r: Runs)
      ensures Now() == r
    {
      files := r.files;
      dirs := r.dirs;
    }

    function Now(): Runs
      reads this
    {
      Runs(files, dirs)
    }

    method ScanFlatArtifacts() returns (artifacts: set<(string, Suffix)>)
      ensures forall id, s :: (id, s) in artifacts <==> Flat(Now(), id, s)
    {
      artifacts := {};
      var names := files.Keys;
      while names != {}
        invariant names <= files.Keys
        invariant forall id, s :: (id, s) in artifacts <==> Flat(Now(), id, s) && FileName(id, s) !in names
        decreases names
      {
        var name :| name in names;
        names := names - {name};
        forall id, s
          ensures Decode(name) == Some((id, s)) <==> IsRunId(id) && name == FileName(id, s)
        {
          DecodeIsExact(name, id, s);
        }
        var decoded := Decode(name);
        if decoded.Some? {
          artifacts := artifacts + {decoded.value};
        }
      }
    }

    method BuildPlan(artifacts: set<(string, Suffix)>) returns (plan: Plan)
      requires forall id, s :: (id, s) in artifacts <==> Flat(Now(), id, s)
      ensures IsPlan(Now(), plan)
    {
      plan := Plan([], [], [], [], [], []);
      var ids := set a | a in artifacts :: a.0;
      ghost var all := ids;
      forall id, s | Flat(Now(), id, s)
        ensures id in all
      {
        assert (id, s) in artifacts && (id, s).0 == id;
      }
      ghost var done: set<string> := {};
      while ids != {}
        invariant ids !! done && ids + done == all
        invariant Planned(Now(), plan, done)
        decreases ids
      {
        var id :| id in ids;
        ids := ids - {id};
        PlanRunExtends(Now(), plan, done, id);
        done := done + {id};
        hide Planned, Flat;
        if id in dirs || id in files {
          if (id, Diagnostic) in artifacts {
            plan := plan.(diagnostics := plan.diagnostics + [id]);
          } else {
            plan := plan.(existing := plan.existing + [id]);
          }
        } else if (id, Journal) !in artifacts {
          plan := plan.(orphans := plan.orphans + [id]);
        } else {
          plan := plan.(journals := plan.journals + [id], manifests := plan.manifests + [id]);
          if (id, Doctor) in artifacts {
            plan := plan.(doctors := plan.doctors + [id]);
          }
          if (id, Diagnostic) in artifacts {
            plan := plan.(diagnostics := plan.diagnostics + [id]);
          }
        }
      }
    }

    method MoveJournals(ids: seq<string>)
      requires forall id :: id in ids ==> FileName(id, Journal) in files && id !in dirs
      requires Distinct(ids) && forall id :: id in ids ==> IsRunId(id)
      modifies this
      ensures Now() == MoveAll(old(Now()), ids, Journal, "journal.jsonl")
    {
      ghost var start := Now();
      for i := 0 to |ids|
        invariant Now() == MoveAll(start, ids[..i], Journal, "journal.jsonl")
      {
        assert ids[..i + 1][..i] == ids[..i];
        StillThere(start, ids, i, Journal, "journal.jsonl");
        var name := FileName(ids[i], Journal);
        var directory := if ids[i] in dirs then dirs[ids[i]] else map[];  // mkdir
        dirs := dirs[ids[i] := directory["journal.jsonl" := Raw(files[name])]];
        files := files - {name};
      }
      assert ids[..|ids|] == ids;
    }

    method WriteManifests(ids: seq<string>, parse: Parser)
      modifies this
      ensures Now() == WriteAll(old(Now()), ids, parse)
    {
      ghost var start := Now();
      for i := 0 to |ids|
        invariant Now() == WriteAll(start, ids[..i], parse)
      {
        var id := ids[i];
        assert ids[..i + 1][..i] == ids[..i];
        var report: Option<Json> := None;
        if FileName(id, Doctor) in files {
          report := parse(files[FileName(id, Doctor)]);
          if report == Some(JsonNull) {
            report := None;
          }
        }
        var directory := if id in dirs then dirs[id] else map[];  // mkdir
        dirs := dirs[id := directory["manifest.json" := ManifestFile(id, report)]];
      }
      assert ids[..|ids|] == ids;
    }

    /** Fails where making a run's directory fails, because a plain file has its name; the
        first `moved` diagnostic files have gone by then. */
    method MoveDiagnostics(ids: seq<string>) returns (ok: bool, ghost moved: nat)
      requires Distinct(ids) && forall id :: id in ids ==> Flat(Now(), id, Diagnostic)
      modifies this
      ensures moved <= |ids| && forall id :: id in ids[..moved] ==> id !in old(files)
      ensures if ok then moved == |ids| else moved < |ids| && ids[moved] in old(files)
      ensures Now() == MoveAll(old(Now()), ids[..moved], Diagnostic, "diagnostic.jsonl")
    {
      ghost var start := Now();
      moved := 0;
      for i := 0 to |ids|
        invariant moved == i
        invariant Now() == MoveAll(start, ids[..i], Diagnostic, "diagnostic.jsonl")
        invariant forall id :: id in ids[..i] ==> id !in start.files
      {
        assert ids[..i + 1] == ids[..i] + [ids[i]];
        StillThere(start, ids, i, Diagnostic, "diagnostic.jsonl");
        if ids[i] in files {
          return false, i;
        }
        var name := FileName(ids[i], Diagnostic);
        var directory := if ids[i] in dirs then dirs[ids[i]] else map[];  // mkdir
        dirs := dirs[ids[i] := directory["diagnostic.jsonl" := Raw(files[name])]];
        files := files - {name};
        moved := i + 1;
      }
      return true, |ids|;
    }

    method DeleteDoctors(ids: seq<string>)
      modifies this
      ensures Now() == AfterDoctors(old(Now()), Elements(ids))
    {
      ghost var start := Now();
      for i := 0 to |ids|
        invariant Now() == AfterDoctors(start, Elements(ids[..i]))
      {
        assert Elements(ids[..i + 1]) == Elements(ids[..i]) + {ids[i]};
        if FileName(ids[i], Doctor) in files {
          files := files - {FileName(ids[i], Doctor)};
        }
      }
      assert ids[..|ids|] == ids;
    }
  }

  /** A pass that has come to run `i` has not touched its flat file, nor any file that bears
      the bare name of a run. */
  lemma StillThere(r: Runs, ids: seq<string>, i: nat, s: Suffix, target: string)
    requires Distinct(ids) && i < |ids| && forall id :: id in ids ==> Flat(r, id, s)
    ensures FileName(ids[i], s) in MoveAll(r, ids[..i], s, target).files
    ensures ids[i] in MoveAll(r, ids[..i], s, target).files <==> ids[i] in r.files
  {
    var part := ids[..i] + [ids[i]];
    assert forall j :: 0 <= j < |part| ==> part[j] == ids[j];
    LastStillThere(r, ids[..i], ids[i], s, target);
  }

  // ---- The whole migration ----

  /** All passes; the diagnostic pass gets as far as `moved`, and unless it gets to its end
      no doctor file is deleted. */
  function Executed(r: Runs, plan: Plan, parse: Parser, moved: seq<string>, finished: bool): Runs {
    var journals := MoveAll(r, plan.journals, Journal, "journal.jsonl");
    var manifests := WriteAll(journals, plan.manifests, parse);
    var diagnostics := MoveAll(manifests, moved, Diagnostic, "diagnostic.jsonl");
    if finished then AfterDoctors(diagnostics, Elements(plan.doctors)) else diagnostics
  }

  /** No run whose diagnostic file is to move has a plain file in place of its directory. */
  ghost predicate NoClash(r: Runs) {
    forall id :: MovesDiagnostic(r, id) ==> id !in r.files
  }

  /** The flat files that are gone once the diagnostic files of `done` have moved. */
  ghost predicate Consumed(r: Runs, done: iset<string>, finished: bool, name: string) {
    match Decode(name)
    case None => false
    case Some((id, Diagnostic)) => id in done
    case Some((id, Journal)) => MovesJournal(r, id)
    case Some((id, Doctor)) => finished && MovesJournal(r, id)
  }

  /** The directory of a run before its diagnostic file arrives. */
  function Settled(r: Runs, id: string, parse: Parser): Directory
    requires id in r.dirs || FileName(id, Journal) in r.files
  {
    if id in r.dirs then r.dirs[id]
    else map["journal.jsonl" := Raw(r.files[FileName(id, Journal)]),
             "manifest.json" := ManifestFile(id, Report(r, id, parse))]
  }

  ghost function WithDiagnostic(r: Runs, done: iset<string>, id: string, directory: Directory): Directory
    requires id in done ==> FileName(id, Diagnostic) in r.files
  {
    if id in done then directory["diagnostic.jsonl" := Raw(r.files[FileName(id, Diagnostic)])]
    else directory
  }

  /** Everything a migration has done, and that it has done nothing else, once the diagnostic
      files of `done` have moved; only a finished one has deleted doctor files. */
  ghost predicate Reached(r: Runs, after: Runs, parse: Parser, done: iset<string>, finished: bool) {
    && (forall id :: id in done ==> MovesDiagnostic(r, id))
    && (forall name :: name in after.files <==> name in r.files && !Consumed(r, done, finished, name))
    && (forall name :: name in after.files ==> after.files[name] == r.files[name])
    && (forall id :: id in after.dirs <==> id in r.dirs || MovesJournal(r, id))
    && (forall id :: id in after.dirs ==> after.dirs[id] == WithDiagnostic(r, done, id, Settled(r, id, parse)))
  }

  ghost function AllDiagnostics(r: Runs): iset<string> {
    iset id | MovesDiagnostic(r, id)
  }

  ghost predicate IsMigrated(r: Runs, after: Runs, parse: Parser) {
    Reached(r, after, parse, AllDiagnostics(r), true)
  }

  /** None of these runs has a plain file in place of its directory. */
  ghost predicate Avoids(ids: iset<string>, r: Runs) {
    forall id :: id in ids ==> id !in r.files
  }

  /** What a failed migration leaves: journals and manifests are all in place, some
      diagnostic files have moved, and every doctor file is still there. */
  ghost predicate IsInterrupted(r: Runs, after: Runs, parse: Parser) {
    exists done: iset<string> ::
      Avoids(done, r) && Reached(r, after, parse, done, false)
  }

  lemma FlatNamesAre(ids: set<string>, s: Suffix, name: string)
    requires forall id :: id in ids ==> IsRunId(id)
    ensures name in FlatNames(ids, s) <==>
            Decode(name).Some? && Decode(name).value.1 == s && Decode(name).value.0 in ids
  {
    if name in FlatNames(ids, s) {
      var id :| id in ids && name == FileName(id, s);
      DecodeIsExact(name, id, s);
    }
    if Decode(name).Some? {
      DecodeIsExact(name, Decode(name).value.0, Decode(name).value.1);
    }
  }

  /** Files of one kind are not in the way of another kind. */
  lemma OtherKindStays(ids: set<string>, s: Suffix, id: string, t: Suffix)
    requires forall x :: x in ids ==> IsRunId(x)
    requires IsRunId(id) && s != t
    ensures FileName(id, t) !in FlatNames(ids, s)
  {
    FlatNamesAre(ids, s, FileName(id, t));
    DecodeIsExact(FileName(id, t), id, t);
  }

  ghost function Those(ids: seq<string>): iset<string> {
    iset id | id in ids
  }

  lemma ExecutedFiles(r: Runs, plan: Plan, parse: Parser, moved: seq<string>, finished: bool)
    requires IsPlan(r, plan) && forall id :: id in moved ==> id in plan.diagnostics
    ensures var after := Executed(r, plan, parse, moved, finished);
            forall name :: name in after.files <==>
              name in r.files && !Consumed(r, Those(moved), finished, name)
    ensures var after := Executed(r, plan, parse, moved, finished);
            forall name :: name in after.files ==> after.files[name] == r.files[name]
  {
    var journals := MoveAll(r, plan.journals, Journal, "journal.jsonl");
    var manifests := WriteAll(journals, plan.manifests, parse);
    MoveAllFiles(r, plan.journals, Journal, "journal.jsonl");
    WriteAllIs(journals, plan.manifests, parse);
    MoveAllFiles(manifests, moved, Diagnostic, "diagnostic.jsonl");
    var after := Executed(r, plan, parse, moved, finished);
    var j, d, o := FlatNames(Elements(plan.journals), Journal), FlatNames(Elements(moved), Diagnostic),
      if finished then FlatNames(Elements(plan.doctors), Doctor) else {};
    assert after.files == r.files - j - d - o;
    forall name | name in r.files
      ensures Consumed(r, Those(moved), finished, name) <==> name in j + d + o
    {
      hide IsRunId, FlatNames;
      FlatNamesAre(Elements(plan.journals), Journal, name);
      FlatNamesAre(Elements(moved), Diagnostic, name);
      FlatNamesAre(Elements(plan.doctors), Doctor, name);
      if Decode(name).Some? {
        DecodeIsExact(name, Decode(name).value.0, Decode(name).value.1);
      }
    }
  }

  lemma ManifestStage(r: Runs, plan: Plan, parse: Parser, manifests: Runs)
    requires IsPlan(r, plan)
    requires manifests == WriteAll(MoveAll(r, plan.journals, Journal, "journal.jsonl"), plan.manifests, parse)
    ensures forall id :: id in manifests.dirs <==> id in r.dirs || MovesJournal(r, id)
    ensures forall id :: id in manifests.dirs ==> manifests.dirs[id] == Settled(r, id, parse)
    ensures forall id :: Flat(r, id, Diagnostic) ==>
              && Flat(manifests, id, Diagnostic)
              && manifests.files[FileName(id, Diagnostic)] == r.files[FileName(id, Diagnostic)]
    ensures forall id :: IsRunId(id) ==> (id in manifests.files <==> id in r.files)
  {
    var journals := MoveAll(r, plan.journals, Journal, "journal.jsonl");
    MoveAllIs(r, plan.journals, Journal, "journal.jsonl");
    WriteAllIs(journals, plan.manifests, parse);
    assert forall id :: id in manifests.dirs <==> id in r.dirs || MovesJournal(r, id);
    hide WriteAll, MoveAll, Settled, Report, IsRunId, FlatNames, FileName, ManifestsIn, Moved;
    forall id | IsRunId(id)
      ensures FileName(id, Diagnostic) !in FlatNames(Elements(plan.journals), Journal)
      ensures id !in FlatNames(Elements(plan.journals), Journal)
    {
      JournalsInNobodysWay(plan.journals, id);
    }
    forall id | id in manifests.dirs
      ensures manifests.dirs[id] == Settled(r, id, parse)
    {
      ManifestOf(r, plan, parse, journals, manifests, id);
    }
  }

  lemma JournalsInNobodysWay(journals: seq<string>, id: string)
    requires IsRunId(id) && forall x :: x in journals ==> IsRunId(x)
    ensures FileName(id, Doctor) !in FlatNames(Elements(journals), Journal)
    ensures FileName(id, Diagnostic) !in FlatNames(Elements(journals), Journal)
    ensures id !in FlatNames(Elements(journals), Journal)
  {
    OtherKindStays(Elements(journals), Journal, id, Doctor);
    OtherKindStays(Elements(journals), Journal, id, Diagnostic);
    hide IsRunId, FileName;
    forall x | x in journals
      ensures FileName(x, Journal) != id
    {
      RunIdIsNoFlatName(id, x, Journal);
    }
  }

  /** The directory of one run when the manifests are written. */
  lemma ManifestOf(r: Runs, plan: Plan, parse: Parser, journals: Runs, manifests: Runs, id: string)
    requires IsPlan(r, plan)
    requires journals.files == r.files - FlatNames(Elements(plan.journals), Journal)
    requires Moved(r, plan.journals, Journal, "journal.jsonl", journals.dirs)
    requires ManifestsIn(journals, plan.journals, parse, manifests.dirs) && id in manifests.dirs
    ensures id in r.dirs || MovesJournal(r, id)
    ensures manifests.dirs[id] == Settled(r, id, parse)
  {
    if id in plan.journals {
      JournalsInNobodysWay(plan.journals, id);
      hide IsRunId, FlatNames, FileName;
      assert Report(journals, id, parse) == Report(r, id, parse);
      assert journals.dirs[id] == map["journal.jsonl" := Raw(r.files[FileName(id, Journal)])];
    }
  }

  lemma ExecutedReaches(r: Runs, plan: Plan, parse: Parser, moved: seq<string>, finished: bool)
    requires IsPlan(r, plan) && Distinct(moved)
    requires forall id :: id in moved ==> id in plan.diagnostics && id !in r.files
    ensures Reached(r, Executed(r, plan, parse, moved, finished), parse, Those(moved), finished)
  {
    ExecutedFiles(r, plan, parse, moved, finished);
    ExecutedDirs(r, plan, parse, moved, finished);
    hide Executed, Consumed, WithDiagnostic, Settled;
  }

  lemma ExecutedDirs(r: Runs, plan: Plan, parse: Parser, moved: seq<string>, finished: bool)
    requires IsPlan(r, plan) && Distinct(moved)
    requires forall id :: id in moved ==> id in plan.diagnostics && id !in r.files
    ensures var (after, done) := (Executed(r, plan, parse, moved, finished), Those(moved));
            && (forall id :: id in after.dirs <==> id in r.dirs || MovesJournal(r, id))
            && (forall id :: id in after.dirs ==> after.dirs[id] == WithDiagnostic(r, done, id, Settled(r, id, parse)))
  {
    var manifests := WriteAll(MoveAll(r, plan.journals, Journal, "journal.jsonl"), plan.manifests, parse);
    ManifestStage(r, plan, parse, manifests);
    MoveAllIs(manifests, moved, Diagnostic, "diagnostic.jsonl");
    var dirs := MoveAll(manifests, moved, Diagnostic, "diagnostic.jsonl").dirs;
    assert Executed(r, plan, parse, moved, finished).dirs == dirs;
    hide IsRunId, FileName, Consumed, Settled, Executed, WriteAll, MoveAll;
    forall id
      ensures id in dirs <==> id in r.dirs || MovesJournal(r, id)
      ensures id in dirs ==> dirs[id] == WithDiagnostic(r, Those(moved), id, Settled(r, id, parse))
    {
      assert id in dirs <==> id in manifests.dirs || id in moved;
      if id in dirs {
        assert id in moved ==> Under(manifests, id) == Settled(r, id, parse);
      }
    }
  }

  /** Scan, plan and execute. It fails exactly if a diagnostic file has to go into a run's
      directory whose name a plain file bears. */
  method Migrate(runs: RunsDirectory, parse: Parser) returns (ok: bool)
    modifies runs
    ensures ok <==> old(NoClash(runs.Now()))
    ensures ok ==> IsMigrated(old(runs.Now()), runs.Now(), parse)
    ensures !ok ==> IsInterrupted(old(runs.Now()), runs.Now(), parse)
  {
    hide IsPlan, MoveAll, WriteAll, AfterDoctors, IsMigrated, IsInterrupted, NoClash, Flat, IsRunId, FileName;
    ghost var start := runs.Now();
    var artifacts := runs.ScanFlatArtifacts();
    var plan := runs.BuildPlan(artifacts);
    PlannedAreFlat(start, plan);
    runs.MoveJournals(plan.journals);
    runs.WriteManifests(plan.manifests, parse);
    ghost var manifests := runs.Now();
    ManifestStage(start, plan, parse, manifests);
    DiagnosticsAreReady(start, plan, manifests);
    ghost var moved;
    ok, moved := runs.MoveDiagnostics(plan.diagnostics);
    PassEnds(start, plan, manifests, parse, moved, ok);
    if ok {
      runs.DeleteDoctors(plan.doctors);
    }
  }

  lemma PlannedAreFlat(r: Runs, plan: Plan)
    requires IsPlan(r, plan)
    ensures Distinct(plan.journals)
    ensures forall id :: id in plan.journals ==> IsRunId(id) && FileName(id, Journal) in r.files && id !in r.dirs
  {
    hide IsRunId, FileName;
  }

  lemma DiagnosticsAreReady(r: Runs, plan: Plan, manifests: Runs)
    requires IsPlan(r, plan)
    requires forall id :: Flat(r, id, Diagnostic) ==>
               && Flat(manifests, id, Diagnostic)
               && manifests.files[FileName(id, Diagnostic)] == r.files[FileName(id, Diagnostic)]
    ensures Distinct(plan.diagnostics) && forall id :: id in plan.diagnostics ==> Flat(manifests, id, Diagnostic)
  {
    hide Flat, FileName;
  }

  /** What the whole migration has done when the diagnostic pass is over. */
  lemma PassEnds(r: Runs, plan: Plan, manifests: Runs, parse: Parser, moved: nat, ok: bool)
    requires IsPlan(r, plan)
    requires manifests == WriteAll(MoveAll(r, plan.journals, Journal, "journal.jsonl"), plan.manifests, parse)
    requires moved <= |plan.diagnostics| && forall id :: id in plan.diagnostics[..moved] ==> id !in manifests.files
    requires if ok then moved == |plan.diagnostics|
             else moved < |plan.diagnostics| && plan.diagnostics[moved] in manifests.files
    ensures ok <==> NoClash(r)
    ensures var left := MoveAll(manifests, plan.diagnostics[..moved], Diagnostic, "diagnostic.jsonl");
            if ok then IsMigrated(r, AfterDoctors(left, Elements(plan.doctors)), parse)
            else IsInterrupted(r, left, parse)
  {
    var ids := plan.diagnostics[..moved];
    ManifestStage(r, plan, parse, manifests);
    assert ok ==> ids == plan.diagnostics;
    forall id | id in plan.diagnostics
      ensures IsRunId(id) && (id in manifests.files <==> id in r.files)
    {
      assert MovesDiagnostic(r, id);
    }
    assert ok <==> NoClash(r) by {
      hide MovesDiagnostic, MoveAll, WriteAll;
      if !ok {
        assert plan.diagnostics[moved] in plan.diagnostics;
      }
    }
    assert Executed(r, plan, parse, ids, ok) ==
           (var left := MoveAll(manifests, ids, Diagnostic, "diagnostic.jsonl");
            if ok then AfterDoctors(left, Elements(plan.doctors)) else left);
    hide Executed, MoveAll, WriteAll, AfterDoctors, Reached, IsRunId;
    assert forall id :: id in ids ==> id in plan.diagnostics;
    ExecutedReaches(r, plan, parse, ids, ok);
    if ok {
      assert Those(ids) == AllDiagnostics(r);
    } else {
      assert Avoids(Those(ids), r);
    }
  }

  // ---- What a migration is worth, whether or not it gets to its end ----

  /** The journal of a run that had no directory ends up in it, byte for byte, even if the
      migration fails later. */
  lemma JournalArrives(r: Runs, after: Runs, parse: Parser, done: iset<string>, finished: bool, id: string)
    requires Reached(r, after, parse, done, finished) && MovesJournal(r, id)
    ensures id in after.dirs && "journal.jsonl" in after.dirs[id]
    ensures after.dirs[id]["journal.jsonl"] == Raw(r.files[FileName(id, Journal)])
    ensures FileName(id, Journal) !in after.files
  {
    DecodeIsExact(FileName(id, Journal), id, Journal);
    hide IsRunId, Decode, FileName;
  }

  /** So does the diagnostic file of a run that has a directory or gets one. */
  lemma DiagnosticArrives(r: Runs, after: Runs, parse: Parser, id: string)
    requires IsMigrated(r, after, parse) && IsRunId(id) && id !in r.files
    requires id + ".diagnostic.jsonl" in r.files && (id in r.dirs || id + ".jsonl" in r.files)
    ensures id in after.dirs && "diagnostic.jsonl" in after.dirs[id]
    ensures after.dirs[id]["diagnostic.jsonl"] == Raw(r.files[id + ".diagnostic.jsonl"])
    ensures id + ".diagnostic.jsonl" !in after.files
  {
    assert FileName(id, Diagnostic) == id + ".diagnostic.jsonl" && FileName(id, Journal) == id + ".jsonl";
    DecodeIsExact(FileName(id, Diagnostic), id, Diagnostic);
    hide IsRunId, Decode, FileName;
    assert id in AllDiagnostics(r);
  }

  /** A doctor file goes only when its run is migrated. The report is then in the run's
      manifest exactly if the file parses to something other than null. */
  lemma DeletedDoctorIsEmbedded(r: Runs, after: Runs, parse: Parser, done: iset<string>, finished: bool, id: string)
    requires Reached(r, after, parse, done, finished) && Flat(r, id, Doctor) && FileName(id, Doctor) !in after.files
    ensures id in after.dirs && "manifest.json" in after.dirs[id]
    ensures var report := parse(r.files[FileName(id, Doctor)]);
            after.dirs[id]["manifest.json"] ==
            ManifestFile(id, if report == Some(JsonNull) then None else report)
  {
    DecodeIsExact(FileName(id, Doctor), id, Doctor);
    hide IsRunId, Decode, FileName;
  }

  /** What disappears from the flat layout is found again under its run, doctor files aside. */
  lemma NothingElseIsLost(r: Runs, after: Runs, parse: Parser, done: iset<string>, finished: bool, name: string)
    requires Reached(r, after, parse, done, finished) && Avoids(done, r)
    requires name in r.files && name !in after.files
    ensures Decode(name).Some?
    ensures var (id, s) := Decode(name).value;
            && id in after.dirs
            && (s == Journal ==> ("journal.jsonl", Raw(r.files[name])) in after.dirs[id].Items)
            && (s == Diagnostic ==> ("diagnostic.jsonl", Raw(r.files[name])) in after.dirs[id].Items)
            && (s == Doctor ==> finished)
  {
    assert Consumed(r, done, finished, name);
    var (id, s) := Decode(name).value;
    DecodeIsExact(name, id, s);
    hide IsRunId, Decode, Consumed, FileName, Settled;
    if s == Journal {
      JournalArrives(r, after, parse, done, finished, id);
    }
  }

  /** Files of a run without a journal and without a directory stay, and so does whatever is
      no flat artifact. */
  lemma OthersStay(r: Runs, after: Runs, parse: Parser, done: iset<string>, finished: bool)
    requires Reached(r, after, parse, done, finished)
    ensures forall name :: name in r.files && Decode(name).None? ==> name in after.files
    ensures forall id, s :: Flat(r, id, s) && !Flat(r, id, Journal) && !Taken(r, id) ==> FileName(id, s) in after.files
  {
    forall id, s | Flat(r, id, s) && !Flat(r, id, Journal) && !Taken(r, id)
      ensures FileName(id, s) in after.files
    {
      DecodeIsExact(FileName(id, s), id, s);
      hide IsRunId, Decode, FileName;
    }
  }

  /** The exact loss inside directories, on both exits: a file that a run's directory already
      holds is replaced if and only if it is the diagnostic file and a flat one with other
      content has moved in. */
  lemma StoredFileReplacedIff(
    r: Runs, after: Runs, parse: Parser, done: iset<string>, finished: bool, id: string, name: string)
    requires Reached(r, after, parse, done, finished) && id in r.dirs && name in r.dirs[id]
    ensures id in after.dirs && name in after.dirs[id]
    ensures after.dirs[id][name] != r.dirs[id][name] <==>
            && name == "diagnostic.jsonl" && id in done
            && Raw(r.files[FileName(id, Diagnostic)]) != r.dirs[id][name]
  {
    hide IsRunId, FileName, Decode;
  }

  const STORED_TWICE: Runs :=
    Runs(map["run_abcd.diagnostic.jsonl" := "new"], map["run_abcd" := map["diagnostic.jsonl" := Raw("old")]])

  /** So the move does overwrite: whatever the migration of this directory leaves, the
      content "old" is not in it. */
  lemma DiagnosticIsOverwritten(after: Runs, parse: Parser)
    requires IsMigrated(STORED_TWICE, after, parse)
    ensures "run_abcd" in after.dirs && after.dirs["run_abcd"] == map["diagnostic.jsonl" := Raw("new")]
    ensures after.files == map[]
  {
    var id := "run_abcd";
    var r, all := STORED_TWICE, AllDiagnostics(STORED_TWICE);
    StoredTwiceMoves();
    DecodeIsExact(FileName(id, Diagnostic), id, Diagnostic);
    hide IsRunId, FileName, Decode;
    assert id in all && Consumed(r, all, true, FileName(id, Diagnostic));
    assert id in after.dirs && after.dirs[id] == WithDiagnostic(r, all, id, r.dirs[id]);
    assert forall name :: name in after.files ==> name in r.files;
  }

  lemma StoredTwiceMoves()
    ensures IsRunId(RUN) && FileName(RUN, Diagnostic) == "run_abcd.diagnostic.jsonl"
    ensures MovesDiagnostic(STORED_TWICE, RUN)
  {
    RunFileNames();
    hide IsRunId, FileName;
  }

  /** A failed migration strands the doctor files of the runs it migrated: their runs now
      have directories, so no later migration, failed or not, collects them. */
  lemma DoctorsAreStranded(
    r: Runs, after: Runs, parse: Parser, done: iset<string>,
    again: Runs, doneAgain: iset<string>, finishedAgain: bool, id: string)
    requires Reached(r, after, parse, done, false) && MovesJournal(r, id) && Flat(r, id, Doctor)
    requires Reached(after, again, parse, doneAgain, finishedAgain)
    ensures FileName(id, Doctor) in again.files && again.files[FileName(id, Doctor)] == r.files[FileName(id, Doctor)]
  {
    DecodeIsExact(FileName(id, Doctor), id, Doctor);
    hide IsRunId, FileName, Decode, WithDiagnostic, Settled;
  }

  /** A failed migration leaves what made it fail, so it fails again each time. */
  lemma FailureRepeats(r: Runs, after: Runs, parse: Parser)
    requires IsInterrupted(r, after, parse) && !NoClash(r)
    ensures !NoClash(after)
  {
    var done: iset<string> :| Avoids(done, r) && Reached(r, after, parse, done, false);
    var id :| MovesDiagnostic(r, id) && id in r.files;
    DecodeIsExact(FileName(id, Diagnostic), id, Diagnostic);
    if Decode(id).Some? {
      DecodeIsExact(id, Decode(id).value.0, Decode(id).value.1);
      RunIdIsNoFlatName(id, Decode(id).value.0, Decode(id).value.1);
    }
    hide IsRunId, FileName, Decode, Settled, WithDiagnostic;
    assert !Consumed(r, done, false, id) && !Consumed(r, done, false, FileName(id, Diagnostic));
    assert MovesDiagnostic(after, id) && id in after.files;
  }

  // ---- One input for each of these ----

  /** The run whose flat journal and doctor report stand for any. */
  const RUN: string := "run_abcd"

  lemma RunFileNames()
    ensures IsRunId(RUN) && IsRunId("run_wxyz")
    ensures FileName(RUN, Journal) == "run_abcd.jsonl"
    ensures FileName(RUN, Doctor) == "run_abcd.doctor.json"
    ensures FileName(RUN, Diagnostic) == "run_abcd.diagnostic.jsonl"
    ensures FileName("run_wxyz", Diagnostic) == "run_wxyz.diagnostic.jsonl"
    ensures FileName("run_wxyz", Journal) == "run_wxyz.jsonl"
  {
    var a, b := RUN, "run_wxyz";
    forall i | 4 <= i < 8
      ensures IsIdChar(a[i]) && IsIdChar(b[i])
    {
      assert i == 4 || i == 5 || i == 6 || i == 7;
    }
  }

  /** The run id pattern accepts a final line feed. */
  lemma FinalLineFeedIsAccepted()
    ensures IsRunId(RUN + "\n")
  {
    RunFileNames();
    assert (RUN + "\n")[..8] == RUN;
  }

  const NULL_REPORT: Runs := Runs(map["run_abcd.jsonl" := "journal", "run_abcd.doctor.json" := "null"], map[])

  /** A doctor file that says `null` is deleted, and no manifest embeds anything. */
  lemma NullReportIsLost(after: Runs, parse: Parser)
    requires parse("null") == Some(JsonNull) && IsMigrated(NULL_REPORT, after, parse)
    ensures "run_abcd.doctor.json" !in after.files
    ensures RUN in after.dirs && "manifest.json" in after.dirs[RUN]
    ensures after.dirs[RUN]["manifest.json"] == ManifestFile(RUN, None)
  {
    RunFileNames();
    DecodeIsExact(FileName(RUN, Doctor), RUN, Doctor);
    DecodeIsExact(FileName(RUN, Journal), RUN, Journal);
    hide IsRunId, FileName, Decode;
    assert MovesJournal(NULL_REPORT, RUN);
    assert Consumed(NULL_REPORT, AllDiagnostics(NULL_REPORT), true, FileName(RUN, Doctor));
    DeletedDoctorIsEmbedded(NULL_REPORT, after, parse, AllDiagnostics(NULL_REPORT), true, RUN);
  }

  /** One run to migrate, and another whose directory name a plain file bears. */
  const CLASHING: Runs :=
    Runs(map["run_abcd.jsonl" := "journal", "run_abcd.doctor.json" := "{}",
             "run_wxyz" := "", "run_wxyz.diagnostic.jsonl" := "d"], map[])

  /** The migration of this directory fails with the journal moved, and from then on the doctor
      file stays where it is, whatever is migrated again. */
  lemma DoctorIsStranded(
    r: Runs, after: Runs, again: Runs, parse: Parser, done: iset<string>, finished: bool)
    requires r == CLASHING && IsInterrupted(r, after, parse) && Reached(after, again, parse, done, finished)
    ensures !NoClash(r) && !NoClash(after)
    ensures RUN in after.dirs && "run_abcd.jsonl" !in after.files
    ensures "run_abcd.doctor.json" in again.files
  {
    ClashingClashes(r);
    hide IsRunId, FileName, Decode, NoClash, MovesJournal, Flat, Reached;
    FailureRepeats(r, after, parse);
    var first: iset<string> :| Avoids(first, r) && Reached(r, after, parse, first, false);
    JournalArrives(r, after, parse, first, false, RUN);
    DoctorsAreStranded(r, after, parse, first, again, done, finished, RUN);
  }

  lemma ClashingClashes(r: Runs)
    requires r == CLASHING
    ensures !NoClash(r)
    ensures MovesJournal(r, RUN) && Flat(r, RUN, Doctor)
    ensures FileName(RUN, Journal) == "run_abcd.jsonl" && FileName(RUN, Doctor) == "run_abcd.doctor.json"
  {
    RunFileNames();
    hide IsRunId, FileName;
    assert MovesDiagnostic(r, "run_wxyz") && "run_wxyz" in r.files;
  }

  /** A second migration has nothing to do. */
  lemma SecondMigrationIsIdle(r: Runs, after: Runs, parse: Parser)
    requires IsMigrated(r, after, parse)
    ensures forall id :: !MovesJournal(after, id) && !MovesDiagnostic(after, id)
    ensures forall again :: IsMigrated(after, again, parse) ==> again == after
  {
    forall id
      ensures !MovesJournal(after, id) && !MovesDiagnostic(after, id)
    {
      NothingMoves(r, after, parse, id);
    }
    forall again | IsMigrated(after, again, parse)
      ensures again == after
    {
      OnlyMovesMatter(after, again, parse);
    }
  }

  lemma NothingMoves(r: Runs, after: Runs, parse: Parser, id: string)
    requires IsMigrated(r, after, parse)
    ensures !MovesJournal(after, id) && !MovesDiagnostic(after, id)
  {
    if IsRunId(id) {
      DecodeIsExact(FileName(id, Journal), id, Journal);
      DecodeIsExact(FileName(id, Diagnostic), id, Diagnostic);
      if Decode(id).Some? {
        DecodeIsExact(id, Decode(id).value.0, Decode(id).value.1);
        RunIdIsNoFlatName(id, Decode(id).value.0, Decode(id).value.1);
      }
      hide IsRunId, FileName, Decode, Settled, WithDiagnostic;
      var all := AllDiagnostics(r);
      assert MovesJournal(r, id) ==> Consumed(r, all, true, FileName(id, Journal));
      assert MovesDiagnostic(r, id) ==> Consumed(r, all, true, FileName(id, Diagnostic));
    }
  }

  lemma OnlyMovesMatter(r: Runs, after: Runs, parse: Parser)
    requires IsMigrated(r, after, parse)
    requires forall id :: !MovesJournal(r, id) && !MovesDiagnostic(r, id)
    ensures after == r
  {
    NothingConsumed(r);
    hide Consumed, Flat, Decode, MovesJournal, MovesDiagnostic, AllDiagnostics, FileName;
    assert after.files == r.files;
    assert forall id :: id in after.dirs ==> after.dirs[id] == r.dirs[id];
    assert after.dirs == r.dirs;
  }

  lemma NothingConsumed(r: Runs)
    requires forall id :: !MovesJournal(r, id) && !MovesDiagnostic(r, id)
    ensures forall id :: id !in AllDiagnostics(r)
    ensures forall name :: !Consumed(r, AllDiagnostics(r), true, name)
  {
    hide Decode, MovesJournal, MovesDiagnostic;
  }
}
