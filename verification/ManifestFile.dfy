/** The manifest as JSON, and back. */
module ManifestFiles {
  import opened Options
  import opened PatchTypes

  /** Objects keep the order of their members, as dicts do. */
  datatype Json =
    | Null
    | Bool(value: bool)
    | Int(number: int)
    | Str(text: string)
    | List(items: seq<Json>)
    | Object(members: seq<(string, Json)>)

  type Entries = seq<(string, PatchEntry)>

  datatype ManifestData = ManifestData(schemaVersion: int, patchedAt: string, release: string, patches: Entries)

  /** What Python's `str` and `int` make of a JSON value; `int` may raise. */
  datatype Conversions = Conversions(asText: Json -> string, asInt: Json -> Option<int>)

  ghost predicate Faithful(c: Conversions) {
    && (forall s :: c.asText(Str(s)) == s)
    && (forall n :: c.asInt(Int(n)) == Some(n))
  }

  function EntryToJson(e: PatchEntry): Json {
    Object([("status", Str(e.status)), ("source_sha", Str(e.sourceSha)), ("written", List(Texts(e.written)))])
  }

  function Texts(rels: seq<Path>): seq<Json> {
    if rels == [] then [] else [Str(rels[0])] + Texts(rels[1..])
  }

  function EntriesToJson(patches: Entries): seq<(string, Json)> {
    if patches == [] then [] else [(patches[0].0, EntryToJson(patches[0].1))] + EntriesToJson(patches[1..])
  }

  function ToJson(m: ManifestData): Json {
    Object([
      ("schema_version", Int(m.schemaVersion)),
      ("patched_at", Str(m.patchedAt)),
      ("lobehub_release", Str(m.release)),
      ("patches", Object(EntriesToJson(m.patches)))])
  }

  function Get(members: seq<(string, Json)>, key: string, default: Json): Json {
    if members == [] then default
    else if members[0].0 == key then members[0].1
    else Get(members[1..], key, default)
  }

  predicate Falsy(j: Json) {
    j == Null || j == Bool(false) || j == Int(0) || j == Str("") || j == List([]) || j == Object([])
  }

  /** Iterating over a value: the items of a list, the keys of an object, the characters of
      a text. Anything else raises. */
  function Iterated(j: Json): Option<seq<Json>> {
    match j
    case List(items) => Some(items)
    case Object(members) => Some(seq(|members|, i requires 0 <= i < |members| => Str(members[i].0)))
    case Str(text) => Some(seq(|text|, i requires 0 <= i < |text| => Str([text[i]])))
    case _ => None
  }

  function StrAll(c: Conversions, items: seq<Json>): seq<string> {
    if items == [] then [] else [c.asText(items[0])] + StrAll(c, items[1..])
  }

  /** None where the source raises. */
  function EntryFromJson(c: Conversions, name: string, members: seq<(string, Json)>): Option<PatchEntry> {
    var written := Get(members, "written", Null);
    var items := if Falsy(written) then Some([]) else Iterated(written);
    if items.None? then None
    else
      Some(PatchEntry(
        name,
        c.asText(Get(members, "status", Str("skipped"))),
        c.asText(Get(members, "source_sha", Str(""))),
        StrAll(c, items.value)))
  }

  /** Entries that are not objects are skipped. */
  function EntriesFromJson(c: Conversions, raw: seq<(string, Json)>): Option<Entries> {
    if raw == [] then Some([])
    else if !raw[0].1.Object? then EntriesFromJson(c, raw[1..])
    else
      match (EntryFromJson(c, raw[0].0, raw[0].1.members), EntriesFromJson(c, raw[1..]))
      case (Some(entry), Some(rest)) => Some([(raw[0].0, entry)] + rest)
      case _ => None
  }

  function FromJson(c: Conversions, data: seq<(string, Json)>): Option<ManifestData> {
    var version := c.asInt(Get(data, "schema_version", Int(1)));
    var raw := Get(data, "patches", Null);
    var patches := if raw.Object? then EntriesFromJson(c, raw.members) else Some([]);
    if version.None? || patches.None? then None
    else
      Some(ManifestData(
        version.value,
        c.asText(Get(data, "patched_at", Str(""))),
        c.asText(Get(data, "lobehub_release", Str("unknown"))),
        patches.value))
  }

  lemma {:induction false} TextsBack(c: Conversions, rels: seq<Path>)
    requires Faithful(c)
    ensures StrAll(c, Texts(rels)) == rels
    decreases rels
  {
    if rels != [] {
      TextsBack(c, rels[1..]);
      assert Texts(rels)[1..] == Texts(rels[1..]);
    }
  }

  lemma EntryBack(c: Conversions, name: string, e: PatchEntry)
    requires Faithful(c)
    ensures EntryFromJson(c, name, EntryToJson(e).members) == Some(e.(name := name))
  {
    TextsBack(c, e.written);
    var members := EntryToJson(e).members;
    assert Get(members, "status", Str("skipped")) == Str(e.status);
    assert members[1..][1..][0] == ("written", List(Texts(e.written)));
    assert Get(members[1..], "source_sha", Str("")) == Str(e.sourceSha);
    assert Get(members[1..][1..], "written", Null) == List(Texts(e.written));
    assert Get(members[1..], "written", Null) == List(Texts(e.written));
  }

  function NamedByKey(patches: Entries): Entries {
    if patches == [] then []
    else [(patches[0].0, patches[0].1.(name := patches[0].0))] + NamedByKey(patches[1..])
  }

  lemma {:induction false} EntriesBack(c: Conversions, patches: Entries)
    requires Faithful(c)
    ensures EntriesFromJson(c, EntriesToJson(patches)) == Some(NamedByKey(patches))
    decreases patches
  {
    if patches != [] {
      EntryBack(c, patches[0].0, patches[0].1);
      EntriesBack(c, patches[1..]);
      assert EntriesToJson(patches)[1..] == EntriesToJson(patches[1..]);
    }
  }

  /** Saving and loading a manifest gives it back, order of patches included; an entry comes
      back under the name it was filed under. */
  lemma SaveThenLoad(c: Conversions, m: ManifestData)
    requires Faithful(c)
    ensures FromJson(c, ToJson(m).members) == Some(m.(patches := NamedByKey(m.patches)))
  {
    EntriesBack(c, m.patches);
    var d := ToJson(m).members;
    assert d[1..][1..][1..][0] == ("patches", Object(EntriesToJson(m.patches)));
    assert Get(d[1..][1..][1..], "patches", Null) == Object(EntriesToJson(m.patches));
    assert Get(d[1..][1..], "patches", Null) == Object(EntriesToJson(m.patches));
    assert Get(d[1..], "patches", Null) == Object(EntriesToJson(m.patches));
    assert Get(d[1..][1..], "lobehub_release", Str("unknown")) == Str(m.release);
    assert Get(d[1..], "lobehub_release", Str("unknown")) == Str(m.release);
    assert Get(d[1..], "patched_at", Str("")) == Str(m.patchedAt);
  }

  // ---- The form of the file ----

  /** The members of a saved manifest, by name. */
  lemma SavedForm(m: ManifestData)
    ensures ToJson(m) == Object([
              ("schema_version", Int(m.schemaVersion)), ("patched_at", Str(m.patchedAt)),
              ("lobehub_release", Str(m.release)), ("patches", Object(EntriesToJson(m.patches)))])
    ensures |EntriesToJson(m.patches)| == |m.patches|
    ensures forall i :: 0 <= i < |m.patches| ==>
              var e := m.patches[i].1;
              EntriesToJson(m.patches)[i] ==
              (m.patches[i].0, Object([("status", Str(e.status)), ("source_sha", Str(e.sourceSha)),
                                       ("written", List(Texts(e.written)))]))
    ensures forall rels :: |Texts(rels)| == |rels| && forall i :: 0 <= i < |rels| ==> Texts(rels)[i] == Str(rels[i])
  {
    EntryForms(m.patches);
    forall rels: seq<Path>
      ensures |Texts(rels)| == |rels| && forall i :: 0 <= i < |rels| ==> Texts(rels)[i] == Str(rels[i])
    {
      TextForms(rels);
    }
  }

  lemma {:induction false} TextForms(rels: seq<Path>)
    ensures |Texts(rels)| == |rels| && forall i :: 0 <= i < |rels| ==> Texts(rels)[i] == Str(rels[i])
    decreases rels
  {
    if rels != [] {
      TextForms(rels[1..]);
    }
  }

  lemma {:induction false} EntryForms(patches: Entries)
    ensures |EntriesToJson(patches)| == |patches|
    ensures forall i :: 0 <= i < |patches| ==>
              EntriesToJson(patches)[i] == (patches[i].0, EntryToJson(patches[i].1))
    decreases patches
  {
    if patches != [] {
      EntryForms(patches[1..]);
    }
  }

  /** Whatever is missing from a file gets its default; a file without anything loads. */
  lemma MissingMembersLoad(c: Conversions, name: string)
    requires Faithful(c)
    ensures FromJson(c, []) == Some(ManifestData(1, "", "unknown", []))
    ensures FromJson(c, [("patches", Null)]) == Some(ManifestData(1, "", "unknown", []))
    ensures EntryFromJson(c, name, []) == Some(PatchEntry(name, "skipped", "", []))
  {
    var d := [("patches", Null)];
    assert d[1..] == [];
  }

  /** What is not an object among the patches is passed over. */
  lemma OtherEntriesAreSkipped(c: Conversions, raw: seq<(string, Json)>)
    requires raw != [] && !raw[0].1.Object?
    ensures EntriesFromJson(c, raw) == EntriesFromJson(c, raw[1..])
  {
  }
}
