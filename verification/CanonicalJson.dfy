/** Canonical JSON of plan data. Mappings and sets carry an explicit iteration order here,
    so that independence of that order is something to prove. */
module CanonicalJson {
  import opened KeyedLists

  // ---- Plan data ----

  /** A number is carried by its literal. */
  datatype Scalar = Null | Bool(value: bool) | Number(literal: string) | Text(chars: string)

  /** A mapping key: its type, and what `str` makes of it. Keys 1 and "1" differ in type only. */
  datatype Key = Key(typeName: string, text: string)

  datatype Value =
    | Leaf(scalar: Scalar)
    | Enum(member: Scalar)
    | Dataclass(fields: seq<(string, Value)>)
    | Mapping(items: seq<(Key, Value)>)
    | Tuple(parts: seq<Value>)
    | List(parts: seq<Value>)
    | Set(elements: seq<Value>)

  /** What `_canonicalize` returns: scalars, dicts with string keys, and lists. */
  datatype Plain = Atom(scalar: Scalar) | Obj(members: Pairs<Plain>) | Arr(items: seq<Plain>)

  // ---- json.dumps(..., ensure_ascii=False, sort_keys=True, separators=(",", ":")) ----

  function HexDigit(n: nat): char
    requires n < 16
  {
    "0123456789abcdef"[n]
  }

  /** RFC 8259, section 7: the quotation mark, the reverse solidus and U+0000 to U+001F. */
  function Escape(c: char): string {
    if c == '\"' then "\\\""
    else if c == '\\' then "\\\\"
    else if c == '\n' then "\\n"
    else if c == '\r' then "\\r"
    else if c == '\t' then "\\t"
    else if c == '\U{000C}' then "\\f"
    else if c == '\U{0008}' then "\\b"
    else if c < ' ' then "\\u00" + [HexDigit(c as int / 16), HexDigit(c as int % 16)]
    else [c]
  }

  function EscapeAll(s: string): string {
    if s == "" then "" else Escape(s[0]) + EscapeAll(s[1..])
  }

  function Quote(s: string): string {
    "\"" + EscapeAll(s) + "\""
  }

  function ScalarText(s: Scalar): string {
    match s
    case Null => "null"
    case Bool(value) => if value then "true" else "false"
    case Number(literal) => literal
    case Text(chars) => Quote(chars)
  }

  function Join(parts: seq<string>): string {
    if parts == [] then ""
    else if |parts| == 1 then parts[0]
    else parts[0] + "," + Join(parts[1..])
  }

  function MemberText(member: (string, string)): string {
    Quote(member.0) + ":" + member.1
  }

  function ObjectText(members: Pairs<string>): string {
    "{" + Join(seq(|members|, i requires 0 <= i < |members| => MemberText(members[i]))) + "}"
  }

  function ArrayText(items: seq<string>): string {
    "[" + Join(items) + "]"
  }

  /** The members are sorted by key; a dict has no equal keys, so nothing else decides. */
  function Dumps(p: Plain): string {
    match p
    case Atom(scalar) => ScalarText(scalar)
    case Obj(members) => ObjectText(Sort(DumpMembers(members)))
    case Arr(items) => ArrayText(DumpItems(items))
  }

  function DumpMembers(members: Pairs<Plain>): (r: Pairs<string>)
    ensures |r| == |members|
  {
    if members == [] then []
    else
      assert members[0].1 < members[0];
      [(members[0].0, Dumps(members[0].1))] + DumpMembers(members[1..])
  }

  function DumpItems(items: seq<Plain>): (r: seq<string>)
    ensures |r| == |items|
  {
    if items == [] then [] else [Dumps(items[0])] + DumpItems(items[1..])
  }

  // ---- _canonicalize ----

  /** `_canonicalize` on what it has returned itself. */
  function CanonPlain(p: Plain): Plain {
    match p
    case Atom(_) => p
    case Obj(members) => Obj(SortedDict(CanonPlainMembers(members)))
    case Arr(items) => Arr(CanonPlainItems(items))
  }

  function CanonPlainMembers(members: Pairs<Plain>): Pairs<Plain> {
    if members == [] then []
    else
      assert members[0].1 < members[0];
      [(members[0].0, CanonPlain(members[0].1))] + CanonPlainMembers(members[1..])
  }

  function CanonPlainItems(items: seq<Plain>): seq<Plain> {
    if items == [] then [] else [CanonPlain(items[0])] + CanonPlainItems(items[1..])
  }

  /** The sort key of a canonicalised set element: canonical_json applied to it. */
  function PlainJson(p: Plain): string {
    Dumps(CanonPlain(p))
  }

  function Keyed(items: seq<Plain>): (r: Pairs<Plain>)
    ensures |r| == |items|
    ensures forall i :: 0 <= i < |items| ==> r[i] == (PlainJson(items[i]), items[i])
  {
    if items == [] then [] else [(PlainJson(items[0]), items[0])] + Keyed(items[1..])
  }

  function Values<T>(xs: Pairs<T>): (r: seq<T>)
    ensures |r| == |xs|
  {
    if xs == [] then [] else [xs[0].1] + Values(xs[1..])
  }

  /** `asdict` says that the value comes out of dataclasses.asdict, which has already turned
      nested dataclasses into dicts; it does not look into sets. */
  function Canon(v: Value, asdict: bool): Plain {
    match v
    case Leaf(scalar) => Atom(scalar)
    case Enum(member) => Atom(member)
    case Dataclass(fields) =>
      var members := CanonFields(fields);
      Obj(if asdict then SortedDict(members) else DictOf(members))
    case Mapping(items) => Obj(SortedDict(CanonEntries(items, asdict)))
    case Tuple(parts) => Arr(CanonParts(parts, asdict))
    case List(parts) => Arr(CanonParts(parts, asdict))
    case Set(elements) => Arr(Values(Sort(Keyed(CanonParts(elements, false)))))
  }

  function CanonFields(fields: seq<(string, Value)>): Pairs<Plain> {
    if fields == [] then []
    else
      assert fields[0].1 < fields[0];
      [(fields[0].0, Canon(fields[0].1, true))] + CanonFields(fields[1..])
  }

  function CanonEntries(items: seq<(Key, Value)>, asdict: bool): (r: Pairs<Plain>)
    ensures |r| == |items| && forall i :: 0 <= i < |items| ==> r[i].0 == items[i].0.text
  {
    if items == [] then []
    else
      assert items[0].1 < items[0];
      [(items[0].0.text, Canon(items[0].1, asdict))] + CanonEntries(items[1..], asdict)
  }

  function CanonParts(parts: seq<Value>, asdict: bool): seq<Plain> {
    if parts == [] then [] else [Canon(parts[0], asdict)] + CanonParts(parts[1..], asdict)
  }

  function CanonicalText(v: Value): string {
    Dumps(Canon(v, false))
  }

  // ---- The two shortcuts above are the source's own definition ----

  function AsDict(v: Value): Value {
    match v
    case Dataclass(fields) => Mapping(AsDictFields(fields))
    case Mapping(items) => Mapping(AsDictEntries(items))
    case Tuple(parts) => Tuple(AsDictParts(parts))
    case List(parts) => List(AsDictParts(parts))
    case _ => v
  }

  function AsDictFields(fields: seq<(string, Value)>): seq<(Key, Value)> {
    if fields == [] then []
    else
      assert fields[0].1 < fields[0];
      [(Key("str", fields[0].0), AsDict(fields[0].1))] + AsDictFields(fields[1..])
  }

  function AsDictEntries(items: seq<(Key, Value)>): seq<(Key, Value)> {
    if items == [] then []
    else
      assert items[0].1 < items[0];
      [(items[0].0, AsDict(items[0].1))] + AsDictEntries(items[1..])
  }

  function AsDictParts(parts: seq<Value>): seq<Value> {
    if parts == [] then [] else [AsDict(parts[0])] + AsDictParts(parts[1..])
  }

  /** Canonicalising a field of `asdict(value)` is what the flag stands for. */
  lemma {:induction false} AsDictFlag(v: Value)
    ensures Canon(AsDict(v), false) == Canon(v, true)
    decreases v
  {
    match v
    case Dataclass(fields) => AsDictFlagFields(fields);
    case Mapping(items) => AsDictFlagEntries(items);
    case Tuple(parts) => AsDictFlagParts(parts);
    case List(parts) => AsDictFlagParts(parts);
    case _ =>
  }

  lemma {:induction false} AsDictFlagFields(fields: seq<(string, Value)>)
    ensures CanonEntries(AsDictFields(fields), false) == CanonFields(fields)
    decreases fields
  {
    if fields != [] {
      assert fields[0].1 < fields[0];
      AsDictFlag(fields[0].1);
      AsDictFlagFields(fields[1..]);
      assert AsDictFields(fields)[1..] == AsDictFields(fields[1..]);
    }
  }

  lemma {:induction false} AsDictFlagEntries(items: seq<(Key, Value)>)
    ensures CanonEntries(AsDictEntries(items), false) == CanonEntries(items, true)
    decreases items
  {
    if items != [] {
      assert items[0].1 < items[0];
      AsDictFlag(items[0].1);
      AsDictFlagEntries(items[1..]);
      assert AsDictEntries(items)[1..] == AsDictEntries(items[1..]);
    }
  }

  lemma {:induction false} AsDictFlagParts(parts: seq<Value>)
    ensures CanonParts(AsDictParts(parts), false) == CanonParts(parts, true)
    decreases parts
  {
    if parts != [] {
      AsDictFlag(parts[0]);
      AsDictFlagParts(parts[1..]);
      assert AsDictParts(parts)[1..] == AsDictParts(parts[1..]);
    }
  }

  /** Plain data seen as a value again. */
  function Embed(p: Plain): Value {
    match p
    case Atom(scalar) => Leaf(scalar)
    case Obj(members) => Mapping(EmbedMembers(members))
    case Arr(items) => List(EmbedItems(items))
  }

  function EmbedMembers(members: Pairs<Plain>): seq<(Key, Value)> {
    if members == [] then []
    else
      assert members[0].1 < members[0];
      [(Key("str", members[0].0), Embed(members[0].1))] + EmbedMembers(members[1..])
  }

  function EmbedItems(items: seq<Plain>): seq<Value> {
    if items == [] then [] else [Embed(items[0])] + EmbedItems(items[1..])
  }

  lemma {:induction false} EmbedIsPlain(p: Plain)
    ensures Canon(Embed(p), false) == CanonPlain(p)
    decreases p
  {
    match p
    case Atom(_) =>
    case Obj(members) => EmbedMembersArePlain(members);
    case Arr(items) => EmbedItemsArePlain(items);
  }

  lemma {:induction false} EmbedMembersArePlain(members: Pairs<Plain>)
    ensures CanonEntries(EmbedMembers(members), false) == CanonPlainMembers(members)
    decreases members
  {
    if members != [] {
      assert members[0].1 < members[0];
      EmbedIsPlain(members[0].1);
      EmbedMembersArePlain(members[1..]);
      assert EmbedMembers(members)[1..] == EmbedMembers(members[1..]);
    }
  }

  lemma {:induction false} EmbedItemsArePlain(items: seq<Plain>)
    ensures CanonParts(EmbedItems(items), false) == CanonPlainItems(items)
    decreases items
  {
    if items != [] {
      EmbedIsPlain(items[0]);
      EmbedItemsArePlain(items[1..]);
      assert EmbedItems(items)[1..] == EmbedItems(items[1..]);
    }
  }

  // ---- Canonicalising twice does not change the text ----

  /** As dicts are: no two members of an object share a key, at any depth. */
  ghost predicate UniqueKeys(p: Plain) {
    match p
    case Atom(_) => true
    case Obj(members) => DistinctKeys(members) && forall m :: m in members ==> UniqueKeys(m.1)
    case Arr(items) => forall item :: item in items ==> UniqueKeys(item)
  }

  lemma {:induction false} DumpMembersMaps(members: Pairs<Plain>)
    ensures DumpMembers(members) == MapValues(Dumps, members)
    decreases members
  {
    if members != [] {
      DumpMembersMaps(members[1..]);
      MapCons(Dumps, members[0], members[1..]);
      assert members == [members[0]] + members[1..];
    }
  }

  /** The text of an object whose members come out of a sorted dict. */
  lemma SortedDictText(members: Pairs<Plain>)
    ensures Dumps(Obj(SortedDict(members))) == ObjectText(SortedDict(DumpMembers(members)))
  {
    DumpMembersMaps(members);
    DumpMembersMaps(SortedDict(members));
    MapSort(Dumps, members);
    MapDict(Dumps, Sort(members));
    SortedDictIs(DumpMembers(members));
    SortOfSorted(SortedDict(DumpMembers(members)));
  }

  lemma SortedDictOfDistinct<T>(xs: Pairs<T>)
    requires DistinctKeys(xs)
    ensures SortedDict(xs) == Sort(xs)
  {
    SortedDictIs(xs);
    SortKeepsDistinct(xs);
    DictOfDistinct(Sort(xs));
  }

  lemma {:induction false} SortKeepsDistinct<T>(xs: Pairs<T>)
    requires DistinctKeys(xs)
    ensures DistinctKeys(Sort(xs))
    decreases xs
  {
    if xs != [] {
      assert xs == [xs[0]] + xs[1..];
      ConsDistinct(xs[0], xs[1..]);
      SortKeepsDistinct(xs[1..]);
      SortKeys(xs[1..]);
      InsertDistinct(xs[0], Sort(xs[1..]));
    }
  }

  lemma {:induction false} InsertDistinct<T>(x: (string, T), xs: Pairs<T>)
    requires DistinctKeys(xs) && x.0 !in Keys(xs)
    ensures DistinctKeys(Insert(x, xs))
    decreases xs
  {
    ConsDistinct(x, xs);
    if xs != [] && !Le(x.0, xs[0].0) {
      assert xs == [xs[0]] + xs[1..];
      ConsDistinct(xs[0], xs[1..]);
      ConsKeys(xs[0], xs[1..]);
      InsertDistinct(x, xs[1..]);
      InsertKeys(x, xs[1..]);
      ConsDistinct(xs[0], Insert(x, xs[1..]));
    }
  }

  lemma {:induction false} PlainJsonIsDumps(p: Plain)
    requires UniqueKeys(p)
    ensures PlainJson(p) == Dumps(p)
    decreases p
  {
    match p
    case Atom(_) =>
    case Obj(members) =>
      PlainMembersText(members);
      SortedDictText(CanonPlainMembers(members));
      DumpMembersMaps(members);
      SortedDictOfDistinct(DumpMembers(members));
    case Arr(items) =>
      PlainItemsText(items);
  }

  lemma {:induction false} PlainMembersText(members: Pairs<Plain>)
    requires forall m :: m in members ==> UniqueKeys(m.1)
    ensures DumpMembers(CanonPlainMembers(members)) == DumpMembers(members)
    decreases members
  {
    if members != [] {
      assert members[0].1 < members[0];
      PlainJsonIsDumps(members[0].1);
      PlainMembersText(members[1..]);
      assert CanonPlainMembers(members)[1..] == CanonPlainMembers(members[1..]);
    }
  }

  lemma {:induction false} PlainItemsText(items: seq<Plain>)
    requires forall item :: item in items ==> UniqueKeys(item)
    ensures DumpItems(CanonPlainItems(items)) == DumpItems(items)
    decreases items
  {
    if items != [] {
      PlainJsonIsDumps(items[0]);
      PlainItemsText(items[1..]);
      assert CanonPlainItems(items)[1..] == CanonPlainItems(items[1..]);
    }
  }
}
