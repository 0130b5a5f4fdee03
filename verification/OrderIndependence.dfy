/** The canonical text, and with it the digest, does not depend on the order in which
    mappings and sets happen to be iterated. */
module OrderIndependence {
  import opened CanonicalJson
  import opened KeyedLists

  function Without<T>(xs: seq<T>, i: nat): seq<T>
    requires i < |xs|
  {
    xs[..i] + xs[i + 1..]
  }

  // ---- Values that differ only by iteration order, at any depth ----

  ghost predicate SameUpToOrder(v: Value, w: Value)
    decreases v
  {
    match v
    case Leaf(scalar) => w == v
    case Enum(member) => w == v
    case Dataclass(fields) => w.Dataclass? && SameFields(fields, w.fields)
    case Mapping(items) => w.Mapping? && SameEntries(items, w.items)
    case Tuple(parts) => w.Tuple? && SameParts(parts, w.parts)
    case List(parts) => w.List? && SameParts(parts, w.parts)
    case Set(elements) => w.Set? && SameElements(elements, w.elements)
  }

  /** Fields come in the order of the class definition. */
  ghost predicate SameFields(a: seq<(string, Value)>, b: seq<(string, Value)>)
    decreases a
  {
    |a| == |b| && (a == [] ||
      (assert a[0].1 < a[0];
       a[0].0 == b[0].0 && SameUpToOrder(a[0].1, b[0].1) && SameFields(a[1..], b[1..])))
  }

  ghost predicate SameParts(a: seq<Value>, b: seq<Value>)
    decreases a
  {
    |a| == |b| && (a == [] || (SameUpToOrder(a[0], b[0]) && SameParts(a[1..], b[1..])))
  }

  /** The entries of `a` occur in `b` under the same keys, in some order. */
  ghost predicate SameEntries(a: seq<(Key, Value)>, b: seq<(Key, Value)>)
    decreases a
  {
    |a| == |b| && (a == [] ||
      (assert a[0].1 < a[0];
       exists j :: 0 <= j < |b| && a[0].0 == b[j].0 && SameUpToOrder(a[0].1, b[j].1) &&
         SameEntries(a[1..], Without(b, j))))
  }

  ghost predicate SameElements(a: seq<Value>, b: seq<Value>)
    decreases a
  {
    |a| == |b| && (a == [] ||
      exists j :: 0 <= j < |b| && SameUpToOrder(a[0], b[j]) && SameElements(a[1..], Without(b, j)))
  }

  /** Keys that `str` makes equal carry values with equal text, at every depth. Distinct
      stringified keys are the usual case. */
  ghost predicate Consistent(v: Value, asdict: bool)
    decreases v
  {
    match v
    case Leaf(_) => true
    case Enum(_) => true
    case Dataclass(fields) =>
      forall f: (string, Value) :: f in fields ==> (assert f.1 < f; Consistent(f.1, true))
    case Mapping(items) =>
      && (forall e: (Key, Value) :: e in items ==> (assert e.1 < e; Consistent(e.1, asdict)))
      && ConsistentEntries(items, asdict)
    case Tuple(parts) => forall part :: part in parts ==> Consistent(part, asdict)
    case List(parts) => forall part :: part in parts ==> Consistent(part, asdict)
    case Set(elements) => forall e :: e in elements ==> Consistent(e, false)
  }

  ghost predicate ConsistentEntries(items: seq<(Key, Value)>, asdict: bool) {
    forall i, j :: 0 <= i < |items| && 0 <= j < |items| && items[i].0.text == items[j].0.text ==>
      Dumps(Canon(items[i].1, asdict)) == Dumps(Canon(items[j].1, asdict))
  }

  // ---- Multisets of texts ----

  lemma WithoutCounts<T>(xs: seq<T>, i: nat)
    requires i < |xs|
    ensures multiset(xs) == multiset{xs[i]} + multiset(Without(xs, i))
  {
    assert xs == xs[..i] + [xs[i]] + xs[i + 1..];
  }

  function EntryTexts(items: seq<(Key, Value)>, asdict: bool): Pairs<string> {
    seq(|items|, i requires 0 <= i < |items| => (items[i].0.text, Dumps(Canon(items[i].1, asdict))))
  }

  function PartTexts(parts: seq<Value>, asdict: bool): seq<string> {
    seq(|parts|, i requires 0 <= i < |parts| => Dumps(Canon(parts[i], asdict)))
  }

  lemma {:induction false} EntryTextsAre(items: seq<(Key, Value)>, asdict: bool)
    ensures DumpMembers(CanonEntries(items, asdict)) == EntryTexts(items, asdict)
    decreases items
  {
    if items != [] {
      EntryTextsAre(items[1..], asdict);
      assert CanonEntries(items, asdict)[1..] == CanonEntries(items[1..], asdict);
      assert EntryTexts(items, asdict) == [EntryTexts(items, asdict)[0]] + EntryTexts(items[1..], asdict);
    }
  }

  lemma {:induction false} PartTextsAre(parts: seq<Value>, asdict: bool)
    ensures DumpItems(CanonParts(parts, asdict)) == PartTexts(parts, asdict)
    decreases parts
  {
    if parts != [] {
      PartTextsAre(parts[1..], asdict);
      assert CanonParts(parts, asdict)[1..] == CanonParts(parts[1..], asdict);
      assert PartTexts(parts, asdict) == [PartTexts(parts, asdict)[0]] + PartTexts(parts[1..], asdict);
    }
  }

  /** The text of a mapping, from the texts of its entries. */
  lemma MappingText(items: seq<(Key, Value)>, asdict: bool)
    ensures Dumps(Canon(Mapping(items), asdict)) == ObjectText(SortedDict(EntryTexts(items, asdict)))
  {
    EntryTextsAre(items, asdict);
    SortedDictText(CanonEntries(items, asdict));
  }

  // ---- Sets: sorting by text leaves the texts in one order, ties or not ----

  function Twice(texts: seq<string>): Pairs<string> {
    seq(|texts|, i requires 0 <= i < |texts| => (texts[i], texts[i]))
  }

  lemma {:induction false} ValuesText(xs: Pairs<Plain>)
    ensures DumpItems(Values(xs)) == Values(MapValues(Dumps, xs))
    decreases xs
  {
    if xs != [] {
      ValuesText(xs[1..]);
      assert MapValues(Dumps, xs)[1..] == MapValues(Dumps, xs[1..]);
      assert Values(xs)[1..] == Values(xs[1..]);
    }
  }

  lemma {:induction false} CanonHasUniqueKeys(v: Value, asdict: bool)
    ensures UniqueKeys(Canon(v, asdict))
    decreases v
  {
    match v
    case Leaf(_) =>
    case Enum(_) =>
    case Dataclass(fields) =>
      FieldsHaveUniqueKeys(fields);
      DictHasUniqueKeys(CanonFields(fields));
      SortedDictHasUniqueKeys(CanonFields(fields));
    case Mapping(items) =>
      EntriesHaveUniqueKeys(items, asdict);
      SortedDictHasUniqueKeys(CanonEntries(items, asdict));
    case Tuple(parts) => PartsHaveUniqueKeys(parts, asdict);
    case List(parts) => PartsHaveUniqueKeys(parts, asdict);
    case Set(elements) =>
      PartsHaveUniqueKeys(elements, false);
      SortedValuesAmong(CanonParts(elements, false));
  }

  lemma {:induction false} FieldsHaveUniqueKeys(fields: seq<(string, Value)>)
    ensures forall m :: m in CanonFields(fields) ==> UniqueKeys(m.1)
    decreases fields
  {
    if fields != [] {
      assert fields[0].1 < fields[0];
      CanonHasUniqueKeys(fields[0].1, true);
      FieldsHaveUniqueKeys(fields[1..]);
    }
  }

  lemma {:induction false} EntriesHaveUniqueKeys(items: seq<(Key, Value)>, asdict: bool)
    ensures forall m :: m in CanonEntries(items, asdict) ==> UniqueKeys(m.1)
    decreases items
  {
    if items != [] {
      assert items[0].1 < items[0];
      CanonHasUniqueKeys(items[0].1, asdict);
      EntriesHaveUniqueKeys(items[1..], asdict);
    }
  }

  lemma {:induction false} PartsHaveUniqueKeys(parts: seq<Value>, asdict: bool)
    ensures forall p :: p in CanonParts(parts, asdict) ==> UniqueKeys(p)
    decreases parts
  {
    if parts != [] {
      CanonHasUniqueKeys(parts[0], asdict);
      PartsHaveUniqueKeys(parts[1..], asdict);
    }
  }

  lemma {:induction false} LastIsMember<T>(xs: Pairs<T>, k: string)
    requires k in Keys(xs)
    ensures (k, Last(xs, k)) in xs
    decreases xs
  {
    if xs[|xs| - 1].0 != k {
      var front := xs[..|xs| - 1];
      var i :| 0 <= i < |xs| && xs[i].0 == k;
      assert front[i].0 == k;
      LastIsMember(front, k);
    }
  }

  lemma DictHasUniqueKeys(members: Pairs<Plain>)
    requires forall m :: m in members ==> UniqueKeys(m.1)
    ensures UniqueKeys(Obj(DictOf(members)))
  {
    DictHasLastValues(members);
    forall m | m in DictOf(members)
      ensures UniqueKeys(m.1)
    {
      LastIsMember(members, m.0);
    }
  }

  lemma SortedDictHasUniqueKeys(members: Pairs<Plain>)
    requires forall m :: m in members ==> UniqueKeys(m.1)
    ensures UniqueKeys(Obj(SortedDict(members)))
  {
    SortSorts(members);
    forall m | m in Sort(members)
      ensures m in members
    {
      assert m in multiset(Sort(members));
    }
    DictHasUniqueKeys(Sort(members));
  }

  lemma {:induction false} ValuesAre<T>(xs: Pairs<T>)
    ensures forall i :: 0 <= i < |xs| ==> Values(xs)[i] == xs[i].1
    decreases xs
  {
    if xs != [] {
      ValuesAre(xs[1..]);
    }
  }

  lemma SortedValuesAmong(items: seq<Plain>)
    ensures forall p :: p in Values(Sort(Keyed(items))) ==> p in items
  {
    var sorted := Sort(Keyed(items));
    SortSorts(Keyed(items));
    ValuesAre(sorted);
    forall i | 0 <= i < |sorted|
      ensures sorted[i].1 in items
    {
      assert sorted[i] in multiset(sorted);
    }
  }

  /** The text of a set, from the texts of its elements: the sort key is the text itself. */
  lemma SetText(elements: seq<Value>, asdict: bool)
    ensures Dumps(Canon(Set(elements), asdict)) == ArrayText(Values(Sort(Twice(PartTexts(elements, false)))))
  {
    var items := CanonParts(elements, false);
    PartTextsAre(elements, false);
    PartsHaveUniqueKeys(elements, false);
    DumpItemsAre(items);
    forall i | 0 <= i < |items|
      ensures MapValues(Dumps, Keyed(items))[i] == Twice(PartTexts(elements, false))[i]
    {
      PlainJsonIsDumps(items[i]);
    }
    assert MapValues(Dumps, Keyed(items)) == Twice(PartTexts(elements, false));
    MapSort(Dumps, Keyed(items));
    ValuesText(Sort(Keyed(items)));
  }

  lemma {:induction false} DumpItemsAre(items: seq<Plain>)
    ensures forall i :: 0 <= i < |items| ==> DumpItems(items)[i] == Dumps(items[i])
    decreases items
  {
    if items != [] {
      DumpItemsAre(items[1..]);
    }
  }

  lemma TwiceWithout(texts: seq<string>, i: nat)
    requires i < |texts|
    ensures Twice(Without(texts, i)) == Without(Twice(texts), i)
    ensures |Twice(texts)| == |texts| && Twice(texts)[i] == (texts[i], texts[i])
  {
  }

  lemma {:induction false} TwiceCounts(a: seq<string>, b: seq<string>)
    requires multiset(a) == multiset(b)
    ensures multiset(Twice(a)) == multiset(Twice(b))
    decreases a
  {
    if a == [] {
      assert |multiset(b)| == 0;
    } else {
      assert a[0] in multiset(b);
      var j :| 0 <= j < |b| && b[j] == a[0];
      WithoutCounts(a, 0);
      WithoutCounts(b, j);
      assert Without(a, 0) == a[1..];
      TwiceWithout(a, 0);
      TwiceWithout(b, j);
      hide *;
      assert multiset(a[1..]) == multiset(a) - multiset{a[0]};
      assert multiset(Without(b, j)) == multiset(b) - multiset{b[j]};
      TwiceCounts(a[1..], Without(b, j));
      WithoutCounts(Twice(a), 0);
      WithoutCounts(Twice(b), j);
    }
  }

  lemma PartTextsWithout(parts: seq<Value>, j: nat)
    requires j < |parts|
    ensures PartTexts(Without(parts, j), false) == Without(PartTexts(parts, false), j)
  {
  }

  lemma EntryTextsWithout(items: seq<(Key, Value)>, j: nat, asdict: bool)
    requires j < |items|
    ensures EntryTexts(Without(items, j), asdict) == Without(EntryTexts(items, asdict), j)
  {
  }

  // ---- The theorem ----

  lemma {:induction false} SameText(v: Value, w: Value, asdict: bool)
    requires SameUpToOrder(v, w) && Consistent(v, asdict)
    ensures Dumps(Canon(v, asdict)) == Dumps(Canon(w, asdict))
    decreases v
  {
    match v
    case Leaf(_) =>
    case Enum(_) =>
    case Dataclass(fields) => SameFieldTexts(fields, w.fields, asdict);
    case Mapping(items) => SameMappingText(items, w.items, asdict);
    case Tuple(parts) => SameListText(parts, w.parts, asdict);
    case List(parts) => SameListText(parts, w.parts, asdict);
    case Set(elements) => SameSetText(elements, w.elements, asdict);
  }

  lemma {:induction false} SameMappingText(a: seq<(Key, Value)>, b: seq<(Key, Value)>, asdict: bool)
    requires SameEntries(a, b) && ConsistentEntries(a, asdict)
    requires forall e :: e in a ==> Consistent(e.1, asdict)
    ensures Dumps(Canon(Mapping(a), asdict)) == Dumps(Canon(Mapping(b), asdict))
    decreases a, 1
  {
    SameEntryTexts(a, b, asdict);
    MappingText(a, asdict);
    MappingText(b, asdict);
    SortedDictIgnoresOrder(EntryTexts(a, asdict), EntryTexts(b, asdict));
  }

  lemma {:induction false} SameListText(a: seq<Value>, b: seq<Value>, asdict: bool)
    requires SameParts(a, b)
    requires forall part :: part in a ==> Consistent(part, asdict)
    ensures Dumps(Canon(List(a), asdict)) == Dumps(Canon(List(b), asdict))
    decreases a, 1
  {
    SamePartTexts(a, b, asdict);
    PartTextsAre(a, asdict);
    PartTextsAre(b, asdict);
  }

  lemma {:induction false} SameSetText(a: seq<Value>, b: seq<Value>, asdict: bool)
    requires SameElements(a, b)
    requires forall e :: e in a ==> Consistent(e, false)
    ensures Dumps(Canon(Set(a), asdict)) == Dumps(Canon(Set(b), asdict))
    decreases a, 1
  {
    SameElementTexts(a, b);
    SetText(a, asdict);
    SetText(b, asdict);
    TwiceCounts(PartTexts(a, false), PartTexts(b, false));
    SortIgnoresOrder(Twice(PartTexts(a, false)), Twice(PartTexts(b, false)));
  }

  lemma {:induction false} SameFieldDumps(a: seq<(string, Value)>, b: seq<(string, Value)>)
    requires SameFields(a, b)
    requires forall f :: f in a ==> Consistent(f.1, true)
    ensures DumpMembers(CanonFields(a)) == DumpMembers(CanonFields(b))
    decreases a, 0
  {
    if a != [] {
      assert a[0].1 < a[0];
      SameText(a[0].1, b[0].1, true);
      SameFieldDumps(a[1..], b[1..]);
      assert CanonFields(a)[1..] == CanonFields(a[1..]) && CanonFields(b)[1..] == CanonFields(b[1..]);
    }
  }

  lemma {:induction false} SameFieldTexts(a: seq<(string, Value)>, b: seq<(string, Value)>, asdict: bool)
    requires SameFields(a, b)
    requires forall f :: f in a ==> Consistent(f.1, true)
    ensures Dumps(Canon(Dataclass(a), asdict)) == Dumps(Canon(Dataclass(b), asdict))
    decreases a, 1
  {
    SameFieldDumps(a, b);
    if asdict {
      SortedDictText(CanonFields(a));
      SortedDictText(CanonFields(b));
    } else {
      DumpMembersMaps(CanonFields(a));
      DumpMembersMaps(CanonFields(b));
      DumpMembersMaps(DictOf(CanonFields(a)));
      DumpMembersMaps(DictOf(CanonFields(b)));
      MapDict(Dumps, CanonFields(a));
      MapDict(Dumps, CanonFields(b));
    }
  }

  lemma PartTextsCons(parts: seq<Value>, asdict: bool)
    requires parts != []
    ensures PartTexts(parts, asdict) == [Dumps(Canon(parts[0], asdict))] + PartTexts(parts[1..], asdict)
  {
    hide Dumps, Canon;
  }

  lemma {:induction false} SamePartTexts(a: seq<Value>, b: seq<Value>, asdict: bool)
    requires SameParts(a, b)
    requires forall part :: part in a ==> Consistent(part, asdict)
    ensures PartTexts(a, asdict) == PartTexts(b, asdict)
    decreases a, 0
  {
    if a != [] {
      SameText(a[0], b[0], asdict);
      SamePartTexts(a[1..], b[1..], asdict);
      PartTextsCons(a, asdict);
      PartTextsCons(b, asdict);
    }
  }

  lemma {:induction false} SameElementTexts(a: seq<Value>, b: seq<Value>)
    requires SameElements(a, b)
    requires forall e :: e in a ==> Consistent(e, false)
    ensures multiset(PartTexts(a, false)) == multiset(PartTexts(b, false))
    decreases a, 0
  {
    if a != [] {
      var j :| 0 <= j < |b| && SameUpToOrder(a[0], b[j]) && SameElements(a[1..], Without(b, j));
      SameText(a[0], b[j], false);
      SameElementTexts(a[1..], Without(b, j));
      PartTextsWithout(b, j);
      PartTextsWithout(a, 0);
      assert Without(a, 0) == a[1..];
      WithoutCounts(PartTexts(a, false), 0);
      WithoutCounts(PartTexts(b, false), j);
    }
  }

  lemma {:induction false} SameEntryTexts(a: seq<(Key, Value)>, b: seq<(Key, Value)>, asdict: bool)
    requires SameEntries(a, b)
    requires forall e :: e in a ==> Consistent(e.1, asdict)
    ensures multiset(EntryTexts(a, asdict)) == multiset(EntryTexts(b, asdict))
    decreases a, 0
  {
    if a != [] {
      assert a[0].1 < a[0];
      var j :| 0 <= j < |b| && a[0].0 == b[j].0 && SameUpToOrder(a[0].1, b[j].1) && SameEntries(a[1..], Without(b, j));
      SameText(a[0].1, b[j].1, asdict);
      SameEntryTexts(a[1..], Without(b, j), asdict);
      EntryTextsWithout(b, j, asdict);
      EntryTextsWithout(a, 0, asdict);
      assert Without(a, 0) == a[1..];
      hide SameUpToOrder, SameEntries, EntryTexts, Without, Consistent;
      WithoutCounts(EntryTexts(a, asdict), 0);
      WithoutCounts(EntryTexts(b, asdict), j);
    }
  }

  lemma SortIgnoresOrder(a: Pairs<string>, b: Pairs<string>)
    requires multiset(a) == multiset(b)
    requires forall x, y :: x in a && y in a && x.0 == y.0 ==> x == y
    ensures Sort(a) == Sort(b)
  {
    SortSorts(a);
    SortSorts(b);
    forall i | 0 <= i < |Sort(a)|
      ensures Sort(a)[i] in a
    {
      assert Sort(a)[i] in multiset(Sort(a));
    }
    SortedIsUnique(Sort(a), Sort(b));
  }

  lemma SortedDictIgnoresOrder(a: Pairs<string>, b: Pairs<string>)
    requires multiset(a) == multiset(b)
    requires forall i, j :: 0 <= i < |a| && 0 <= j < |a| && a[i].0 == a[j].0 ==> a[i] == a[j]
    ensures SortedDict(a) == SortedDict(b)
  {
    SortIgnoresOrder(a, b);
  }

  /** Two values that differ only by the order in which mappings and sets are iterated, at
      any depth, have the same canonical text and therefore the same digest. */
  lemma CanonicalTextIgnoresOrder<Digest>(v: Value, w: Value, digest: string -> Digest)
    requires SameUpToOrder(v, w) && Consistent(v, false)
    ensures CanonicalText(v) == CanonicalText(w)
    ensures digest(CanonicalText(v)) == digest(CanonicalText(w))
  {
    SameText(v, w, false);
  }

  /** canonical_json of a canonicalised value is canonical_json of the value. */
  lemma CanonicalTextOfCanonical(v: Value)
    ensures CanonicalText(Embed(Canon(v, false))) == CanonicalText(v)
  {
    EmbedIsPlain(Canon(v, false));
    CanonHasUniqueKeys(v, false);
    PlainJsonIsDumps(Canon(v, false));
  }
}
