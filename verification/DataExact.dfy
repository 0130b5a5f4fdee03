/** Which values have the same canonical text, said about the values and not about what
    canonicalising makes of them. */
module DataExact {
  import opened CanonicalJson
  import opened KeyedLists
  import opened OrderIndependence
  import opened Sequences
  import opened TextIsExact

  // ---- Values that carry the same data ----

  /** The entries of a record under their key text: the fields of a dataclass, the items of a
      mapping. */
  function Entries(v: Value): seq<(string, Value)> {
    match v
    case Dataclass(fields) => fields
    case Mapping(items) => seq(|items|, i requires 0 <= i < |items| => (items[i].0.text, items[i].1))
    case _ => []
  }

  predicate IsRecord(v: Value) {
    v.Dataclass? || v.Mapping?
  }

  /** Numbers are literals that json.dumps writes, and no two keys of one record have the same
      text, at any depth. */
  ghost predicate Clean(v: Value) {
    match v
    case Leaf(scalar) => scalar.Number? ==> IsNumber(scalar.literal)
    case Enum(member) => member.Number? ==> IsNumber(member.literal)
    case Dataclass(fields) =>
      DistinctKeys(fields) && forall f: (string, Value) :: f in fields ==> (assert f.1 < f; Clean(f.1))
    case Mapping(items) =>
      && DistinctKeys(Entries(v))
      && (forall e: (Key, Value) :: e in items ==> (assert e.1 < e; Clean(e.1)))
    case Tuple(parts) => forall part :: part in parts ==> Clean(part)
    case List(parts) => forall part :: part in parts ==> Clean(part)
    case Set(elements) => forall e :: e in elements ==> Clean(e)
  }

  ghost predicate Ascending(ws: seq<Value>) {
    forall i, j :: 0 <= i < j < |ws| ==> Le(CanonicalText(ws[i]), CanonicalText(ws[j]))
  }

  /** The items of `w` in the order of its array: as they stand, or, for a set, by text. */
  ghost predicate Listing(w: Value, ws: seq<Value>) {
    match w
    case Tuple(parts) => ws == parts
    case List(parts) => ws == parts
    case Set(elements) => multiset(ws) == multiset(elements) && Ascending(ws)
    case _ => false
  }

  /** The same data: an Enum is its scalar, a dataclass the mapping of its fields, a mapping
      has the same keys with the same data under them, tuples and lists agree item by item,
      sets up to order. A set is the same as the list of its elements by text. */
  ghost predicate SameData(v: Value, w: Value)
    decreases v
  {
    match v
    case Leaf(scalar) => w == Leaf(scalar) || w == Enum(scalar)
    case Enum(member) => w == Leaf(member) || w == Enum(member)
    case Dataclass(fields) =>
      && IsRecord(w) && |fields| == |Entries(w)|
      && (forall f: (string, Value) :: f in fields ==>
            (assert f.1 < f; exists e :: e in Entries(w) && e.0 == f.0 && SameData(f.1, e.1)))
    case Mapping(items) =>
      && IsRecord(w) && |items| == |Entries(w)|
      && (forall f: (Key, Value) :: f in items ==>
            (assert f.1 < f; exists e :: e in Entries(w) && e.0 == f.0.text && SameData(f.1, e.1)))
    case Tuple(parts) => exists ws :: Listing(w, ws) && SameItems(parts, ws)
    case List(parts) => exists ws :: Listing(w, ws) && SameItems(parts, ws)
    case Set(elements) => exists ws :: Listing(w, ws) && Ascending(ws) && Matched(elements, ws)
  }

  ghost predicate SameItems(a: seq<Value>, b: seq<Value>)
    decreases a
  {
    |a| == |b| && (a == [] || (SameData(a[0], b[0]) && SameItems(a[1..], b[1..])))
  }

  /** Some pairing of the two lists pairs values with the same data. */
  ghost predicate Matched(a: seq<Value>, b: seq<Value>)
    decreases a
  {
    |a| == |b| && (a == [] ||
      exists j :: 0 <= j < |b| && SameData(a[0], b[j]) && Matched(a[1..], Without(b, j)))
  }

  // ---- The text of a value from the texts of its parts ----

  function Texts(parts: seq<Value>): seq<string> {
    seq(|parts|, i requires 0 <= i < |parts| => CanonicalText(parts[i]))
  }

  function EntryTextsOf(entries: seq<(string, Value)>): Pairs<string> {
    seq(|entries|, i requires 0 <= i < |entries| => (entries[i].0, CanonicalText(entries[i].1)))
  }

  lemma {:induction false} FieldDumps(fields: seq<(string, Value)>)
    ensures |DumpMembers(CanonFields(fields))| == |fields|
    ensures forall i :: 0 <= i < |fields| ==>
              DumpMembers(CanonFields(fields))[i] == (fields[i].0, Dumps(Canon(fields[i].1, true)))
    decreases fields
  {
    if fields != [] {
      FieldDumps(fields[1..]);
      assert CanonFields(fields)[1..] == CanonFields(fields[1..]);
    }
  }

  /** Inside a dataclass or not, the text is the same. */
  lemma {:induction false} FlagIsInvisible(v: Value)
    requires Clean(v)
    ensures Dumps(Canon(v, true)) == CanonicalText(v)
    decreases v
  {
    match v
    case Leaf(_) =>
    case Enum(_) =>
    case Dataclass(fields) => DataclassFlag(fields);
    case Mapping(items) =>
      forall i | 0 <= i < |items|
        ensures Dumps(Canon(items[i].1, true)) == CanonicalText(items[i].1)
      {
        assert items[i] in items && items[i].1 < items[i];
        FlagIsInvisible(items[i].1);
      }
      MappingText(items, true);
      MappingText(items, false);
      assert EntryTexts(items, true) == EntryTexts(items, false);
    case Tuple(parts) => PartsFlag(parts);
    case List(parts) => PartsFlag(parts);
    case Set(_) =>
  }

  lemma {:induction false} PartsFlag(parts: seq<Value>)
    requires forall part :: part in parts ==> Clean(part)
    ensures Dumps(Canon(List(parts), true)) == CanonicalText(List(parts))
    ensures Dumps(Canon(Tuple(parts), true)) == CanonicalText(Tuple(parts))
    decreases parts, 1
  {
    forall i | 0 <= i < |parts|
      ensures Dumps(Canon(parts[i], true)) == CanonicalText(parts[i])
    {
      FlagIsInvisible(parts[i]);
    }
    PartTextsAre(parts, true);
    PartTextsAre(parts, false);
    assert PartTexts(parts, true) == PartTexts(parts, false);
  }

  lemma DataclassFlag(fields: seq<(string, Value)>)
    requires DistinctKeys(fields)
    ensures Dumps(Canon(Dataclass(fields), true)) == CanonicalText(Dataclass(fields))
    ensures CanonicalText(Dataclass(fields)) == ObjectText(SortedDict(DumpMembers(CanonFields(fields))))
  {
    var members := CanonFields(fields);
    DataclassKeys(fields);
    assert Dumps(Canon(Dataclass(fields), true)) == Dumps(Obj(SortedDict(members)));
    assert CanonicalText(Dataclass(fields)) == Dumps(Obj(DictOf(members)));
    assert Dumps(Obj(members)) == ObjectText(Sort(DumpMembers(members)));
    hide *;
    DictOfDistinct(members);
    SortedDictOfDistinct(DumpMembers(members));
    SortedDictText(members);
  }

  lemma DataclassKeys(fields: seq<(string, Value)>)
    requires DistinctKeys(fields)
    ensures DistinctKeys(CanonFields(fields)) && DistinctKeys(DumpMembers(CanonFields(fields)))
  {
    FieldDumps(fields);
    DumpMembersMaps(CanonFields(fields));
    hide Canon, Dumps, CanonFields, DumpMembers;
  }

  lemma RecordText(v: Value)
    requires Clean(v) && IsRecord(v)
    ensures CanonicalText(v) == ObjectText(SortedDict(EntryTextsOf(Entries(v))))
    ensures DistinctKeys(EntryTextsOf(Entries(v)))
  {
    match v
    case Dataclass(fields) =>
      assert forall f :: f in fields ==> Clean(f.1);
      hide Clean, CanonicalText, ObjectText, SortedDict, EntryTextsOf, CanonFields;
      DataclassFlag(fields);
      FieldTextsAre(fields);
      KeysStayDistinct(fields);
    case Mapping(items) =>
      hide Clean;
      MappingText(items, false);
      assert EntryTexts(items, false) == EntryTextsOf(Entries(v));
      KeysStayDistinct(Entries(v));
  }

  lemma KeysStayDistinct(entries: seq<(string, Value)>)
    requires DistinctKeys(entries)
    ensures DistinctKeys(EntryTextsOf(entries))
  {
    hide CanonicalText;
  }

  lemma FieldTextsAre(fields: seq<(string, Value)>)
    requires forall f :: f in fields ==> Clean(f.1)
    ensures DumpMembers(CanonFields(fields)) == EntryTextsOf(fields)
  {
    hide Clean;
    FieldDumps(fields);
    forall i | 0 <= i < |fields|
      ensures Dumps(Canon(fields[i].1, true)) == CanonicalText(fields[i].1)
    {
      assert fields[i] in fields;
      FlagIsInvisible(fields[i].1);
    }
    hide CanonicalText, Canon, Dumps;
  }

  lemma SequenceText(parts: seq<Value>)
    ensures CanonicalText(Tuple(parts)) == ArrayText(Texts(parts))
    ensures CanonicalText(List(parts)) == ArrayText(Texts(parts))
  {
    PartTextsAre(parts, false);
    assert PartTexts(parts, false) == Texts(parts);
  }

  // ---- Lists of texts, by order and without ----

  ghost predicate AscendingTexts(ts: seq<string>) {
    forall i, j :: 0 <= i < j < |ts| ==> Le(ts[i], ts[j])
  }

  function SortedTexts(ts: seq<string>): seq<string> {
    Values(Sort(Twice(ts)))
  }

  lemma {:induction false} TwiceCountsBack(a: seq<string>, b: seq<string>)
    requires multiset(Twice(a)) == multiset(Twice(b))
    ensures multiset(a) == multiset(b)
    decreases a
  {
    if a == [] {
      assert |multiset(Twice(b))| == 0;
    } else {
      assert Twice(a)[0] in multiset(Twice(b));
      var j :| 0 <= j < |Twice(b)| && Twice(b)[j] == Twice(a)[0];
      WithoutCounts(a, 0);
      WithoutCounts(b, j);
      WithoutCounts(Twice(a), 0);
      WithoutCounts(Twice(b), j);
      TwiceWithout(a, 0);
      TwiceWithout(b, j);
      assert Without(a, 0) == a[1..];
      hide *;
      assert multiset(Twice(a[1..])) == multiset(Twice(a)) - multiset{Twice(a)[0]};
      assert multiset(Twice(Without(b, j))) == multiset(Twice(b)) - multiset{Twice(b)[j]};
      TwiceCountsBack(a[1..], Without(b, j));
    }
  }

  /** Sorting texts gives the one ascending list with the same texts. */
  lemma SortedTextsAre(ts: seq<string>, us: seq<string>)
    ensures SortedTexts(ts) == us <==> AscendingTexts(us) && multiset(us) == multiset(ts)
  {
    var sorted := Sort(Twice(ts));
    SortSorts(Twice(ts));
    ValuesAre(sorted);
    if SortedTexts(ts) == us {
      forall i | 0 <= i < |sorted|
        ensures sorted[i] == Twice(us)[i]
      {
        assert sorted[i] in multiset(sorted);
        assert sorted[i] in Twice(ts);
      }
      assert sorted == Twice(us);
      TwiceCountsBack(us, ts);
    }
    if AscendingTexts(us) && multiset(us) == multiset(ts) {
      TwiceCounts(us, ts);
      SortedIsUnique(Twice(us), sorted);
    }
  }

  lemma SetTextIs(elements: seq<Value>)
    ensures CanonicalText(Set(elements)) == ArrayText(SortedTexts(Texts(elements)))
  {
    SetText(elements, false);
    assert PartTexts(elements, false) == Texts(elements);
  }

  /** The elements of a set by text, as one listing of it. */
  lemma {:induction false} TextsCount(a: seq<Value>, b: seq<Value>)
    requires multiset(a) == multiset(b)
    ensures multiset(Texts(a)) == multiset(Texts(b))
    decreases a
  {
    if a == [] {
      assert |multiset(b)| == 0;
    } else {
      assert a[0] in multiset(b);
      var j :| 0 <= j < |b| && b[j] == a[0];
      WithoutCounts(a, 0);
      WithoutCounts(b, j);
      assert Without(a, 0) == a[1..];
      TextsWithout(a, 0);
      TextsWithout(b, j);
      hide *;
      assert multiset(a[1..]) == multiset(a) - multiset{a[0]};
      assert multiset(Without(b, j)) == multiset(b) - multiset{b[j]};
      TextsCount(a[1..], Without(b, j));
      WithoutCounts(Texts(a), 0);
      WithoutCounts(Texts(b), j);
    }
  }

  lemma TextsWithout(parts: seq<Value>, j: nat)
    requires j < |parts|
    ensures Texts(Without(parts, j)) == Without(Texts(parts), j)
    ensures |Texts(parts)| == |parts| && Texts(parts)[j] == CanonicalText(parts[j])
  {
    hide CanonicalText;
  }

  lemma ListingText(w: Value, ws: seq<Value>)
    requires Listing(w, ws)
    ensures CanonicalText(w) == ArrayText(Texts(ws))
  {
    match w
    case Tuple(parts) => SequenceText(parts);
    case List(parts) => SequenceText(parts);
    case Set(elements) =>
      SetTextIs(elements);
      TextsCount(ws, elements);
      SortedTextsAre(Texts(elements), Texts(ws));
  }

  lemma ListingExists(w: Value) returns (ws: seq<Value>)
    requires !w.Leaf? && !w.Enum? && !IsRecord(w)
    ensures Listing(w, ws)
  {
    match w
    case Tuple(parts) => ws := parts;
    case List(parts) => ws := parts;
    case Set(elements) => ws := SetListing(elements);
  }

  function ByText(elements: seq<Value>): Pairs<Value> {
    seq(|elements|, i requires 0 <= i < |elements| => (CanonicalText(elements[i]), elements[i]))
  }

  lemma SetListing(elements: seq<Value>) returns (ws: seq<Value>)
    ensures multiset(ws) == multiset(elements) && Ascending(ws)
  {
    var sorted := Sort(ByText(elements));
    SortSorts(ByText(elements));
    ValuesAre(sorted);
    ValuesAre(ByText(elements));
    ws := Values(sorted);
    forall i | 0 <= i < |sorted|
      ensures sorted[i] == (CanonicalText(ws[i]), ws[i])
    {
      assert sorted[i] in multiset(sorted);
      assert sorted[i] in ByText(elements);
    }
    assert Values(ByText(elements)) == elements;
    hide Sort, CanonicalText, Le, ByText, Values;
    SecondsCount(sorted, ByText(elements));
    TextsAscend(sorted, ws);
  }

  lemma TextsAscend(sorted: Pairs<Value>, ws: seq<Value>)
    requires Sorted(sorted) && |ws| == |sorted|
    requires forall i :: 0 <= i < |sorted| ==> sorted[i] == (CanonicalText(ws[i]), ws[i])
    ensures Ascending(ws)
  {
    hide CanonicalText, Le;
  }

  lemma {:induction false} SecondsCount<T(!new)>(a: Pairs<T>, b: Pairs<T>)
    requires multiset(a) == multiset(b)
    ensures multiset(Values(a)) == multiset(Values(b))
    decreases a
  {
    if a == [] {
      assert |multiset(b)| == 0;
    } else {
      assert a[0] in multiset(b);
      var j :| 0 <= j < |b| && b[j] == a[0];
      WithoutCounts(a, 0);
      WithoutCounts(b, j);
      assert Without(a, 0) == a[1..];
      ValuesWithout(a, 0);
      ValuesWithout(b, j);
      hide *;
      assert multiset(a[1..]) == multiset(a) - multiset{a[0]};
      assert multiset(Without(b, j)) == multiset(b) - multiset{b[j]};
      SecondsCount(a[1..], Without(b, j));
      WithoutCounts(Values(a), 0);
      WithoutCounts(Values(b), j);
    }
  }

  lemma ValuesWithout<T>(xs: Pairs<T>, j: nat)
    requires j < |xs|
    ensures Values(Without(xs, j)) == Without(Values(xs), j)
    ensures |Values(xs)| == |xs| && Values(xs)[j] == xs[j].1
  {
    ValuesAre(xs);
    ValuesAre(Without(xs, j));
  }

  // ---- Arrays and objects can be read back from their texts ----

  ghost predicate IsDump(t: string) {
    exists p :: InOrder(p) && GoodNumbers(p) && t == Dumps(p)
  }

  ghost function PlainOf(t: string): (p: Plain)
    requires IsDump(t)
    ensures InOrder(p) && GoodNumbers(p) && t == Dumps(p)
  {
    var p :| InOrder(p) && GoodNumbers(p) && t == Dumps(p);
    p
  }

  ghost function PlainArray(ts: seq<string>): (p: Plain)
    requires forall t :: t in ts ==> IsDump(t)
    ensures p.Arr? && |p.items| == |ts| && forall i :: 0 <= i < |ts| ==> Dumps(p.items[i]) == ts[i]
    ensures InOrder(p) && GoodNumbers(p) && Dumps(p) == ArrayText(ts)
  {
    var items := seq(|ts|, i requires 0 <= i < |ts| => PlainOf(ts[i]));
    DumpItemsAre(items);
    assert DumpItems(items) == ts;
    Arr(items)
  }

  lemma ArrayIsExact(ts: seq<string>, us: seq<string>)
    requires (forall t :: t in ts ==> IsDump(t)) && (forall u :: u in us ==> IsDump(u))
    requires ArrayText(ts) == ArrayText(us)
    ensures ts == us
  {
    var p, q := PlainArray(ts), PlainArray(us);
    DumpsAreExact(p, q);
  }

  lemma DumpsAreExact(p: Plain, q: Plain)
    requires InOrder(p) && GoodNumbers(p) && InOrder(q) && GoodNumbers(q) && Dumps(p) == Dumps(q)
    ensures p == q
  {
    WriteIsDumps(p);
    WriteIsDumps(q);
    WriteIsExact(p, q, "", "");
  }

  ghost function PlainObject(pairs: Pairs<string>): (p: Plain)
    requires Sorted(pairs) && forall i :: 0 <= i < |pairs| ==> IsDump(pairs[i].1)
    ensures p.Obj? && |p.members| == |pairs|
    ensures forall i :: 0 <= i < |pairs| ==> (p.members[i].0, Dumps(p.members[i].1)) == pairs[i]
    ensures InOrder(p) && GoodNumbers(p) && Dumps(p) == ObjectText(pairs)
  {
    var members := seq(|pairs|, i requires 0 <= i < |pairs| => (pairs[i].0, PlainOf(pairs[i].1)));
    DumpMembersMaps(members);
    assert DumpMembers(members) == pairs;
    SortOfSorted(pairs);
    Obj(members)
  }

  lemma ObjectIsExact(a: Pairs<string>, b: Pairs<string>)
    requires Sorted(a) && forall i :: 0 <= i < |a| ==> IsDump(a[i].1)
    requires Sorted(b) && forall i :: 0 <= i < |b| ==> IsDump(b[i].1)
    requires ObjectText(a) == ObjectText(b)
    ensures a == b
  {
    var p, q := PlainObject(a), PlainObject(b);
    DumpsAreExact(p, q);
  }

  lemma {:induction false} TextIsDump(v: Value)
    requires Clean(v)
    ensures IsDump(CanonicalText(v))
    decreases v
  {
    match v
    case Leaf(scalar) => assert CanonicalText(v) == Dumps(Atom(scalar));
    case Enum(member) => assert CanonicalText(v) == Dumps(Atom(member));
    case Dataclass(fields) =>
      forall i | 0 <= i < |fields|
        ensures IsDump(CanonicalText(fields[i].1))
      {
        assert fields[i] in fields && fields[i].1 < fields[i];
        TextIsDump(fields[i].1);
      }
      RecordIsDump(v);
    case Mapping(items) =>
      forall i | 0 <= i < |items|
        ensures IsDump(CanonicalText(items[i].1))
      {
        assert items[i] in items && items[i].1 < items[i];
        TextIsDump(items[i].1);
      }
      RecordIsDump(v);
    case Tuple(parts) => PartsAreDumps(parts); SequenceIsDump(v, parts);
    case List(parts) => PartsAreDumps(parts); SequenceIsDump(v, parts);
    case Set(elements) =>
      PartsAreDumps(elements);
      var ws := ListingExists(v);
      forall i | 0 <= i < |ws|
        ensures ws[i] in elements
      {
        assert ws[i] in multiset(ws);
      }
      SequenceIsDump(v, ws);
  }

  lemma {:induction false} PartsAreDumps(parts: seq<Value>)
    requires forall part :: part in parts ==> Clean(part)
    ensures forall part :: part in parts ==> IsDump(CanonicalText(part))
    decreases parts, 0
  {
    forall part | part in parts
      ensures IsDump(CanonicalText(part))
    {
      TextIsDump(part);
    }
  }

  lemma SequenceIsDump(v: Value, ws: seq<Value>)
    requires Listing(v, ws) && forall w :: w in ws ==> IsDump(CanonicalText(w))
    ensures IsDump(CanonicalText(v))
  {
    ListingText(v, ws);
    var p := PlainArray(Texts(ws));
    assert InOrder(p) && GoodNumbers(p) && CanonicalText(v) == Dumps(p);
  }

  lemma SortedEntriesAreDumps(pairs: Pairs<string>)
    requires forall i :: 0 <= i < |pairs| ==> IsDump(pairs[i].1)
    ensures Sorted(SortedDict(pairs))
    ensures forall i :: 0 <= i < |SortedDict(pairs)| ==> IsDump(SortedDict(pairs)[i].1)
  {
    hide IsDump;
    SortedDictIs(pairs);
    forall i | 0 <= i < |SortedDict(pairs)|
      ensures IsDump(SortedDict(pairs)[i].1)
    {
      LastIsMember(pairs, SortedDict(pairs)[i].0);
    }
  }

  lemma RecordIsDump(v: Value)
    requires Clean(v) && IsRecord(v)
    requires forall i :: 0 <= i < |Entries(v)| ==> IsDump(CanonicalText(Entries(v)[i].1))
    ensures IsDump(CanonicalText(v))
  {
    RecordText(v);
    var pairs := EntryTextsOf(Entries(v));
    SortedEntriesAreDumps(pairs);
    var p := PlainObject(SortedDict(pairs));
    assert InOrder(p) && GoodNumbers(p) && CanonicalText(v) == Dumps(p);
  }

  // ---- Records ----

  lemma {:induction false} DistinctAmong<T(!new)>(a: seq<T>, b: seq<T>)
    requires Distinct(a) && |a| == |b| && forall x :: x in a ==> x in b
    ensures multiset(a) == multiset(b)
    decreases a
  {
    if a != [] {
      assert a[0] in a && a[0] in b;
      var j :| 0 <= j < |b| && b[j] == a[0];
      assert forall x :: x in a[1..] ==> x in b && x != b[j];
      assert Distinct(a[1..]);
      StillAmong(a[1..], b, j);
      WithoutCounts(a, 0);
      WithoutCounts(b, j);
      assert Without(a, 0) == a[1..] && |Without(b, j)| == |b| - 1;
      hide Distinct, Without;
      DistinctAmong(a[1..], Without(b, j));
    }
  }

  lemma StillAmong<T(!new)>(xs: seq<T>, ys: seq<T>, j: nat)
    requires j < |ys| && forall x :: x in xs ==> x in ys && x != ys[j]
    ensures forall x :: x in xs ==> x in Without(ys, j)
  {
    assert ys == ys[..j] + [ys[j]] + ys[j + 1..];
  }

  /** Dicts with distinct keys are equal when sorted exactly if they have the same entries. */
  lemma SameDictIff(a: Pairs<string>, b: Pairs<string>)
    requires DistinctKeys(a) && DistinctKeys(b)
    ensures SortedDict(a) == SortedDict(b) <==> |a| == |b| && forall i :: 0 <= i < |a| ==> a[i] in b
  {
    SortedDictOfDistinct(a);
    SortedDictOfDistinct(b);
    SortSorts(a);
    SortSorts(b);
    if SortedDict(a) == SortedDict(b) {
      assert multiset(a) == multiset(b);
      assert |a| == |multiset(a)| == |multiset(b)| == |b|;
      forall i | 0 <= i < |a|
        ensures a[i] in b
      {
        assert a[i] in multiset(a);
      }
    } else if |a| == |b| && forall i :: 0 <= i < |a| ==> a[i] in b {
      DistinctAmong(a, b);
      SortedDictIgnoresOrder(a, b);
    }
  }

  /** Some entry has this key text and the text of this value. */
  ghost predicate TextAmong(key: string, v: Value, es: seq<(string, Value)>) {
    exists e :: e in es && e.0 == key && CanonicalText(v) == CanonicalText(e.1)
  }

  /** Records have the same text exactly if they have as many entries, and to each entry there
      is one with the same key text and the same text. */
  lemma RecordsIff(v: Value, w: Value)
    requires Clean(v) && Clean(w) && IsRecord(v) && IsRecord(w)
    ensures CanonicalText(v) == CanonicalText(w) <==>
            && |Entries(v)| == |Entries(w)|
            && forall f :: f in Entries(v) ==> TextAmong(f.0, f.1, Entries(w))
  {
    hide *;
    var a, b := EntryTextsOf(Entries(v)), EntryTextsOf(Entries(w));
    RecordText(v);
    RecordText(w);
    RecordIsRead(v);
    RecordIsRead(w);
    if CanonicalText(v) == CanonicalText(w) {
      ObjectIsExact(SortedDict(a), SortedDict(b));
    }
    SameDictIff(a, b);
    EntryCount(Entries(v));
    EntryCount(Entries(w));
    SameEntriesIff(Entries(v), Entries(w));
  }

  lemma EntryCount(entries: seq<(string, Value)>)
    ensures |EntryTextsOf(entries)| == |entries|
  {
    hide CanonicalText;
  }

  lemma RecordIsRead(v: Value)
    requires Clean(v) && IsRecord(v)
    ensures var pairs := SortedDict(EntryTextsOf(Entries(v)));
            Sorted(pairs) && forall i :: 0 <= i < |pairs| ==> IsDump(pairs[i].1)
  {
    hide *;
    EntriesAreDumps(v);
    SortedEntriesAreDumps(EntryTextsOf(Entries(v)));
  }

  lemma EntryInOther(fs: seq<(string, Value)>, es: seq<(string, Value)>, i: nat)
    requires i < |fs|
    ensures EntryTextsOf(fs)[i] in EntryTextsOf(es) <==> TextAmong(fs[i].0, fs[i].1, es)
  {
    hide CanonicalText;
    var a, b := EntryTextsOf(fs), EntryTextsOf(es);
    if a[i] in b {
      var j :| 0 <= j < |b| && b[j] == a[i];
      assert es[j] in es;
    }
    if e :| e in es && e.0 == fs[i].0 && CanonicalText(fs[i].1) == CanonicalText(e.1) {
      var j :| 0 <= j < |es| && es[j] == e;
      assert b[j] == a[i];
    }
  }

  lemma SameEntriesIff(fs: seq<(string, Value)>, es: seq<(string, Value)>)
    ensures (forall i :: 0 <= i < |EntryTextsOf(fs)| ==> EntryTextsOf(fs)[i] in EntryTextsOf(es)) <==>
            forall f :: f in fs ==> TextAmong(f.0, f.1, es)
  {
    hide CanonicalText, TextAmong;
    var a, b := EntryTextsOf(fs), EntryTextsOf(es);
    forall i | 0 <= i < |fs|
      ensures a[i] in b <==> TextAmong(fs[i].0, fs[i].1, es)
    {
      EntryInOther(fs, es, i);
    }
    if forall i :: 0 <= i < |a| ==> a[i] in b {
      forall f | f in fs
        ensures TextAmong(f.0, f.1, es)
      {
        var i :| 0 <= i < |fs| && fs[i] == f;
        assert a[i] in b;
      }
    }
    if forall f :: f in fs ==> TextAmong(f.0, f.1, es) {
      forall i | 0 <= i < |a|
        ensures a[i] in b
      {
        assert fs[i] in fs;
      }
    }
  }

  lemma EntriesAreDumps(v: Value)
    requires Clean(v) && IsRecord(v)
    ensures forall e :: e in Entries(v) ==> Clean(e.1)
    ensures forall i :: 0 <= i < |EntryTextsOf(Entries(v))| ==> IsDump(EntryTextsOf(Entries(v))[i].1)
  {
    forall i | 0 <= i < |Entries(v)|
      ensures Clean(Entries(v)[i].1) && IsDump(CanonicalText(Entries(v)[i].1))
    {
      if v.Dataclass? {
        assert v.fields[i] in v.fields;
      } else {
        assert v.items[i] in v.items;
      }
      TextIsDump(Entries(v)[i].1);
    }
    hide IsDump, Clean, CanonicalText;
  }

  // ---- The theorem ----

  /** The first character tells objects, arrays and scalars apart. */
  lemma KindShows(v: Value)
    requires Clean(v)
    ensures CanonicalText(v) != ""
    ensures IsRecord(v) <==> CanonicalText(v)[0] == '{'
    ensures !v.Leaf? && !v.Enum? && !IsRecord(v) <==> CanonicalText(v)[0] == '['
  {
  }

  lemma ScalarsIff(a: Scalar, b: Scalar)
    requires Clean(Leaf(a)) && Clean(Leaf(b))
    ensures ScalarText(a) == ScalarText(b) <==> a == b
  {
    if ScalarText(a) == ScalarText(b) {
      WriteIsExact(Atom(a), Atom(b), "", "");
    }
  }

  lemma {:induction false} SameTextIff(v: Value, w: Value)
    requires Clean(v) && Clean(w)
    ensures SameData(v, w) <==> CanonicalText(v) == CanonicalText(w)
    decreases v
  {
    KindShows(v);
    KindShows(w);
    match v
    case Leaf(scalar) => ScalarTextIff(scalar, w);
    case Enum(member) => ScalarTextIff(member, w);
    case Dataclass(fields) =>
      if IsRecord(w) {
        RecordsIff(v, w);
        EntriesAreDumps(w);
        forall f, e | f in fields && e in Entries(w)
          ensures SameData(f.1, e.1) <==> CanonicalText(f.1) == CanonicalText(e.1)
        {
          assert f.1 < f;
          SameTextIff(f.1, e.1);
        }
        hide CanonicalText, Clean, IsRecord;
      }
    case Mapping(items) =>
      if IsRecord(w) {
        RecordsIff(v, w);
        EntriesAreDumps(w);
        forall f, e | f in items && e in Entries(w)
          ensures SameData(f.1, e.1) <==> CanonicalText(f.1) == CanonicalText(e.1)
        {
          assert f.1 < f;
          SameTextIff(f.1, e.1);
        }
        MappingEntriesIff(items, Entries(w));
        hide CanonicalText, Clean, IsRecord;
      }
    case Tuple(parts) => SequenceTextIff(v, parts, w);
    case List(parts) => SequenceTextIff(v, parts, w);
    case Set(elements) => SetTextIff(elements, w);
  }

  lemma MappingEntriesIff(items: seq<(Key, Value)>, es: seq<(string, Value)>)
    ensures (forall f :: f in Entries(Mapping(items)) ==> TextAmong(f.0, f.1, es)) <==>
            (forall f :: f in items ==> TextAmong(f.0.text, f.1, es))
  {
    hide TextAmong;
    var fs := Entries(Mapping(items));
    forall f | f in items
      ensures (f.0.text, f.1) in fs
    {
      var i :| 0 <= i < |items| && items[i] == f;
      assert fs[i] == (f.0.text, f.1);
    }
    forall g | g in fs
      ensures exists f :: f in items && g == (f.0.text, f.1)
    {
      var i :| 0 <= i < |fs| && fs[i] == g;
      assert items[i] in items;
    }
  }

  lemma ScalarTextIff(scalar: Scalar, w: Value)
    requires Clean(Leaf(scalar)) && Clean(w)
    ensures CanonicalText(w) == ScalarText(scalar) <==> w == Leaf(scalar) || w == Enum(scalar)
  {
    KindShows(Leaf(scalar));
    KindShows(w);
    match w
    case Leaf(other) => ScalarsIff(other, scalar);
    case Enum(other) => ScalarsIff(other, scalar);
    case _ =>
  }

  lemma {:induction false} SequenceTextIff(v: Value, parts: seq<Value>, w: Value)
    requires v == Tuple(parts) || v == List(parts)
    requires (forall part :: part in parts ==> Clean(part)) && Clean(w)
    ensures SameData(v, w) <==> CanonicalText(v) == CanonicalText(w)
    decreases parts, 1
  {
    SequenceText(parts);
    PartsAreDumps(parts);
    KindShows(v);
    KindShows(w);
    if !w.Leaf? && !w.Enum? && !IsRecord(w) {
      forall ws | Listing(w, ws)
        ensures SameItems(parts, ws) <==> CanonicalText(v) == CanonicalText(w)
      {
        ListingText(w, ws);
        ListingIsClean(w, ws);
        PartsAreDumps(ws);
        ItemsIff(parts, ws);
        hide *;
        if ArrayText(Texts(parts)) == ArrayText(Texts(ws)) {
          TextsAreDumps(parts);
          TextsAreDumps(ws);
          ArrayIsExact(Texts(parts), Texts(ws));
        }
      }
      var some := ListingExists(w);
    }
  }

  lemma TextsAreDumps(parts: seq<Value>)
    requires forall part :: part in parts ==> IsDump(CanonicalText(part))
    ensures forall t :: t in Texts(parts) ==> IsDump(t)
  {
    hide IsDump;
    forall t | t in Texts(parts)
      ensures IsDump(t)
    {
      var i :| 0 <= i < |Texts(parts)| && Texts(parts)[i] == t;
      assert parts[i] in parts;
    }
  }

  lemma ListingIsClean(w: Value, ws: seq<Value>)
    requires Clean(w) && Listing(w, ws)
    ensures forall x :: x in ws ==> Clean(x)
  {
    if w.Set? {
      forall x | x in ws
        ensures Clean(x)
      {
        assert x in multiset(ws);
        assert x in w.elements;
      }
    }
  }

  lemma {:induction false} ItemsIff(a: seq<Value>, b: seq<Value>)
    requires (forall x :: x in a ==> Clean(x)) && (forall x :: x in b ==> Clean(x))
    ensures SameItems(a, b) <==> Texts(a) == Texts(b)
    decreases a, 0
  {
    assert |Texts(a)| == |a| && |Texts(b)| == |b|;
    if |a| == |b| && a != [] {
      SameTextIff(a[0], b[0]);
      ItemsIff(a[1..], b[1..]);
      TextsCons(a);
      TextsCons(b);
      hide Texts, SameData, CanonicalText;
    }
  }

  lemma TextsCons(a: seq<Value>)
    requires a != []
    ensures Texts(a) == [CanonicalText(a[0])] + Texts(a[1..])
    ensures |Texts(a)| == |a| && Texts(a)[0] == CanonicalText(a[0]) && Texts(a)[1..] == Texts(a[1..])
  {
    hide CanonicalText;
  }

  lemma {:induction false} MatchedIff(a: seq<Value>, b: seq<Value>)
    requires (forall x :: x in a ==> Clean(x)) && (forall x :: x in b ==> Clean(x))
    ensures Matched(a, b) <==> multiset(Texts(a)) == multiset(Texts(b))
    decreases a, 0
  {
    assert |multiset(Texts(a))| == |a| && |multiset(Texts(b))| == |b|;
    if a == [] {
      assert Texts(a) == [];
      assert b == [] ==> Texts(b) == [];
    } else if |a| == |b| {
      forall j | 0 <= j < |b|
        ensures SameData(a[0], b[j]) && Matched(a[1..], Without(b, j)) <==>
                CanonicalText(a[0]) == CanonicalText(b[j]) && multiset(Texts(a)) == multiset(Texts(b))
      {
        SameTextIff(a[0], b[j]);
        assert forall x :: x in Without(b, j) ==> x in b;
        MatchedIff(a[1..], Without(b, j));
        CountsWithout(a, b, j);
      }
      if multiset(Texts(a)) == multiset(Texts(b)) {
        assert Texts(a)[0] in multiset(Texts(b));
        var j :| 0 <= j < |b| && Texts(b)[j] == Texts(a)[0];
        assert CanonicalText(a[0]) == CanonicalText(b[j]);
      }
    }
  }

  lemma CountsWithout(a: seq<Value>, b: seq<Value>, j: nat)
    requires a != [] && j < |b|
    ensures CanonicalText(a[0]) == CanonicalText(b[j]) ==>
              (multiset(Texts(a[1..])) == multiset(Texts(Without(b, j))) <==>
               multiset(Texts(a)) == multiset(Texts(b)))
  {
    TextsWithout(a, 0);
    TextsWithout(b, j);
    assert Without(a, 0) == a[1..];
    WithoutCounts(Texts(a), 0);
    WithoutCounts(Texts(b), j);
    hide *;
    var x := multiset{CanonicalText(b[j])};
    if CanonicalText(a[0]) == CanonicalText(b[j]) && multiset(Texts(a)) == multiset(Texts(b)) {
      assert multiset(Texts(a[1..])) == multiset(Texts(a)) - x;
      assert multiset(Texts(Without(b, j))) == multiset(Texts(b)) - x;
    }
  }

  lemma {:induction false} SetTextIff(elements: seq<Value>, w: Value)
    requires (forall e :: e in elements ==> Clean(e)) && Clean(w)
    ensures SameData(Set(elements), w) <==> CanonicalText(Set(elements)) == CanonicalText(w)
    decreases elements, 1
  {
    var v := Set(elements);
    KindShows(v);
    KindShows(w);
    if !w.Leaf? && !w.Enum? && !IsRecord(w) {
      forall ws | Listing(w, ws)
        ensures Ascending(ws) && Matched(elements, ws) <==> CanonicalText(v) == CanonicalText(w)
      {
        hide *;
        ListingText(w, ws);
        ListingIsClean(w, ws);
        MatchedIff(elements, ws);
        SetListingIff(elements, ws);
      }
      hide CanonicalText, Clean, Matched, Ascending, IsRecord;
      var some := ListingExists(w);
    }
  }

  lemma AscendingIff(ws: seq<Value>)
    ensures Ascending(ws) <==> AscendingTexts(Texts(ws))
  {
    hide CanonicalText, Le;
    var ts := Texts(ws);
    assert forall i :: 0 <= i < |ws| ==> ts[i] == CanonicalText(ws[i]);
    if AscendingTexts(ts) {
      forall i, j | 0 <= i < j < |ws|
        ensures Le(CanonicalText(ws[i]), CanonicalText(ws[j]))
      {
        assert Le(ts[i], ts[j]);
      }
    }
  }

  lemma SetListingIff(elements: seq<Value>, ws: seq<Value>)
    requires (forall e :: e in elements ==> Clean(e)) && (forall x :: x in ws ==> Clean(x))
    ensures CanonicalText(Set(elements)) == ArrayText(Texts(ws)) <==>
            Ascending(ws) && multiset(Texts(elements)) == multiset(Texts(ws))
  {
    hide *;
    AscendingIff(ws);
    SetTextIs(elements);
    SortedTextsAre(Texts(elements), Texts(ws));
    PartsAreDumps(elements);
    PartsAreDumps(ws);
    TextsAreDumps(elements);
    TextsAreDumps(ws);
    SortedTextsAmong(Texts(elements));
    if ArrayText(SortedTexts(Texts(elements))) == ArrayText(Texts(ws)) {
      ArrayIsExact(SortedTexts(Texts(elements)), Texts(ws));
    }
  }

  lemma SortedTextsAmong(ts: seq<string>)
    ensures forall t :: t in SortedTexts(ts) ==> t in ts
  {
    SortedTextsAre(ts, SortedTexts(ts));
    hide SortedTexts;
    forall t | t in SortedTexts(ts)
      ensures t in ts
    {
      assert t in multiset(SortedTexts(ts));
    }
  }

  /** Two values have one canonical text, and so one digest, if and only if they carry the same
      data. */
  lemma TextTellsData(v: Value, w: Value)
    requires Clean(v) && Clean(w)
    ensures CanonicalText(v) == CanonicalText(w) <==> SameData(v, w)
  {
    SameTextIff(v, w);
  }

  /** Sets have the same text exactly if their elements can be paired. */
  lemma SetsMatchUpToOrder(a: seq<Value>, b: seq<Value>)
    requires (forall x :: x in a ==> Clean(x)) && (forall x :: x in b ==> Clean(x))
    ensures CanonicalText(Set(a)) == CanonicalText(Set(b)) <==> Matched(a, b)
  {
    hide *;
    MatchedIff(a, b);
    SetTextIs(a);
    SetTextIs(b);
    SortedTextsAre(Texts(a), SortedTexts(Texts(a)));
    SortedTextsAre(Texts(b), SortedTexts(Texts(b)));
    SortedTextsAre(Texts(a), SortedTexts(Texts(b)));
    PartsAreDumps(a);
    PartsAreDumps(b);
    TextsAreDumps(a);
    TextsAreDumps(b);
    SortedTextsAmong(Texts(a));
    SortedTextsAmong(Texts(b));
    if CanonicalText(Set(a)) == CanonicalText(Set(b)) {
      ArrayIsExact(SortedTexts(Texts(a)), SortedTexts(Texts(b)));
    }
  }

  /** In particular the items of a tuple count. */
  lemma TupleItemsCount(a: seq<Value>, b: seq<Value>)
    requires (forall x :: x in a ==> Clean(x)) && (forall x :: x in b ==> Clean(x))
    ensures CanonicalText(Tuple(a)) == CanonicalText(Tuple(b)) <==> SameItems(a, b)
    ensures CanonicalText(Tuple(a)) == CanonicalText(List(b)) <==> SameItems(a, b)
  {
    assert forall ws :: Listing(Tuple(b), ws) <==> ws == b;
    assert forall ws :: Listing(List(b), ws) <==> ws == b;
    SequenceTextIff(Tuple(a), a, Tuple(b));
    SequenceTextIff(Tuple(a), a, List(b));
  }

  /** How texts are put together: the literals of RFC 8259, and separators without spaces. */
  lemma ScalarsLookLike(a: string)
    ensures CanonicalText(Leaf(Null)) == "null"
    ensures CanonicalText(Leaf(Bool(true))) == "true" && CanonicalText(Leaf(Bool(false))) == "false"
    ensures CanonicalText(Leaf(Number(a))) == a
    ensures CanonicalText(Leaf(Text(a))) == "\"" + EscapeAll(a) + "\""
  {
  }

  lemma ArraysLookLike(a: string, b: string)
    ensures ArrayText([]) == "[]" && ArrayText([a]) == "[" + a + "]" && ArrayText([a, b]) == "[" + (a + "," + b) + "]"
  {
    JoinTwo(a, b);
    hide Join;
  }

  lemma ObjectsLookLike(k: string, a: string, l: string, b: string)
    ensures ObjectText([]) == "{}" && ObjectText([(k, a)]) == "{" + (Quote(k) + ":" + a) + "}"
    ensures ObjectText([(k, a), (l, b)]) == "{" + ((Quote(k) + ":" + a) + "," + (Quote(l) + ":" + b)) + "}"
  {
    hide Quote;
    JoinTwo(MemberText((k, a)), MemberText((l, b)));
    ObjectTextIs([]);
    ObjectTextIs([(k, a)]);
    ObjectTextIs([(k, a), (l, b)]);
    hide Join, ObjectText;
  }

  lemma JoinTwo(a: string, b: string)
    ensures Join([]) == "" && Join([a]) == a && Join([a, b]) == a + "," + b
  {
    assert [a, b][1..] == [b];
  }

  lemma ObjectTextIs(members: Pairs<string>)
    ensures |members| == 0 ==> ObjectText(members) == "{" + Join([]) + "}"
    ensures |members| == 1 ==> ObjectText(members) == "{" + Join([MemberText(members[0])]) + "}"
    ensures |members| == 2 ==>
              ObjectText(members) == "{" + Join([MemberText(members[0]), MemberText(members[1])]) + "}"
  {
    hide MemberText, Join;
    var texts := seq(|members|, i requires 0 <= i < |members| => MemberText(members[i]));
    assert |members| == 0 ==> texts == [];
    assert |members| == 1 ==> texts == [MemberText(members[0])];
    assert |members| == 2 ==> texts == [MemberText(members[0]), MemberText(members[1])];
  }
}
