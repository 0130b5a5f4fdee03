/** Where the order does show: two entries of one mapping whose keys `str` makes equal. */
module OrderDependence {
  import opened CanonicalJson
  import opened KeyedLists
  import opened OrderIndependence

  // ---- Any rearrangement is a reordering ----

  lemma {:induction false} SameAsItself(v: Value)
    ensures SameUpToOrder(v, v)
    decreases v
  {
    match v
    case Leaf(_) =>
    case Enum(_) =>
    case Dataclass(fields) => FieldsSameAsThemselves(fields);
    case Mapping(items) => RearrangedEntries(items, items);
    case Tuple(parts) => PartsSameAsThemselves(parts);
    case List(parts) => PartsSameAsThemselves(parts);
    case Set(elements) => ElementsSameAsThemselves(elements);
  }

  lemma {:induction false} FieldsSameAsThemselves(fields: seq<(string, Value)>)
    ensures SameFields(fields, fields)
    decreases fields
  {
    if fields != [] {
      assert fields[0].1 < fields[0];
      SameAsItself(fields[0].1);
      FieldsSameAsThemselves(fields[1..]);
    }
  }

  lemma {:induction false} PartsSameAsThemselves(parts: seq<Value>)
    ensures SameParts(parts, parts)
    decreases parts
  {
    if parts != [] {
      SameAsItself(parts[0]);
      PartsSameAsThemselves(parts[1..]);
    }
  }

  lemma {:induction false} ElementsSameAsThemselves(elements: seq<Value>)
    ensures SameElements(elements, elements)
    decreases elements
  {
    if elements != [] {
      SameAsItself(elements[0]);
      ElementsSameAsThemselves(elements[1..]);
      assert Without(elements, 0) == elements[1..];
    }
  }

  lemma {:induction false} RearrangedEntries(a: seq<(Key, Value)>, b: seq<(Key, Value)>)
    requires multiset(a) == multiset(b)
    ensures SameEntries(a, b)
    decreases a
  {
    assert |a| == |multiset(a)| == |multiset(b)| == |b|;
    if a != [] {
      assert a[0].1 < a[0];
      assert a[0] in multiset(b);
      var j :| 0 <= j < |b| && b[j] == a[0];
      WithoutCounts(a, 0);
      WithoutCounts(b, j);
      assert Without(a, 0) == a[1..];
      assert multiset(a[1..]) == multiset(a) - multiset{a[0]};
      assert multiset(Without(b, j)) == multiset(b) - multiset{b[j]};
      RearrangedEntries(a[1..], Without(b, j));
      SameAsItself(a[0].1);
    }
  }

  // ---- One member's text shows in the text of the object ----

  lemma {:induction false} JoinShows(a: seq<string>, b: seq<string>, m: nat)
    requires |a| == |b| && m < |a|
    requires forall i :: 0 <= i < |a| && i != m ==> a[i] == b[i]
    requires Join(a) == Join(b)
    ensures a[m] == b[m]
    decreases a
  {
    if |a| == 1 {
    } else if m == 0 {
      assert a[1..] == b[1..];
      var tail := "," + Join(a[1..]);
      assert Join(a) == a[0] + tail && Join(b) == b[0] + tail;
      assert |a[0]| == |b[0]|;
      assert a[0] == Join(a)[..|a[0]|] && b[0] == Join(b)[..|b[0]|];
    } else {
      var head := a[0] + ",";
      assert Join(a) == head + Join(a[1..]) && Join(b) == head + Join(b[1..]);
      assert Join(a[1..]) == Join(a)[|head|..] && Join(b[1..]) == Join(b)[|head|..];
      JoinShows(a[1..], b[1..], m - 1);
    }
  }

  lemma ObjectShows(a: Pairs<string>, b: Pairs<string>, m: nat)
    requires |a| == |b| && m < |a| && a[m].0 == b[m].0
    requires forall i :: 0 <= i < |a| && i != m ==> a[i] == b[i]
    requires ObjectText(a) == ObjectText(b)
    ensures a[m].1 == b[m].1
  {
    var x := seq(|a|, i requires 0 <= i < |a| => MemberText(a[i]));
    var y := seq(|b|, i requires 0 <= i < |b| => MemberText(b[i]));
    assert Join(x) == ObjectText(a)[1..|ObjectText(a)| - 1];
    assert Join(y) == ObjectText(b)[1..|ObjectText(b)| - 1];
    JoinShows(x, y, m);
    var head := Quote(a[m].0) + ":";
    assert x[m] == head + a[m].1 && y[m] == head + b[m].1;
    assert a[m].1 == x[m][|head|..] && b[m].1 == y[m][|head|..];
  }

  lemma LastOfTwo(rest: Pairs<string>, k: string, s: string, t: string)
    ensures Keys(rest + [(k, s), (k, t)]) == Keys(rest) + {k}
    ensures forall key :: key in Keys(rest) + {k} ==>
              Last(rest + [(k, s), (k, t)], key) == if key == k then t else Last(rest, key)
  {
    var one := rest + [(k, s)];
    var two := rest + [(k, s), (k, t)];
    assert two == one + [(k, t)];
    KeysAppend(rest, (k, s));
    KeysAppend(one, (k, t));
    assert two[..|two| - 1] == one && one[..|one| - 1] == rest;
  }

  /** Whichever of two entries with equal key text comes last decides the text. */
  lemma LastEntryShows(rest: Pairs<string>, k: string, s: string, t: string)
    requires ObjectText(SortedDict(rest + [(k, s), (k, t)])) == ObjectText(SortedDict(rest + [(k, t), (k, s)]))
    ensures s == t
  {
    var a, b := SortedDict(rest + [(k, s), (k, t)]), SortedDict(rest + [(k, t), (k, s)]);
    LastOfTwo(rest, k, s, t);
    LastOfTwo(rest, k, t, s);
    SortedDictIs(rest + [(k, s), (k, t)]);
    SortedDictIs(rest + [(k, t), (k, s)]);
    SameKeysSameOrder(a, b);
    assert k in Keys(a);
    var m :| 0 <= m < |a| && a[m].0 == k;
    forall i | 0 <= i < |a| && i != m
      ensures a[i] == b[i]
    {
      assert a[i].0 != k;
    }
    ObjectShows(a, b, m);
  }

  lemma EntryTextsOfTwo(rest: seq<(Key, Value)>, x: (Key, Value), y: (Key, Value), asdict: bool)
    ensures EntryTexts(rest + [x, y], asdict) == EntryTexts(rest, asdict) +
              [(x.0.text, Dumps(Canon(x.1, asdict))), (y.0.text, Dumps(Canon(y.1, asdict)))]
  {
  }

  /** The exact condition for one mapping of consistent values: every rearrangement of its
      entries gives the same text if and only if entries whose keys have equal text have
      values with equal text. */
  lemma OrderShowsIffKeysClash(items: seq<(Key, Value)>, asdict: bool)
    requires forall e :: e in items ==> Consistent(e.1, asdict)
    ensures ConsistentEntries(items, asdict) <==>
            forall others :: SameEntries(items, others) ==>
              Dumps(Canon(Mapping(others), asdict)) == Dumps(Canon(Mapping(items), asdict))
  {
    if ConsistentEntries(items, asdict) {
      forall others | SameEntries(items, others)
        ensures Dumps(Canon(Mapping(others), asdict)) == Dumps(Canon(Mapping(items), asdict))
      {
        SameMappingText(items, others, asdict);
      }
    } else {
      var i, j :| 0 <= i < |items| && 0 <= j < |items| && items[i].0.text == items[j].0.text &&
        Dumps(Canon(items[i].1, asdict)) != Dumps(Canon(items[j].1, asdict));
      ClashShows(items, if i < j then i else j, if i < j then j else i, asdict);
    }
  }

  lemma ClashShows(items: seq<(Key, Value)>, i: nat, j: nat, asdict: bool)
    requires i < j < |items| && items[i].0.text == items[j].0.text
    requires Dumps(Canon(items[i].1, asdict)) != Dumps(Canon(items[j].1, asdict))
    ensures exists others :: SameEntries(items, others) &&
              Dumps(Canon(Mapping(others), asdict)) != Dumps(Canon(Mapping(items), asdict))
  {
    hide *;
    var x, y := items[i], items[j];
    var rest := PulledOut(items, i, j);
    RearrangedEntries(items, rest + [x, y]);
    RearrangedEntries(items, rest + [y, x]);
    SwapShows(rest, x, y, asdict);
  }

  /** The entries other than `i` and `j`. */
  lemma PulledOut(items: seq<(Key, Value)>, i: nat, j: nat) returns (rest: seq<(Key, Value)>)
    requires i < j < |items|
    ensures multiset(items) == multiset(rest + [items[i], items[j]]) == multiset(rest + [items[j], items[i]])
  {
    rest := items[..i] + items[i + 1..j] + items[j + 1..];
    assert items == items[..i] + [items[i]] + items[i + 1..j] + [items[j]] + items[j + 1..];
  }

  lemma SwapShows(rest: seq<(Key, Value)>, x: (Key, Value), y: (Key, Value), asdict: bool)
    requires x.0.text == y.0.text
    requires Dumps(Canon(x.1, asdict)) != Dumps(Canon(y.1, asdict))
    ensures Dumps(Canon(Mapping(rest + [x, y]), asdict)) != Dumps(Canon(Mapping(rest + [y, x]), asdict))
  {
    MappingText(rest + [x, y], asdict);
    MappingText(rest + [y, x], asdict);
    EntryTextsOfTwo(rest, x, y, asdict);
    EntryTextsOfTwo(rest, y, x, asdict);
    hide Canon, Dumps, EntryTexts, SortedDict, ObjectText;
    if Dumps(Canon(Mapping(rest + [x, y]), asdict)) == Dumps(Canon(Mapping(rest + [y, x]), asdict)) {
      LastEntryShows(EntryTexts(rest, asdict), x.0.text, Dumps(Canon(x.1, asdict)), Dumps(Canon(y.1, asdict)));
    }
  }
}
