/** The canonical text loses nothing: equal text means equal canonical data. */
module TextIsExact {
  import opened CanonicalJson
  import opened KeyedLists
  import opened OrderIndependence

  predicate Closes(c: char) {
    c == ',' || c == ']' || c == '}'
  }

  /** What may follow a value: nothing, or a character that closes it. */
  predicate Follows(rest: string) {
    rest == "" || Closes(rest[0])
  }

  /** True of every literal that json.dumps writes for an int or a float. */
  predicate IsNumber(literal: string) {
    && literal != ""
    && literal[0] !in "{[\"ntf"
    && forall i :: 0 <= i < |literal| ==> !Closes(literal[i])
  }

  predicate GoodNumbers(p: Plain) {
    match p
    case Atom(scalar) => scalar.Number? ==> IsNumber(scalar.literal)
    case Obj(members) => forall m: (string, Plain) :: m in members ==> (assert m.1 < m; GoodNumbers(m.1))
    case Arr(items) => forall item :: item in items ==> GoodNumbers(item)
  }

  // ---- The same text, written so that it can be read from the left ----

  function Write(p: Plain): string {
    match p
    case Atom(scalar) => ScalarText(scalar)
    case Obj(members) => "{" + WriteMembers(members, true)
    case Arr(items) => "[" + WriteItems(items, true)
  }

  function WriteMembers(members: Pairs<Plain>, first: bool): string {
    if members == [] then "}"
    else
      assert members[0].1 < members[0];
      (if first then "" else ",") +
      (Quote(members[0].0) + (":" + (Write(members[0].1) + WriteMembers(members[1..], false))))
  }

  function WriteItems(items: seq<Plain>, first: bool): string {
    if items == [] then "]"
    else (if first then "" else ",") + (Write(items[0]) + WriteItems(items[1..], false))
  }

  function Joined(parts: seq<string>, first: bool): string {
    if parts == [] then "" else (if first then "" else ",") + parts[0] + Joined(parts[1..], false)
  }

  lemma {:induction false} JoinedIsJoin(parts: seq<string>)
    ensures Joined(parts, true) == Join(parts)
    ensures parts != [] ==> Joined(parts, false) == "," + Join(parts)
    decreases parts
  {
    if |parts| > 1 {
      JoinedIsJoin(parts[1..]);
    } else if |parts| == 1 {
      assert Joined(parts[1..], false) == "";
    }
  }

  // ---- Reading back ----

  /** Cancelling a common prefix. */
  lemma Cancel(head: string, a: string, b: string)
    requires head + a == head + b
    ensures a == b
  {
    assert a == (head + a)[|head|..] && b == (head + b)[|head|..];
  }

  lemma HexDigitIsExact(m: nat, n: nat)
    requires m < 16 && n < 16 && HexDigit(m) == HexDigit(n)
    ensures m == n
  {
  }

  lemma EscapeIsExact(c: char, d: char, s: string, t: string)
    requires Escape(c) + s == Escape(d) + t
    ensures c == d && s == t
  {
    var a, b := Escape(c) + s, Escape(d) + t;
    assert a[0] == Escape(c)[0] && b[0] == Escape(d)[0];
    if a[0] == '\\' {
      assert a[1] == Escape(c)[1] && b[1] == Escape(d)[1];
      if a[1] == 'u' {
        assert a[4] == Escape(c)[4] && b[4] == Escape(d)[4];
        assert a[5] == Escape(c)[5] && b[5] == Escape(d)[5];
        HexDigitIsExact(c as int / 16, d as int / 16);
        HexDigitIsExact(c as int % 16, d as int % 16);
      }
    }
    assert c == d;
    Cancel(Escape(c), s, t);
  }

  lemma QuoteOrNot(x: string, s: string)
    ensures (EscapeAll(x) + ("\"" + s))[0] == '\"' <==> x == ""
  {
    if x != "" {
      assert (EscapeAll(x) + ("\"" + s))[0] == Escape(x[0])[0];
    }
  }

  lemma {:induction false} QuotedIsExact(x: string, y: string, s: string, t: string)
    requires EscapeAll(x) + ("\"" + s) == EscapeAll(y) + ("\"" + t)
    ensures x == y && s == t
    decreases x
  {
    QuoteOrNot(x, s);
    QuoteOrNot(y, t);
    hide Escape;
    assert x == "" <==> y == "";
    if x == "" {
      assert EscapeAll(x) + ("\"" + s) == "\"" + s;
      assert EscapeAll(y) + ("\"" + t) == "\"" + t;
      Cancel("\"", s, t);
    } else {
      EscapeSplits(x, "\"" + s);
      EscapeSplits(y, "\"" + t);
      EscapeIsExact(x[0], y[0], EscapeAll(x[1..]) + ("\"" + s), EscapeAll(y[1..]) + ("\"" + t));
      QuotedIsExact(x[1..], y[1..], s, t);
      assert x == [x[0]] + x[1..] && y == [y[0]] + y[1..];
    }
  }

  lemma EscapeSplits(x: string, s: string)
    requires x != ""
    ensures EscapeAll(x) + s == Escape(x[0]) + (EscapeAll(x[1..]) + s)
  {
  }

  lemma QuoteOpens(x: string, s: string)
    ensures Quote(x) + s == "\"" + (EscapeAll(x) + ("\"" + s))
  {
    hide EscapeAll;
  }

  lemma QuoteIsExact(x: string, y: string, s: string, t: string)
    requires Quote(x) + s == Quote(y) + t
    ensures x == y && s == t
  {
    hide *;
    QuoteOpens(x, s);
    QuoteOpens(y, t);
    Cancel("\"", EscapeAll(x) + ("\"" + s), EscapeAll(y) + ("\"" + t));
    QuotedIsExact(x, y, s, t);
  }

  lemma NumberIsExact(x: string, y: string, s: string, t: string)
    requires IsNumber(x) && IsNumber(y) && Follows(s) && Follows(t) && x + s == y + t
    ensures x == y && s == t
  {
    FirstClosingAfter(x, s);
    FirstClosingAfter(y, t);
    assert x == (x + s)[..|x|] && y == (y + t)[..|y|];
    Cancel(x, s, t);
  }

  function FirstClosing(s: string): nat {
    if s == "" || Closes(s[0]) then 0 else 1 + FirstClosing(s[1..])
  }

  lemma {:induction false} FirstClosingAfter(x: string, s: string)
    requires Follows(s) && forall i :: 0 <= i < |x| ==> !Closes(x[i])
    ensures FirstClosing(x + s) == |x|
    decreases x
  {
    if x == "" {
      assert x + s == s;
    } else {
      assert (x + s)[1..] == x[1..] + s;
      FirstClosingAfter(x[1..], s);
    }
  }

  /** The first character tells what kind of value follows; none closes anything. */
  function Kind(p: Plain): char {
    match p
    case Obj(_) => '{'
    case Arr(_) => '['
    case Atom(scalar) =>
      match scalar
      case Text(_) => '\"'
      case Null => 'n'
      case Bool(value) => if value then 't' else 'f'
      case Number(_) => '0'
  }

  lemma FirstCharacter(p: Plain, rest: string)
    requires GoodNumbers(p)
    ensures Write(p) != "" && (Write(p) + rest)[0] == Write(p)[0]
    ensures if Kind(p) == '0' then Write(p)[0] !in "{[\"ntf" else Write(p)[0] == Kind(p)
    ensures !Closes(Write(p)[0])
  {
  }

  lemma ScalarIsExact(a: Scalar, b: Scalar, s: string, t: string)
    requires Kind(Atom(a)) == Kind(Atom(b))
    requires GoodNumbers(Atom(a)) && GoodNumbers(Atom(b)) && Follows(s) && Follows(t)
    requires ScalarText(a) + s == ScalarText(b) + t
    ensures a == b && s == t
  {
    match a
    case Text(chars) => QuoteIsExact(chars, b.chars, s, t);
    case Number(literal) => NumberIsExact(literal, b.literal, s, t);
    case _ => Cancel(ScalarText(a), s, t);
  }

  lemma {:induction false} WriteIsExact(a: Plain, b: Plain, s: string, t: string)
    requires GoodNumbers(a) && GoodNumbers(b) && Follows(s) && Follows(t)
    requires Write(a) + s == Write(b) + t
    ensures a == b && s == t
    decreases a
  {
    SameKind(a, b, s, t);
    match a
    case Atom(scalar) => ScalarIsExact(scalar, b.scalar, s, t);
    case Obj(members) =>
      ObjectOpens(members, s);
      ObjectOpens(b.members, t);
      Cancel("{", WriteMembers(members, true) + s, WriteMembers(b.members, true) + t);
      MembersAreExact(members, b.members, true, s, t);
    case Arr(items) =>
      ArrayOpens(items, s);
      ArrayOpens(b.items, t);
      Cancel("[", WriteItems(items, true) + s, WriteItems(b.items, true) + t);
      ItemsAreExact(items, b.items, true, s, t);
  }

  lemma SameKind(a: Plain, b: Plain, s: string, t: string)
    requires GoodNumbers(a) && GoodNumbers(b) && Write(a) + s == Write(b) + t
    ensures Kind(a) == Kind(b)
  {
    FirstCharacter(a, s);
    FirstCharacter(b, t);
  }

  lemma ObjectOpens(members: Pairs<Plain>, s: string)
    ensures Write(Obj(members)) + s == "{" + (WriteMembers(members, true) + s)
  {
  }

  lemma ArrayOpens(items: seq<Plain>, s: string)
    ensures Write(Arr(items)) + s == "[" + (WriteItems(items, true) + s)
  {
  }

  /** What stands after the first item: it closes that item. */
  lemma RestFollows(items: seq<Plain>, s: string)
    ensures Follows(WriteItems(items, false) + s)
    ensures items == [] <==> (WriteItems(items, false) + s)[0] == ']'
  {
  }

  lemma {:induction false} ItemsAreExact(a: seq<Plain>, b: seq<Plain>, first: bool, s: string, t: string)
    requires forall item :: item in a ==> GoodNumbers(item)
    requires forall item :: item in b ==> GoodNumbers(item)
    requires WriteItems(a, first) + s == WriteItems(b, first) + t
    ensures a == b && s == t
    decreases a
  {
    EmptyTogether(a, b, first, s, t);
    if a == [] {
      Cancel("]", s, t);
    } else {
      var comma := if first then "" else ",";
      var restA, restB := WriteItems(a[1..], false) + s, WriteItems(b[1..], false) + t;
      assert WriteItems(a, first) + s == comma + (Write(a[0]) + restA);
      assert WriteItems(b, first) + t == comma + (Write(b[0]) + restB);
      Cancel(comma, Write(a[0]) + restA, Write(b[0]) + restB);
      RestFollows(a[1..], s);
      RestFollows(b[1..], t);
      WriteIsExact(a[0], b[0], restA, restB);
      ItemsAreExact(a[1..], b[1..], false, s, t);
      assert a == [a[0]] + a[1..] && b == [b[0]] + b[1..];
    }
  }

  lemma EmptyTogether(a: seq<Plain>, b: seq<Plain>, first: bool, s: string, t: string)
    requires forall item :: item in a ==> GoodNumbers(item)
    requires forall item :: item in b ==> GoodNumbers(item)
    requires WriteItems(a, first) + s == WriteItems(b, first) + t
    ensures a == [] <==> b == []
  {
    NotClosing(a, first, s);
    NotClosing(b, first, t);
  }

  lemma NotClosing(a: seq<Plain>, first: bool, s: string)
    requires forall item :: item in a ==> GoodNumbers(item)
    ensures WriteItems(a, first) + s != ""
    ensures (WriteItems(a, first) + s)[0] == ']' <==> a == []
  {
    if a != [] {
      FirstCharacter(a[0], WriteItems(a[1..], false) + s);
      if first {
        assert WriteItems(a, first) + s == Write(a[0]) + (WriteItems(a[1..], false) + s);
      }
    }
  }

  lemma MemberFollows(members: Pairs<Plain>, s: string)
    ensures Follows(WriteMembers(members, false) + s)
  {
  }

  lemma {:induction false} MembersAreExact(a: Pairs<Plain>, b: Pairs<Plain>, first: bool, s: string, t: string)
    requires forall m :: m in a ==> GoodNumbers(m.1)
    requires forall m :: m in b ==> GoodNumbers(m.1)
    requires WriteMembers(a, first) + s == WriteMembers(b, first) + t
    ensures a == b && s == t
    decreases a
  {
    MemberOpens(a, first, s);
    MemberOpens(b, first, t);
    if a == [] {
      Cancel("}", s, t);
    } else {
      assert a[0].1 < a[0];
      var restA, restB := WriteMembers(a[1..], false) + s, WriteMembers(b[1..], false) + t;
      var comma := if first then "" else ",";
      Cancel(comma, Quote(a[0].0) + (":" + (Write(a[0].1) + restA)), Quote(b[0].0) + (":" + (Write(b[0].1) + restB)));
      QuoteIsExact(a[0].0, b[0].0, ":" + (Write(a[0].1) + restA), ":" + (Write(b[0].1) + restB));
      Cancel(":", Write(a[0].1) + restA, Write(b[0].1) + restB);
      MemberFollows(a[1..], s);
      MemberFollows(b[1..], t);
      WriteIsExact(a[0].1, b[0].1, restA, restB);
      MembersAreExact(a[1..], b[1..], false, s, t);
      assert a == [a[0]] + a[1..] && b == [b[0]] + b[1..];
    }
  }

  lemma MemberOpens(a: Pairs<Plain>, first: bool, s: string)
    ensures WriteMembers(a, first) + s != ""
    ensures (WriteMembers(a, first) + s)[0] == '}' <==> a == []
    ensures a != [] ==>
              WriteMembers(a, first) + s == (if first then "" else ",") +
                (Quote(a[0].0) + (":" + (Write(a[0].1) + (WriteMembers(a[1..], false) + s))))
  {
    if a != [] {
      assert a[0].1 < a[0];
      var comma := if first then "" else ",";
      var key, value, rest := Quote(a[0].0), Write(a[0].1), WriteMembers(a[1..], false);
      assert WriteMembers(a, first) == comma + (key + (":" + (value + rest)));
      assert key[0] == '\"';
      hide *;
      Unbracket(comma, key, value, rest, s);
    }
  }

  lemma Unbracket(comma: string, key: string, value: string, rest: string, s: string)
    ensures (comma + (key + (":" + (value + rest)))) + s == comma + (key + (":" + (value + (rest + s))))
  {
  }

  // ---- The exact canonical text ----

  lemma Regroup(comma: string, key: string, value: string, rest: string)
    ensures comma + (key + (":" + (value + (rest + "}")))) == comma + (key + ":" + value) + rest + "}"
  {
  }

  lemma {:induction false} WriteMembersJoins(members: Pairs<Plain>, first: bool)
    requires forall m :: m in members ==> Write(m.1) == Dumps(m.1)
    ensures WriteMembers(members, first) == Joined(MemberTexts(DumpMembers(members)), first) + "}"
    decreases members
  {
    if members != [] {
      var dumped := DumpMembers(members);
      assert members[0] in members;
      WriteMembersJoins(members[1..], false);
      assert MemberTexts(dumped) == [MemberText(dumped[0])] + MemberTexts(dumped[1..]);
      hide Write, Dumps, Quote, MemberTexts;
      Regroup(if first then "" else ",", Quote(members[0].0), Dumps(members[0].1),
              Joined(MemberTexts(dumped[1..]), false));
    }
  }

  function MemberTexts(members: Pairs<string>): seq<string> {
    seq(|members|, i requires 0 <= i < |members| => MemberText(members[i]))
  }

  lemma {:induction false} WriteItemsJoins(items: seq<Plain>, first: bool)
    requires forall item :: item in items ==> Write(item) == Dumps(item)
    ensures WriteItems(items, first) == Joined(DumpItems(items), first) + "]"
    decreases items
  {
    if items != [] {
      WriteItemsJoins(items[1..], false);
    }
  }

  /** Objects list their members in the order of their keys, at every depth. */
  ghost predicate InOrder(p: Plain) {
    match p
    case Atom(_) => true
    case Obj(members) =>
      Sorted(members) && forall m: (string, Plain) :: m in members ==> (assert m.1 < m; InOrder(m.1))
    case Arr(items) => forall item :: item in items ==> InOrder(item)
  }

  lemma {:induction false} WriteIsDumps(p: Plain)
    requires InOrder(p)
    ensures Write(p) == Dumps(p)
    decreases p
  {
    match p
    case Atom(_) =>
    case Obj(members) =>
      forall m | m in members
        ensures Write(m.1) == Dumps(m.1)
      {
        assert m.1 < m;
        WriteIsDumps(m.1);
      }
      var dumped := DumpMembers(members);
      DumpMembersMaps(members);
      SortOfSorted(dumped);
      WriteMembersJoins(members, true);
      JoinedIsJoin(MemberTexts(dumped));
    case Arr(items) =>
      forall item | item in items
        ensures Write(item) == Dumps(item)
      {
        WriteIsDumps(item);
      }
      WriteItemsJoins(items, true);
      JoinedIsJoin(DumpItems(items));
  }

  /** Canonicalising puts everything in order and invents no number. */
  lemma {:induction false} CanonPlainInOrder(p: Plain)
    requires GoodNumbers(p)
    ensures InOrder(CanonPlain(p)) && GoodNumbers(CanonPlain(p))
    decreases p
  {
    match p
    case Atom(_) =>
    case Obj(members) =>
      CanonMembersInOrder(members);
      var canon := CanonPlainMembers(members);
      SortedDictIs(canon);
      forall m | m in SortedDict(canon)
        ensures InOrder(m.1) && GoodNumbers(m.1)
      {
        LastIsMember(canon, m.0);
      }
    case Arr(items) =>
      CanonItemsInOrder(items);
  }

  lemma {:induction false} CanonMembersInOrder(members: Pairs<Plain>)
    requires forall m :: m in members ==> GoodNumbers(m.1)
    ensures forall m :: m in CanonPlainMembers(members) ==> InOrder(m.1) && GoodNumbers(m.1)
    decreases members
  {
    if members != [] {
      assert members[0].1 < members[0];
      CanonPlainInOrder(members[0].1);
      CanonMembersInOrder(members[1..]);
    }
  }

  lemma {:induction false} CanonItemsInOrder(items: seq<Plain>)
    requires forall item :: item in items ==> GoodNumbers(item)
    ensures forall item :: item in CanonPlainItems(items) ==> InOrder(item) && GoodNumbers(item)
    decreases items
  {
    if items != [] {
      CanonPlainInOrder(items[0]);
      CanonItemsInOrder(items[1..]);
    }
  }

  /** Two values have the same canonical text exactly when their canonical data, with members
      in key order, are the same. So the text forgets what canonicalising forgets, which is
      the iteration order, the kind of container, the Enum around a scalar, the type of a key
      and all but the last value of keys with equal text, and it forgets nothing more. */
  lemma CanonicalTextIsExact(v: Value, w: Value)
    requires GoodNumbers(Canon(v, false)) && GoodNumbers(Canon(w, false))
    ensures CanonicalText(v) == CanonicalText(w) <==>
            CanonPlain(Canon(v, false)) == CanonPlain(Canon(w, false))
  {
    var a, b := Canon(v, false), Canon(w, false);
    CanonHasUniqueKeys(v, false);
    CanonHasUniqueKeys(w, false);
    PlainJsonIsDumps(a);
    PlainJsonIsDumps(b);
    CanonPlainInOrder(a);
    CanonPlainInOrder(b);
    WriteIsDumps(CanonPlain(a));
    WriteIsDumps(CanonPlain(b));
    if CanonicalText(v) == CanonicalText(w) {
      WriteIsExact(CanonPlain(a), CanonPlain(b), "", "");
    }
  }
}
