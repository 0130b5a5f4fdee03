/** Lists of key and value pairs in a definite order: what Python's stable `sorted` and its
    insertion-ordered dicts do to them, and what is left of the order afterwards. */
module KeyedLists {
  /** Comparison of strings by code point. */
  predicate Le(a: string, b: string) {
    a == "" || (b != "" && (a[0] < b[0] || (a[0] == b[0] && Le(a[1..], b[1..]))))
  }

  lemma {:induction false} LeTotal(a: string, b: string)
    ensures Le(a, b) || Le(b, a)
    ensures Le(a, b) && Le(b, a) ==> a == b
    decreases a
  {
    if a != "" && b != "" {
      LeTotal(a[1..], b[1..]);
      if a[0] == b[0] && a[1..] == b[1..] {
        assert a == [a[0]] + a[1..] && b == [b[0]] + b[1..];
      }
    }
  }

  lemma {:induction false} LeTransitive(a: string, b: string, c: string)
    requires Le(a, b) && Le(b, c)
    ensures Le(a, c)
    decreases a
  {
    if a != "" && a[0] == b[0] == c[0] {
      LeTransitive(a[1..], b[1..], c[1..]);
    }
  }

  lemma LeReflexive(a: string)
    ensures Le(a, a)
  {
    LeTotal(a, a);
  }

  /** The order in words: a prefix comes first, and otherwise the first difference decides. */
  lemma {:induction false} LeIs(a: string, b: string)
    ensures Le(a, b) <==>
            exists n :: 0 <= n <= |a| && n <= |b| && a[..n] == b[..n] &&
              (n == |a| || (n < |b| && a[n] < b[n]))
    decreases a
  {
    if a != "" && b != "" && a[0] == b[0] {
      LeIs(a[1..], b[1..]);
      if m :| 0 <= m <= |a[1..]| && m <= |b[1..]| && a[1..][..m] == b[1..][..m] &&
              (m == |a[1..]| || (m < |b[1..]| && a[1..][m] < b[1..][m])) {
        assert a[..m + 1] == [a[0]] + a[1..][..m] && b[..m + 1] == [b[0]] + b[1..][..m];
      }
      if n :| 0 <= n <= |a| && n <= |b| && a[..n] == b[..n] && (n == |a| || (n < |b| && a[n] < b[n])) {
        if n > 0 {
          assert a[1..][..n - 1] == a[..n][1..] && b[1..][..n - 1] == b[..n][1..];
        }
      }
    } else {
      assert a[..0] == b[..0];
      assert forall n :: 0 < n <= |a| && n <= |b| ==> a[..n][0] == a[0] && b[..n][0] == b[0];
    }
  }

  type Pairs<T> = seq<(string, T)>

  function Keys<T>(xs: Pairs<T>): set<string> {
    set i | 0 <= i < |xs| :: xs[i].0
  }

  ghost predicate Sorted<T>(xs: Pairs<T>) {
    forall i, j :: 0 <= i < j < |xs| ==> Le(xs[i].0, xs[j].0)
  }

  ghost predicate DistinctKeys<T>(xs: Pairs<T>) {
    forall i, j :: 0 <= i < j < |xs| ==> xs[i].0 != xs[j].0
  }

  // ---- Stable sorting by key ----

  function Insert<T>(x: (string, T), xs: Pairs<T>): Pairs<T> {
    if xs == [] || Le(x.0, xs[0].0) then [x] + xs else [xs[0]] + Insert(x, xs[1..])
  }

  function Sort<T>(xs: Pairs<T>): (r: Pairs<T>)
    ensures |r| == |xs|
  {
    if xs == [] then []
    else
      InsertCounts(xs[0], Sort(xs[1..]));
      Insert(xs[0], Sort(xs[1..]))
  }

  lemma {:induction false} InsertCounts<T>(x: (string, T), xs: Pairs<T>)
    ensures |Insert(x, xs)| == |xs| + 1
    ensures multiset(Insert(x, xs)) == multiset{x} + multiset(xs)
    decreases xs
  {
    if xs != [] && !Le(x.0, xs[0].0) {
      InsertCounts(x, xs[1..]);
      assert xs == [xs[0]] + xs[1..];
    }
  }

  lemma {:induction false} InsertSorted<T>(x: (string, T), xs: Pairs<T>)
    requires Sorted(xs)
    ensures Sorted(Insert(x, xs))
    decreases xs
  {
    if xs == [] {
    } else if Le(x.0, xs[0].0) {
      forall j | 0 <= j < |xs|
        ensures Le(x.0, xs[j].0)
      {
        if j > 0 {
          LeTransitive(x.0, xs[0].0, xs[j].0);
        }
      }
    } else {
      LeTotal(x.0, xs[0].0);
      InsertSorted(x, xs[1..]);
      var tail := Insert(x, xs[1..]);
      InsertCounts(x, xs[1..]);
      forall j | 0 <= j < |tail|
        ensures Le(xs[0].0, tail[j].0)
      {
        assert tail[j] in multiset(tail);
        assert tail[j] == x || tail[j] in xs[1..];
      }
    }
  }

  lemma {:induction false} SortSorts<T>(xs: Pairs<T>)
    ensures Sorted(Sort(xs))
    ensures multiset(Sort(xs)) == multiset(xs)
    decreases xs
  {
    if xs != [] {
      SortSorts(xs[1..]);
      InsertSorted(xs[0], Sort(xs[1..]));
      InsertCounts(xs[0], Sort(xs[1..]));
      assert xs == [xs[0]] + xs[1..];
    }
  }

  lemma {:induction false} SortOfSorted<T>(xs: Pairs<T>)
    requires Sorted(xs)
    ensures Sort(xs) == xs
    decreases xs
  {
    if xs != [] {
      SortOfSorted(xs[1..]);
      assert xs == [xs[0]] + xs[1..];
    }
  }

  lemma TailCounts<T>(xs: seq<T>)
    requires xs != []
    ensures multiset(xs[1..]) == multiset(xs) - multiset{xs[0]}
  {
    assert xs == [xs[0]] + xs[1..];
  }

  lemma LeastFirst<T>(xs: Pairs<T>, ys: Pairs<T>)
    requires Sorted(xs) && xs != [] && multiset(xs) == multiset(ys) && ys != []
    ensures Le(xs[0].0, ys[0].0)
  {
    assert ys[0] in multiset(ys);
    var j :| 0 <= j < |xs| && xs[j] == ys[0];
    LeReflexive(xs[0].0);
  }

  lemma SameFirst<T>(xs: Pairs<T>, ys: Pairs<T>)
    requires Sorted(xs) && Sorted(ys) && multiset(xs) == multiset(ys) && xs != [] && ys != []
    requires forall i, j :: 0 <= i < |xs| && 0 <= j < |xs| && xs[i].0 == xs[j].0 ==> xs[i] == xs[j]
    ensures xs[0] == ys[0]
  {
    hide Le;
    LeastFirst(xs, ys);
    LeastFirst(ys, xs);
    LeTotal(xs[0].0, ys[0].0);
    assert ys[0] in multiset(xs);
    var j :| 0 <= j < |xs| && xs[j] == ys[0];
    assert xs[0] == xs[j];
  }

  /** Sorted lists with the same pairs are equal, where the key says what the value is. */
  lemma {:induction false} SortedIsUnique<T>(xs: Pairs<T>, ys: Pairs<T>)
    requires Sorted(xs) && Sorted(ys) && multiset(xs) == multiset(ys)
    requires forall i, j :: 0 <= i < |xs| && 0 <= j < |xs| && xs[i].0 == xs[j].0 ==> xs[i] == xs[j]
    ensures xs == ys
    decreases xs
  {
    assert |xs| == |multiset(xs)| == |multiset(ys)| == |ys|;
    if xs != [] {
      SameFirst(xs, ys);
      hide Le;
      TailCounts(xs);
      TailCounts(ys);
      SortedIsUnique(xs[1..], ys[1..]);
      assert xs == [xs[0]] + xs[1..] && ys == [ys[0]] + ys[1..];
    }
  }

  // ---- Dicts: the first position and the last value of a key ----

  function Put<T>(d: Pairs<T>, k: string, v: T): Pairs<T> {
    if d == [] then [(k, v)]
    else if d[0].0 == k then [(k, v)] + d[1..]
    else [d[0]] + Put(d[1..], k, v)
  }

  function DictOf<T>(xs: Pairs<T>): Pairs<T> {
    if xs == [] then []
    else Put(DictOf(xs[..|xs| - 1]), xs[|xs| - 1].0, xs[|xs| - 1].1)
  }

  lemma {:induction false} PutNew<T>(d: Pairs<T>, k: string, v: T)
    requires k !in Keys(d)
    ensures Put(d, k, v) == d + [(k, v)]
    decreases d
  {
    if d != [] {
      assert d[0].0 in Keys(d);
      assert forall i :: 0 <= i < |d[1..]| ==> d[1..][i] == d[i + 1];
      PutNew(d[1..], k, v);
      assert d == [d[0]] + d[1..];
    }
  }

  lemma {:induction false} PutKeys<T>(d: Pairs<T>, k: string, v: T)
    ensures Keys(Put(d, k, v)) == Keys(d) + {k}
    decreases d
  {
    ConsKeys((k, v), []);
    if d != [] {
      assert d == [d[0]] + d[1..];
      ConsKeys(d[0], d[1..]);
      if d[0].0 == k {
        ConsKeys((k, v), d[1..]);
      } else {
        PutKeys(d[1..], k, v);
        ConsKeys(d[0], Put(d[1..], k, v));
      }
    }
  }

  lemma ConsDistinct<T>(x: (string, T), xs: Pairs<T>)
    ensures DistinctKeys([x] + xs) <==> DistinctKeys(xs) && x.0 !in Keys(xs)
  {
    var all := [x] + xs;
    assert forall i :: 0 <= i < |xs| ==> all[i + 1] == xs[i];
    if DistinctKeys(all) {
      forall i | 0 <= i < |xs|
        ensures xs[i].0 != x.0
      {
        assert all[0].0 != all[i + 1].0;
      }
    }
    if DistinctKeys(xs) && x.0 !in Keys(xs) {
      forall i, j | 0 <= i < j < |all|
        ensures all[i].0 != all[j].0
      {
        assert all[j] == xs[j - 1] && xs[j - 1].0 in Keys(xs);
      }
    }
  }

  lemma {:induction false} PutDistinct<T>(d: Pairs<T>, k: string, v: T)
    requires DistinctKeys(d)
    ensures DistinctKeys(Put(d, k, v))
    decreases d
  {
    if d != [] {
      assert d == [d[0]] + d[1..];
      ConsDistinct(d[0], d[1..]);
      if d[0].0 == k {
        ConsDistinct((k, v), d[1..]);
      } else {
        PutDistinct(d[1..], k, v);
        PutKeys(d[1..], k, v);
        ConsDistinct(d[0], Put(d[1..], k, v));
      }
    }
  }

  lemma {:induction false} PutEntries<T>(d: Pairs<T>, k: string, v: T)
    requires DistinctKeys(d)
    ensures |d| <= |Put(d, k, v)|
    ensures forall i :: 0 <= i < |d| ==> Put(d, k, v)[i].0 == d[i].0
    ensures forall i :: 0 <= i < |Put(d, k, v)| ==>
              if Put(d, k, v)[i].0 == k then Put(d, k, v)[i].1 == v else i < |d| && Put(d, k, v)[i] == d[i]
    decreases d
  {
    if d != [] {
      var t := d[1..];
      assert forall i :: 0 <= i < |t| ==> t[i] == d[i + 1];
      var r := Put(d, k, v);
      if d[0].0 == k {
        assert forall i :: 0 < i < |r| ==> r[i] == d[i];
      } else {
        PutEntries(t, k, v);
        assert forall i :: 0 < i < |r| ==> r[i] == Put(t, k, v)[i - 1];
      }
    }
  }

  ghost function Last<T>(xs: Pairs<T>, k: string): T
    requires k in Keys(xs)
  {
    if xs[|xs| - 1].0 == k then xs[|xs| - 1].1
    else
      var front := xs[..|xs| - 1];
      var i :| 0 <= i < |xs| && xs[i].0 == k;
      assert front[i].0 == k;
      Last(front, k)
  }

  lemma {:induction false} DictHasLastValues<T>(xs: Pairs<T>)
    ensures DistinctKeys(DictOf(xs)) && Keys(DictOf(xs)) == Keys(xs)
    ensures forall i :: 0 <= i < |DictOf(xs)| ==>
              DictOf(xs)[i].0 in Keys(xs) && DictOf(xs)[i].1 == Last(xs, DictOf(xs)[i].0)
    decreases xs
  {
    if xs != [] {
      var front, last := xs[..|xs| - 1], xs[|xs| - 1];
      DictHasLastValues(front);
      PutKeys(DictOf(front), last.0, last.1);
      PutDistinct(DictOf(front), last.0, last.1);
      PutEntries(DictOf(front), last.0, last.1);
      KeysAppend(front, last);
      assert xs == front + [last];
      var d := DictOf(xs);
      forall i | 0 <= i < |d|
        ensures d[i].0 in Keys(xs) && d[i].1 == Last(xs, d[i].0)
      {
        assert d[i].0 in Keys(d);
      }
    }
  }

  lemma KeysAppend<T>(xs: Pairs<T>, x: (string, T))
    ensures Keys(xs + [x]) == Keys(xs) + {x.0}
  {
    assert (xs + [x])[|xs|] == x;
    assert forall i :: 0 <= i < |xs| ==> (xs + [x])[i] == xs[i];
  }

  lemma {:induction false} DictOfDistinct<T>(xs: Pairs<T>)
    requires DistinctKeys(xs)
    ensures DictOf(xs) == xs
    decreases xs
  {
    if xs != [] {
      var front, last := xs[..|xs| - 1], xs[|xs| - 1];
      DictOfDistinct(front);
      PutNew(front, last.0, last.1);
      assert xs == front + [last];
    }
  }

  /** A dict built from sorted pairs lists its keys in order. */
  lemma {:induction false} DictOfSorted<T>(xs: Pairs<T>)
    requires Sorted(xs)
    ensures Sorted(DictOf(xs))
    decreases xs
  {
    if xs != [] {
      var front, last := xs[..|xs| - 1], xs[|xs| - 1];
      DictOfSorted(front);
      DictHasLastValues(front);
      var d := DictOf(front);
      forall i | 0 <= i < |d|
        ensures Le(d[i].0, last.0)
      {
        assert d[i].0 in Keys(front);
        var j :| 0 <= j < |front| && front[j].0 == d[i].0;
        assert Le(xs[j].0, xs[|xs| - 1].0);
      }
      PutEntries(d, last.0, last.1);
      if last.0 !in Keys(d) {
        PutNew(d, last.0, last.1);
      } else {
        SameKeyCount(d, last.0, last.1);
      }
    }
  }

  lemma {:induction false} SameKeyCount<T>(d: Pairs<T>, k: string, v: T)
    requires k in Keys(d)
    ensures |Put(d, k, v)| == |d|
    decreases d
  {
    if d[0].0 != k {
      var i :| 0 <= i < |d| && d[i].0 == k;
      assert d[1..][i - 1].0 == k;
      SameKeyCount(d[1..], k, v);
    }
  }

  // ---- Sorting is stable: it does not change which value of a key comes last ----

  lemma {:induction false} LastOfCons<T>(x: (string, T), xs: Pairs<T>, k: string)
    requires k in Keys([x] + xs)
    ensures Last([x] + xs, k) == if k in Keys(xs) then Last(xs, k) else x.1
    decreases xs
  {
    var all := [x] + xs;
    if xs != [] {
      var front := xs[..|xs| - 1];
      assert all[..|all| - 1] == [x] + front;
      assert xs == front + [xs[|xs| - 1]];
      KeysAppend(front, xs[|xs| - 1]);
      KeysAppend([x] + front, xs[|xs| - 1]);
      assert all == [x] + front + [xs[|xs| - 1]];
      if xs[|xs| - 1].0 != k {
        LastOfCons(x, front, k);
      }
    } else {
      assert all == [x];
    }
  }

  lemma ConsKeys<T>(x: (string, T), xs: Pairs<T>)
    ensures Keys([x] + xs) == {x.0} + Keys(xs)
  {
    assert ([x] + xs)[0] == x;
    assert forall i :: 0 <= i < |xs| ==> ([x] + xs)[i + 1] == xs[i];
  }

  lemma {:induction false} InsertKeepsLast<T>(x: (string, T), xs: Pairs<T>, k: string)
    requires k in Keys([x] + xs)
    ensures k in Keys(Insert(x, xs)) && Last(Insert(x, xs), k) == Last([x] + xs, k)
    decreases xs
  {
    if xs != [] && !Le(x.0, xs[0].0) {
      var t := xs[1..];
      assert xs == [xs[0]] + t;
      ConsKeys(xs[0], t);
      ConsKeys(x, xs);
      ConsKeys(x, t);
      ConsKeys(xs[0], Insert(x, t));
      LeTotal(x.0, xs[0].0);
      LeReflexive(x.0);
      if k in Keys([x] + t) {
        InsertKeepsLast(x, t, k);
        LastOfCons(x, t, k);
      } else {
        InsertKeys(x, t);
      }
      LastOfCons(x, xs, k);
      LastOfCons(xs[0], Insert(x, t), k);
      if k in Keys(xs) {
        LastOfCons(xs[0], t, k);
      }
    }
  }

  lemma {:induction false} InsertKeys<T>(x: (string, T), xs: Pairs<T>)
    ensures Keys(Insert(x, xs)) == {x.0} + Keys(xs)
    decreases xs
  {
    ConsKeys(x, xs);
    if xs != [] && !Le(x.0, xs[0].0) {
      InsertKeys(x, xs[1..]);
      ConsKeys(xs[0], Insert(x, xs[1..]));
      ConsKeys(xs[0], xs[1..]);
      assert xs == [xs[0]] + xs[1..];
    }
  }

  lemma {:induction false} SortKeys<T>(xs: Pairs<T>)
    ensures Keys(Sort(xs)) == Keys(xs)
    decreases xs
  {
    if xs != [] {
      SortKeys(xs[1..]);
      InsertKeys(xs[0], Sort(xs[1..]));
      ConsKeys(xs[0], xs[1..]);
      assert xs == [xs[0]] + xs[1..];
    }
  }

  lemma {:induction false} SortKeepsLast<T>(xs: Pairs<T>, k: string)
    requires k in Keys(xs)
    ensures k in Keys(Sort(xs)) && Last(Sort(xs), k) == Last(xs, k)
    decreases xs
  {
    var x, t := xs[0], xs[1..];
    assert xs == [x] + t;
    SortKeys(xs);
    SortKeys(t);
    ConsKeys(x, t);
    ConsKeys(x, Sort(t));
    InsertKeepsLast(x, Sort(t), k);
    LastOfCons(x, Sort(t), k);
    LastOfCons(x, t, k);
    if k in Keys(t) {
      SortKeepsLast(t, k);
    }
  }

  /** The dict built from the sorted pairs: `{str(k): v for k, v in sorted(items)}`. */
  function SortedDict<T>(xs: Pairs<T>): Pairs<T> {
    DictOf(Sort(xs))
  }

  /** Its keys ascend strictly, and each carries the value that came last in `xs`. */
  lemma SortedDictIs<T>(xs: Pairs<T>)
    ensures Sorted(SortedDict(xs)) && DistinctKeys(SortedDict(xs)) && Keys(SortedDict(xs)) == Keys(xs)
    ensures forall i :: 0 <= i < |SortedDict(xs)| ==>
              SortedDict(xs)[i].0 in Keys(xs) && SortedDict(xs)[i].1 == Last(xs, SortedDict(xs)[i].0)
  {
    SortSorts(xs);
    SortKeys(xs);
    DictOfSorted(Sort(xs));
    DictHasLastValues(Sort(xs));
    forall i | 0 <= i < |SortedDict(xs)|
      ensures SortedDict(xs)[i].0 in Keys(xs) && SortedDict(xs)[i].1 == Last(xs, SortedDict(xs)[i].0)
    {
      SortKeepsLast(xs, SortedDict(xs)[i].0);
    }
  }

  /** Strictly ascending keys are determined by the set of keys. */
  lemma {:induction false} SameKeysSameOrder<T>(a: Pairs<T>, b: Pairs<T>)
    requires Sorted(a) && Sorted(b) && DistinctKeys(a) && DistinctKeys(b) && Keys(a) == Keys(b)
    ensures |a| == |b| && forall i :: 0 <= i < |a| ==> a[i].0 == b[i].0
    decreases a
  {
    NoKeys(a);
    NoKeys(b);
    if a != [] {
      assert a[0].0 in Keys(b);
      assert b[0].0 in Keys(a);
      var i :| 0 <= i < |b| && b[i].0 == a[0].0;
      var j :| 0 <= j < |a| && a[j].0 == b[0].0;
      LeReflexive(a[0].0);
      LeReflexive(b[0].0);
      assert Le(a[0].0, a[j].0) && Le(b[0].0, b[i].0);
      LeTotal(a[0].0, b[0].0);
      TailKeys(a);
      TailKeys(b);
      SameKeysSameOrder(a[1..], b[1..]);
      assert forall m :: 0 < m < |a| ==> a[m] == a[1..][m - 1];
      assert forall m :: 0 < m < |b| ==> b[m] == b[1..][m - 1];
    }
  }

  lemma NoKeys<T>(a: Pairs<T>)
    ensures Keys(a) == {} <==> a == []
  {
    if a != [] {
      assert a[0].0 in Keys(a);
    }
  }

  lemma TailKeys<T>(a: Pairs<T>)
    requires a != [] && DistinctKeys(a)
    ensures Keys(a[1..]) == Keys(a) - {a[0].0}
  {
    assert a == [a[0]] + a[1..];
    ConsKeys(a[0], a[1..]);
    forall i | 0 <= i < |a[1..]|
      ensures a[1..][i].0 != a[0].0
    {
      assert a[1..][i] == a[i + 1];
    }
  }

  // ---- Changing values does not change any of this ----

  function MapValues<T, U>(f: T -> U, xs: Pairs<T>): (r: Pairs<U>)
    ensures |r| == |xs| && forall i :: 0 <= i < |xs| ==> r[i] == (xs[i].0, f(xs[i].1))
  {
    seq(|xs|, i requires 0 <= i < |xs| => (xs[i].0, f(xs[i].1)))
  }

  lemma MapCons<T, U>(f: T -> U, x: (string, T), xs: Pairs<T>)
    ensures MapValues(f, [x] + xs) == [(x.0, f(x.1))] + MapValues(f, xs)
  {
  }

  lemma {:induction false} MapInsert<T, U>(f: T -> U, x: (string, T), xs: Pairs<T>)
    ensures MapValues(f, Insert(x, xs)) == Insert((x.0, f(x.1)), MapValues(f, xs))
    decreases xs
  {
    if xs != [] && !Le(x.0, xs[0].0) {
      MapInsert(f, x, xs[1..]);
      assert MapValues(f, xs)[1..] == MapValues(f, xs[1..]);
      MapCons(f, xs[0], Insert(x, xs[1..]));
    } else {
      MapCons(f, x, xs);
    }
  }

  lemma {:induction false} MapSort<T, U>(f: T -> U, xs: Pairs<T>)
    ensures MapValues(f, Sort(xs)) == Sort(MapValues(f, xs))
    decreases xs
  {
    if xs != [] {
      MapSort(f, xs[1..]);
      MapInsert(f, xs[0], Sort(xs[1..]));
      assert MapValues(f, xs)[1..] == MapValues(f, xs[1..]);
    }
  }

  lemma {:induction false} MapPut<T, U>(f: T -> U, d: Pairs<T>, k: string, v: T)
    ensures MapValues(f, Put(d, k, v)) == Put(MapValues(f, d), k, f(v))
    decreases d
  {
    if d == [] {
      MapCons(f, (k, v), []);
    } else {
      assert MapValues(f, d)[1..] == MapValues(f, d[1..]);
      if d[0].0 == k {
        MapCons(f, (k, v), d[1..]);
      } else {
        MapPut(f, d[1..], k, v);
        MapCons(f, d[0], Put(d[1..], k, v));
      }
    }
  }

  lemma {:induction false} MapDict<T, U>(f: T -> U, xs: Pairs<T>)
    ensures MapValues(f, DictOf(xs)) == DictOf(MapValues(f, xs))
    decreases xs
  {
    if xs != [] {
      var front, last := xs[..|xs| - 1], xs[|xs| - 1];
      MapDict(f, front);
      MapPut(f, DictOf(front), last.0, last.1);
      assert MapValues(f, xs)[..|xs| - 1] == MapValues(f, front);
    }
  }
}
