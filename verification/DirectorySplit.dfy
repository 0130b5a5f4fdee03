/** Packing files into sub-directories of bounded size, by a key taken from the file name. */
module DirectorySplit {
  import opened Sequences

  // ---- Bucket keys ----

  function LStrip(s: string): string {
    if s != "" && s[0] == '_' then LStrip(s[1..]) else s
  }

  /** Everything before the first underscore. */
  function FirstSegment(s: string): (r: string)
    ensures '_' !in r
    ensures s != "" && s[0] != '_' ==> r != ""
  {
    if s == "" || s[0] == '_' then "" else [s[0]] + FirstSegment(s[1..])
  }

  /** The key of a module with this stem, in the directory splitter. */
  function ModuleKey(stem: string): (key: string)
    ensures '_' !in key && key != ""
  {
    var key := FirstSegment(LStrip(stem));
    if key == "" then "internal" else key
  }

  function Underscores(n: nat): string {
    if n == 0 then "" else "_" + Underscores(n - 1)
  }

  lemma {:induction false} StrippedStem(n: nat, rest: string)
    requires rest == "" || rest[0] != '_'
    ensures LStrip(Underscores(n) + rest) == rest
    decreases n
  {
    if n > 0 {
      assert (Underscores(n) + rest)[1..] == Underscores(n - 1) + rest;
      StrippedStem(n - 1, rest);
    } else {
      assert Underscores(0) + rest == rest;
    }
  }

  lemma {:induction false} SegmentEnds(key: string, tail: string)
    requires '_' !in key && (tail == "" || tail[0] == '_')
    ensures FirstSegment(key + tail) == key
    decreases key
  {
    if key == "" {
      assert key + tail == tail;
    } else {
      assert (key + tail)[1..] == key[1..] + tail;
      SegmentEnds(key[1..], tail);
    }
  }

  /** The key is what stands between the leading underscores and the next one; a stem of
      underscores only is internal. Every stem is of one of these forms. */
  lemma ModuleKeyIs(n: nat, key: string, tail: string)
    requires '_' !in key && (tail == "" || tail[0] == '_') && (key == "" ==> tail == "")
    ensures ModuleKey(Underscores(n) + key + tail) == if key == "" then "internal" else key
  {
    assert Underscores(n) + key + tail == Underscores(n) + (key + tail);
    if key != "" {
      assert (key + tail)[0] == key[0];
    }
    StrippedStem(n, key + tail);
    SegmentEnds(key, tail);
  }

  predicate IsTokenChar(c: char) {
    'a' <= c <= 'z' || '0' <= c <= '9'
  }

  function Token(s: string): (r: string)
    ensures '_' !in r
  {
    if s == "" || !IsTokenChar(s[0]) then "" else [s[0]] + Token(s[1..])
  }

  const TEST_PREFIX: string := "test_"

  /** The key of a test file, in the test organiser. */
  function TestKey(name: string): (key: string)
    ensures '_' !in key && key != ""
  {
    if TEST_PREFIX <= name && Token(name[|TEST_PREFIX|..]) != "" then Token(name[|TEST_PREFIX|..]) else "misc"
  }

  lemma {:induction false} TokenEnds(token: string, tail: string)
    requires forall c :: c in token ==> IsTokenChar(c)
    requires tail == "" || !IsTokenChar(tail[0])
    ensures Token(token + tail) == token
    decreases token
  {
    if token == "" {
      assert token + tail == tail;
    } else {
      assert token[0] in token;
      assert (token + tail)[1..] == token[1..] + tail;
      TokenEnds(token[1..], tail);
    }
  }

  /** The key of a test file is the run of small letters and digits after `test_`, if there is
      one. */
  lemma TestKeyIs(token: string, tail: string)
    requires forall c :: c in token ==> 'a' <= c <= 'z' || '0' <= c <= '9'
    requires tail == "" || !('a' <= tail[0] <= 'z' || '0' <= tail[0] <= '9')
    ensures TestKey("test_" + token + tail) == if token == "" then "misc" else token
  {
    var name := "test_" + token + tail;
    assert name[5..] == token + tail && name[..5] == "test_";
    TokenEnds(token, tail);
  }

  lemma OtherFilesAreMisc(name: string)
    requires !("test_" <= name)
    ensures TestKey(name) == "misc"
  {
  }

  // ---- Numbers in directory names ----

  /** The number that decimal digits stand for. */
  function ValueOf(digits: string): int {
    if digits == "" then 0
    else ValueOf(digits[..|digits| - 1]) * 10 + (digits[|digits| - 1] as int - '0' as int)
  }

  lemma {:induction false} DigitsAreDecimal(n: nat)
    ensures ValueOf(Digits(n)) == n
    ensures forall c :: c in Digits(n) ==> '0' <= c <= '9'
    ensures |Digits(n)| > 1 ==> Digits(n)[0] != '0'
    decreases n
  {
    LastDigit(n);
    var d := Digits(n);
    if n >= 10 {
      DigitsAreDecimal(n / 10);
      assert d == d[..|d| - 1] + [d[|d| - 1]];
      assert d[0] == Digits(n / 10)[0];
      if |Digits(n / 10)| == 1 {
        LastDigit(n / 10);
      }
    } else {
      assert d == [d[0]] && d[..0] == "";
    }
  }

  lemma ChunkNameIs(k: string, n: nat)
    ensures ChunkName(k, n) == k + "_" + Digits(n) && ValueOf(Digits(n)) == n
  {
    DigitsAreDecimal(n);
  }

  function Digits(n: nat): (r: string)
    ensures r != "" && (n >= 10 ==> |r| > 1)
  {
    if n < 10 then ["0123456789"[n]] else Digits(n / 10) + ["0123456789"[n % 10]]
  }

  lemma {:induction false} DigitsAreExact(m: nat, n: nat)
    requires Digits(m) == Digits(n)
    ensures m == n
    decreases m
  {
    LastDigit(m);
    LastDigit(n);
    assert m % 10 == n % 10;
    if m >= 10 {
      hide Digits;
      DigitsAreExact(m / 10, n / 10);
    }
  }

  lemma LastDigit(n: nat)
    ensures var d := Digits(n);
            && d[|d| - 1] == "0123456789"[n % 10]
            && (n < 10 <==> |d| == 1)
            && (n >= 10 ==> d[..|d| - 1] == Digits(n / 10))
  {
  }

  lemma FirstUnderscore(k: string, a: string, l: string, b: string)
    requires '_' !in k && '_' !in l && k + "_" + a == l + "_" + b
    ensures k == l && a == b
  {
    var s, t := k + "_" + a, l + "_" + b;
    assert s[|k|] == '_' && t[|l|] == '_';
    assert forall i :: 0 <= i < |k| ==> s[i] == k[i];
    assert forall i :: 0 <= i < |l| ==> t[i] == l[i];
    assert |k| == |l|;
    assert k == s[..|k|] && l == t[..|l|];
    assert a == s[|k| + 1..] && b == t[|l| + 1..];
  }

  // ---- Where a file goes ----

  /** The files with the given key, in order. */
  function Bucket(files: seq<string>, key: string -> string, k: string): seq<string> {
    if files == [] then []
    else
      var last := files[|files| - 1];
      Bucket(files[..|files| - 1], key, k) + (if key(last) == k then [last] else [])
  }

  function IndexOf(files: seq<string>, f: string): (i: nat)
    requires f in files
    ensures i < |files| && files[i] == f
  {
    if files[0] == f then 0 else 1 + IndexOf(files[1..], f)
  }

  /** The sub-directory for `f`: the key, with a chunk number if the bucket exceeds the cap. */
  function TargetOf(files: seq<string>, key: string -> string, cap: nat, offset: nat, f: string): string
    requires cap > 0 && f in files
  {
    var bucket := Bucket(files, key, key(f));
    BucketMembers(files, key, key(f));
    if |bucket| <= cap then key(f) else ChunkName(key(f), ChunkOf(bucket, cap, f) + offset)
  }

  /** The chunk that holds `f` when `bucket` is cut into pieces of size `cap`. */
  function ChunkOf(bucket: seq<string>, cap: nat, f: string): nat
    requires cap > 0 && f in bucket
  {
    IndexOf(bucket, f) / cap
  }

  function ChunkName(k: string, n: nat): (r: string)
    ensures '_' in r
  {
    assert (k + "_" + Digits(n))[|k|] == '_';
    k + "_" + Digits(n)
  }

  lemma {:induction false} BucketMembers(files: seq<string>, key: string -> string, k: string)
    ensures forall f :: f in Bucket(files, key, k) <==> f in files && key(f) == k
    decreases files
  {
    if files != [] {
      BucketMembers(files[..|files| - 1], key, k);
      assert files == files[..|files| - 1] + [files[|files| - 1]];
    }
  }

  lemma {:induction false} BucketDistinct(files: seq<string>, key: string -> string, k: string)
    requires Distinct(files)
    ensures Distinct(Bucket(files, key, k))
    decreases files
  {
    if files != [] {
      BucketDistinct(files[..|files| - 1], key, k);
      BucketMembers(files[..|files| - 1], key, k);
    }
  }

  lemma {:induction false} ElementsAtMost<T>(xs: seq<T>)
    ensures |Elements(xs)| <= |xs|
    ensures Distinct(xs) ==> |Elements(xs)| == |xs|
    decreases xs
  {
    if xs != [] {
      var front, last := xs[..|xs| - 1], xs[|xs| - 1];
      ElementsAtMost(front);
      assert Elements(xs) == Elements(front) + {last};
    }
  }

  /** The files that go to `target`. */
  function SentTo(files: seq<string>, key: string -> string, cap: nat, offset: nat, target: string): set<string>
    requires cap > 0
  {
    set f | f in files && TargetOf(files, key, cap, offset, f) == target
  }

  lemma Fewer<T>(a: set<T>, b: set<T>)
    requires a <= b
    ensures |a| <= |b|
  {
    assert b == a + (b - a);
  }

  /** A name tells its key, whether it is that of a chunk, and which. */
  function NameFor(k: string, chunked: bool, n: nat): string {
    if chunked then ChunkName(k, n) else k
  }

  lemma NamesApart(k: string, inChunk: bool, m: nat, l: string, chunked: bool, n: nat)
    requires '_' !in k && '_' !in l && NameFor(k, inChunk, m) == NameFor(l, chunked, n)
    ensures k == l && inChunk == chunked && (inChunk ==> m == n)
  {
    if inChunk && chunked {
      FirstUnderscore(k, Digits(m), l, Digits(n));
      DigitsAreExact(m, n);
    }
  }

  lemma TargetIsName(files: seq<string>, key: string -> string, cap: nat, offset: nat, f: string)
    requires cap > 0 && f in files
    ensures var bucket := Bucket(files, key, key(f));
            && f in bucket
            && TargetOf(files, key, cap, offset, f) ==
               NameFor(key(f), |bucket| > cap, ChunkOf(bucket, cap, f) + offset)
  {
    BucketMembers(files, key, key(f));
  }

  /** Two files with the same target have the same key, and their chunk is the same. */
  lemma SameTarget(files: seq<string>, key: string -> string, cap: nat, offset: nat, f: string, g: string)
    requires cap > 0 && f in files && g in files && '_' !in key(f) && '_' !in key(g)
    requires TargetOf(files, key, cap, offset, f) == TargetOf(files, key, cap, offset, g)
    ensures key(f) == key(g)
    ensures f in Bucket(files, key, key(f)) && g in Bucket(files, key, key(f))
    ensures var bucket := Bucket(files, key, key(f));
            |bucket| > cap ==> ChunkOf(bucket, cap, f) == ChunkOf(bucket, cap, g)
  {
    hide *;
    TargetIsName(files, key, cap, offset, f);
    TargetIsName(files, key, cap, offset, g);
    var a, b := Bucket(files, key, key(f)), Bucket(files, key, key(g));
    NamesApart(key(f), |a| > cap, ChunkOf(a, cap, f) + offset, key(g), |b| > cap, ChunkOf(b, cap, g) + offset);
  }

  lemma IndexInChunk(i: nat, c: nat, cap: nat)
    requires cap > 0 && i / cap == c
    ensures c * cap <= i < c * cap + cap
  {
    assert i == (i / cap) * cap + i % cap;
  }

  /** No sub-directory receives more files than the cap. */
  lemma NoTargetOverflows(files: seq<string>, key: string -> string, cap: nat, offset: nat, target: string)
    requires cap > 0 && forall f :: f in files ==> '_' !in key(f)
    ensures |SentTo(files, key, cap, offset, target)| <= cap
  {
    var sent := SentTo(files, key, cap, offset, target);
    if sent != {} {
      var f :| f in sent;
      var bucket := Bucket(files, key, key(f));
      BucketMembers(files, key, key(f));
      hide Bucket, ChunkOf, Chunk, TargetOf;
      var part := if |bucket| <= cap then bucket else Chunk(bucket, cap, ChunkOf(bucket, cap, f));
      forall g | g in sent
        ensures g in part
      {
        SameTarget(files, key, cap, offset, f, g);
        if |bucket| > cap {
          InItsChunk(bucket, cap, g);
        }
      }
      hide SentTo;
      ElementsAtMost(part);
      Fewer(sent, Elements(part));
    }
  }

  function Chunk(bucket: seq<string>, cap: nat, c: nat): (r: seq<string>)
    requires cap > 0
    ensures |r| <= cap
  {
    if c * cap >= |bucket| then []
    else if c * cap + cap <= |bucket| then bucket[c * cap..c * cap + cap]
    else bucket[c * cap..]
  }

  lemma InItsChunk(bucket: seq<string>, cap: nat, g: string)
    requires cap > 0 && g in bucket
    ensures g in Chunk(bucket, cap, ChunkOf(bucket, cap, g))
  {
    var i := IndexOf(bucket, g);
    IndexInChunk(i, i / cap, cap);
    assert Chunk(bucket, cap, i / cap)[i - i / cap * cap] == g;
  }

  /** Gathers the files by key, in order. */
  method FillBuckets(files: seq<string>, key: string -> string) returns (buckets: map<string, seq<string>>)
    ensures forall k :: k in buckets <==> Bucket(files, key, k) != []
    ensures forall k :: k in buckets ==> buckets[k] == Bucket(files, key, k)
  {
    buckets := map[];
    for i := 0 to |files|
      invariant forall k :: k in buckets <==> Bucket(files[..i], key, k) != []
      invariant forall k :: k in buckets ==> buckets[k] == Bucket(files[..i], key, k)
    {
      var f := files[i];
      assert files[..i + 1][..i] == files[..i];
      buckets := buckets[key(f) := (if key(f) in buckets then buckets[key(f)] else []) + [f]];
    }
    assert files[..|files|] == files;
  }

  // ---- Cutting a bucket into chunks ----

  lemma {:induction false} IndexIsPosition(files: seq<string>, i: nat)
    requires Distinct(files) && i < |files|
    ensures IndexOf(files, files[i]) == i
    decreases files
  {
    if i > 0 {
      IndexIsPosition(files[1..], i - 1);
    }
  }

  lemma DivisionOf(i: nat, c: nat, cap: nat)
    requires cap > 0
    ensures i / cap == c <==> c * cap <= i < c * cap + cap
  {
    var q := i / cap;
    IndexInChunk(i, q, cap);
    MulMonotone(q + 1, c, cap);
    MulMonotone(c + 1, q, cap);
  }

  lemma MulMonotone(a: nat, b: nat, cap: nat)
    ensures a <= b ==> a * cap <= b * cap
  {
    if a <= b {
      assert b * cap == a * cap + (b - a) * cap;
    }
  }

  lemma ChunkHoldsExactly(bucket: seq<string>, cap: nat, c: nat, f: string)
    requires cap > 0 && Distinct(bucket)
    ensures f in Chunk(bucket, cap, c) <==> f in bucket && ChunkOf(bucket, cap, f) == c
  {
    var chunk := Chunk(bucket, cap, c);
    if f in chunk {
      var j :| 0 <= j < |chunk| && chunk[j] == f;
      assert bucket[c * cap + j] == f;
      IndexIsPosition(bucket, c * cap + j);
      DivisionOf(c * cap + j, c, cap);
    }
    if f in bucket && ChunkOf(bucket, cap, f) == c {
      InItsChunk(bucket, cap, f);
    }
  }

  lemma ChunkDistinct(bucket: seq<string>, cap: nat, c: nat)
    requires cap > 0 && Distinct(bucket)
    ensures Distinct(Chunk(bucket, cap, c))
  {
    var chunk := Chunk(bucket, cap, c);
    forall i, j | 0 <= i < j < |chunk|
      ensures chunk[i] != chunk[j]
    {
      assert chunk[i] == bucket[c * cap + i] && chunk[j] == bucket[c * cap + j];
    }
  }

  type Groups = map<string, seq<string>>

  predicate Holds(groups: Groups, g: string, f: string) {
    g in groups && f in groups[g]
  }

  /** No group is empty, oversized or lists a file twice. */
  ghost predicate Capped(groups: Groups, cap: nat) {
    forall g :: g in groups ==> groups[g] != [] && |groups[g]| <= cap && Distinct(groups[g])
  }

  /** What cutting `names` adds to `groups`, up to chunk `c`. */
  ghost predicate CutUpTo(
    before: Groups, groups: Groups, names: seq<string>, k: string, cap: nat, offset: nat, c: nat)
    requires cap > 0
  {
    forall g, f :: Holds(groups, g, f) <==>
      Holds(before, g, f) ||
      (f in names && ChunkOf(names, cap, f) < c && g == ChunkName(k, ChunkOf(names, cap, f) + offset))
  }

  lemma CutOneMore(
    before: Groups, groups: Groups, names: seq<string>, k: string, cap: nat, offset: nat, c: nat)
    requires cap > 0 && Distinct(names) && '_' !in k && c * cap < |names|
    requires CutUpTo(before, groups, names, k, cap, offset, c) && Capped(groups, cap)
    requires forall g, f :: Holds(before, g, f) ==> g != ChunkName(k, c + offset)
    ensures var after := groups[ChunkName(k, c + offset) := Chunk(names, cap, c)];
            CutUpTo(before, after, names, k, cap, offset, c + 1) && Capped(after, cap)
  {
    ChunkDistinct(names, cap, c);
    assert Chunk(names, cap, c) != [];
    hide Chunk, ChunkOf, ChunkName, CutUpTo;
    CutHolds(before, groups, names, k, cap, offset, c);
  }

  lemma CutHolds(
    before: Groups, groups: Groups, names: seq<string>, k: string, cap: nat, offset: nat, c: nat)
    requires cap > 0 && Distinct(names) && '_' !in k && c * cap < |names|
    requires CutUpTo(before, groups, names, k, cap, offset, c)
    requires forall g, f :: Holds(before, g, f) ==> g != ChunkName(k, c + offset)
    ensures CutUpTo(before, groups[ChunkName(k, c + offset) := Chunk(names, cap, c)], names, k, cap, offset, c + 1)
  {
    var name := ChunkName(k, c + offset);
    var after := groups[name := Chunk(names, cap, c)];
    forall n: nat
      ensures ChunkName(k, n) == name <==> n == c + offset
    {
      if ChunkName(k, n) == name {
        ChunkNamesApart(k, n, c + offset);
      }
    }
    hide Chunk, ChunkOf, ChunkName, Distinct;
    forall g, f
      ensures Holds(after, g, f) <==> Holds(groups, g, f) || (g == name && f in names && ChunkOf(names, cap, f) == c)
    {
      ChunkHoldsExactly(names, cap, c, f);
      assert !Holds(before, name, f);
      if f in names && ChunkOf(names, cap, f) < c {
        assert ChunkName(k, ChunkOf(names, cap, f) + offset) != name;
      }
      assert !Holds(groups, name, f);
    }
  }

  lemma ChunkNamesApart(k: string, m: nat, n: nat)
    requires '_' !in k && ChunkName(k, m) == ChunkName(k, n)
    ensures m == n
  {
    FirstUnderscore(k, Digits(m), k, Digits(n));
    DigitsAreExact(m, n);
  }

  lemma ChunkFrom(names: seq<string>, cap: nat, c: nat, i: nat)
    requires cap > 0 && i == c * cap && i < |names|
    ensures Chunk(names, cap, c) == if i + cap <= |names| then names[i..i + cap] else names[i..]
  {
  }

  /** Adds the chunks of `names`, one after the other. */
  method AddChunks(before: Groups, names: seq<string>, k: string, cap: nat, offset: nat) returns (groups: Groups)
    requires cap > 0 && Distinct(names) && '_' !in k
    requires Capped(before, cap)
    requires forall n: nat, g, f :: Holds(before, g, f) ==> g != ChunkName(k, n)
    ensures Capped(groups, cap)
    ensures forall g, f :: Holds(groups, g, f) <==>
              Holds(before, g, f) || (f in names && g == ChunkName(k, ChunkOf(names, cap, f) + offset))
  {
    hide Chunk, ChunkOf, ChunkName;
    groups := before;
    var i := 0;
    ghost var c := 0;
    while i < |names|
      invariant i == c * cap
      invariant CutUpTo(before, groups, names, k, cap, offset, c) && Capped(groups, cap)
      decreases |names| - i
    {
      assert i / cap == c by {
        DivisionOf(i, c, cap);
      }
      var chunk := if i + cap <= |names| then names[i..i + cap] else names[i..];
      ChunkFrom(names, cap, c, i);
      CutOneMore(before, groups, names, k, cap, offset, c);
      groups := groups[ChunkName(k, i / cap + offset) := chunk];
      i := i + cap;
      c := c + 1;
    }
    forall f | f in names
      ensures ChunkOf(names, cap, f) < c
    {
      ChunkBelow(names, cap, f, c);
    }
  }

  lemma ChunkBelow(names: seq<string>, cap: nat, f: string, c: nat)
    requires cap > 0 && f in names && c * cap >= |names|
    ensures ChunkOf(names, cap, f) < c
  {
    var i := IndexOf(names, f);
    IndexInChunk(i, i / cap, cap);
    MulMonotone(c, i / cap, cap);
  }

  // ---- The directory splitter ----

  /** Every file is in exactly one group, the one of its target. */
  ghost predicate IsGrouping(
    files: seq<string>, key: string -> string, cap: nat, offset: nat, done: set<string>, groups: Groups)
    requires cap > 0
  {
    forall g, f :: Holds(groups, g, f) <==>
      f in files && key(f) in done && g == TargetOf(files, key, cap, offset, f)
  }

  /** Groups made so far do not get in the way of another key. */
  lemma GroupsApart(
    files: seq<string>, key: string -> string, cap: nat, offset: nat, done: set<string>, groups: Groups, k: string)
    requires cap > 0 && IsGrouping(files, key, cap, offset, done, groups) && k !in done && '_' !in k
    requires forall f :: f in files ==> '_' !in key(f)
    ensures forall g, f :: Holds(groups, g, f) ==> g != k
    ensures forall n: nat, g, f :: Holds(groups, g, f) ==> g != ChunkName(k, n)
  {
    forall g, f, chunked: bool, n: nat | Holds(groups, g, f)
      ensures g != NameFor(k, chunked, n)
    {
      TargetIsName(files, key, cap, offset, f);
      var bucket := Bucket(files, key, key(f));
      if g == NameFor(k, chunked, n) {
        NamesApart(key(f), |bucket| > cap, ChunkOf(bucket, cap, f) + offset, k, chunked, n);
      }
    }
    forall g, f | Holds(groups, g, f)
      ensures g != k
    {
      assert g != NameFor(k, false, 0);
    }
    forall g, f, n: nat | Holds(groups, g, f)
      ensures g != ChunkName(k, n)
    {
      assert g != NameFor(k, true, n);
    }
  }

  method HeuristicGroups(stems: seq<string>, cap: nat) returns (groups: Groups)
    requires cap > 0 && Distinct(stems)
    ensures Capped(groups, cap)
    ensures forall g, f :: Holds(groups, g, f) <==> f in stems && g == TargetOf(stems, ModuleKey, cap, 1, f)
  {
    var buckets := FillBuckets(stems, ModuleKey);
    groups := map[];
    var keys := buckets.Keys;
    ghost var done: set<string> := {};
    while keys != {}
      invariant keys !! done && keys + done == buckets.Keys
      invariant Capped(groups, cap) && IsGrouping(stems, ModuleKey, cap, 1, done, groups)
      decreases keys
    {
      var k :| k in keys;
      keys := keys - {k};
      var names := buckets[k];
      KeyOfBucket(stems, ModuleKey, k);
      BucketDistinct(stems, ModuleKey, k);
      BucketMembers(stems, ModuleKey, k);
      GroupsApart(stems, ModuleKey, cap, 1, done, groups, k);
      ghost var before := groups;
      hide IsGrouping, ModuleKey, Bucket, ChunkOf, ChunkName;
      if |names| <= cap {
        groups := groups[k := names];
      } else {
        groups := AddChunks(groups, names, k, cap, 1);
      }
      OneKeyMore(stems, ModuleKey, cap, 1, done, before, groups, k);
      done := done + {k};
    }
    hide Capped, Bucket, ModuleKey, TargetOf, Distinct;
    forall f | f in stems
      ensures ModuleKey(f) in done
    {
      InItsBucket(stems, ModuleKey, f);
    }
  }

  lemma InItsBucket(files: seq<string>, key: string -> string, f: string)
    requires f in files
    ensures Bucket(files, key, key(f)) != []
  {
    BucketMembers(files, key, key(f));
    assert f in Bucket(files, key, key(f));
  }

  lemma KeyOfBucket(files: seq<string>, key: string -> string, k: string)
    requires Bucket(files, key, k) != [] && forall f :: f in files ==> '_' !in key(f)
    ensures '_' !in k
  {
    BucketMembers(files, key, k);
    assert Bucket(files, key, k)[0] in Bucket(files, key, k);
  }

  lemma OneKeyMore(
    files: seq<string>, key: string -> string, cap: nat, offset: nat, done: set<string>,
    before: Groups, groups: Groups, k: string)
    requires cap > 0 && k !in done && IsGrouping(files, key, cap, offset, done, before)
    requires var names := Bucket(files, key, k);
             forall g, f :: Holds(groups, g, f) <==>
               Holds(before, g, f) ||
               (f in names && g == if |names| <= cap then k else ChunkName(k, ChunkOf(names, cap, f) + offset))
    ensures IsGrouping(files, key, cap, offset, done + {k}, groups)
  {
    BucketMembers(files, key, k);
    hide Bucket, ChunkOf, ChunkName, TargetOf, Holds;
    forall g, f
      ensures Holds(groups, g, f) <==>
              f in files && key(f) in done + {k} && g == TargetOf(files, key, cap, offset, f)
    {
      if f in files {
        TargetIsName(files, key, cap, offset, f);
      }
    }
  }

  /** Every file moves exactly once, and to its target. */
  ghost predicate IsPlan(
    files: seq<string>, key: string -> string, cap: nat, offset: nat, moves: seq<(string, string)>)
    requires cap > 0
  {
    && |moves| == |files|
    && Elements(moves) == set f | f in files :: (f, TargetOf(files, key, cap, offset, f))
  }

  type Moves = seq<(string, string)>

  lemma PlanFromMembers(files: seq<string>, key: string -> string, cap: nat, offset: nat, moves: Moves)
    requires cap > 0 && Distinct(files) && Distinct(moves)
    requires forall f, g :: (f, g) in moves <==> f in files && g == TargetOf(files, key, cap, offset, f)
    ensures IsPlan(files, key, cap, offset, moves)
  {
    var pairs: Moves :=
      seq(|files|, i requires 0 <= i < |files| => (files[i], TargetOf(files, key, cap, offset, files[i])));
    forall f, g
      ensures (f, g) in pairs <==> f in files && g == TargetOf(files, key, cap, offset, f)
    {
      if f in files && g == TargetOf(files, key, cap, offset, f) {
        var i :| 0 <= i < |files| && files[i] == f;
        assert pairs[i] == (f, g);
      }
    }
    hide TargetOf;
    assert Elements(pairs) == Elements(moves) by {
      forall m
        ensures m in pairs <==> m in moves
      {
        assert m == (m.0, m.1);
      }
    }
    ElementsAtMost(pairs);
    ElementsAtMost(moves);
    assert Elements(moves) == set f | f in files :: (f, TargetOf(files, key, cap, offset, f));
  }

  lemma AppendDistinct<T>(xs: seq<T>, x: T)
    requires Distinct(xs) && x !in xs
    ensures Distinct(xs + [x])
  {
  }

  /** The moves out of one directory. Every file is assigned by the grouping, so the branch
      for files left over has nothing to do. */
  method CollectMoves(stems: seq<string>, cap: nat) returns (moves: Moves)
    requires cap > 0 && Distinct(stems)
    ensures |stems| <= cap ==> moves == []
    ensures |stems| > cap ==> IsPlan(stems, ModuleKey, cap, 1, moves)
  {
    moves := [];
    if |stems| <= cap {
      return;
    }
    var groups := HeuristicGroups(stems, cap);
    hide TargetOf, ModuleKey;
    var missing := set f | f in stems && forall g :: g in groups ==> f !in groups[g];
    assert missing == {} by {
      forall f | f in stems
        ensures f !in missing
      {
        assert Holds(groups, TargetOf(stems, ModuleKey, cap, 1, f), f);
      }
    }
    var subdirs := groups.Keys;
    while subdirs != {}
      invariant subdirs <= groups.Keys && Distinct(moves)
      invariant forall f, g :: (f, g) in moves <==> Holds(groups, g, f) && g !in subdirs
      decreases subdirs
    {
      var sub :| sub in subdirs;
      subdirs := subdirs - {sub};
      ghost var before := moves;
      for i := 0 to |groups[sub]|
        invariant Distinct(moves)
        invariant forall f, g :: (f, g) in moves <==> (f, g) in before || (g == sub && f in groups[sub][..i])
      {
        var name := groups[sub][i];
        assert groups[sub][..i + 1] == groups[sub][..i] + [name];
        assert (name, sub) !in moves;
        AppendDistinct(moves, (name, sub));
        moves := moves + [(name, sub)];
      }
      assert groups[sub][..|groups[sub]|] == groups[sub];
    }
    PlanFromMembers(stems, ModuleKey, cap, 1, moves);
  }

  // ---- The test organiser ----

  const MAX_PER_DIR: nat := 5

  lemma NewAt<T>(xs: seq<T>, i: nat)
    requires Distinct(xs) && i < |xs|
    ensures xs[i] !in xs[..i] && xs[..i + 1] == xs[..i] + [xs[i]]
  {
  }

  /** The moves for one bucket. */
  method AddBucketMoves(before: Moves, group: seq<string>, k: string) returns (moves: Moves)
    requires Distinct(before) && Distinct(group)
    requires forall f, g :: f in group ==> (f, g) !in before
    ensures Distinct(moves)
    ensures forall f, g :: (f, g) in moves <==>
              (f, g) in before ||
              (f in group && g == NameFor(k, |group| > MAX_PER_DIR, ChunkOf(group, MAX_PER_DIR, f)))
  {
    moves := before;
    for i := 0 to |group|
      invariant Distinct(moves)
      invariant forall f, g :: (f, g) in moves <==>
        (f, g) in before ||
        (f in group[..i] && g == NameFor(k, |group| > MAX_PER_DIR, ChunkOf(group, MAX_PER_DIR, f)))
    {
      var src := group[i];
      var sub := if |group| <= MAX_PER_DIR then k else ChunkName(k, i / MAX_PER_DIR);
      IndexIsPosition(group, i);
      assert sub == NameFor(k, |group| > MAX_PER_DIR, ChunkOf(group, MAX_PER_DIR, src));
      hide *;
      NewAt(group, i);
      assert (src, sub) !in moves;
      AppendDistinct(moves, (src, sub));
      moves := moves + [(src, sub)];
    }
    assert group[..|group|] == group;
  }

  method PlanTestMoves(files: seq<string>) returns (moves: Moves)
    requires Distinct(files)
    ensures IsPlan(files, TestKey, 5, 0, moves)
  {
    var buckets := FillBuckets(files, TestKey);
    forall f | f in files
      ensures TestKey(f) in buckets.Keys
    {
      BucketMembers(files, TestKey, TestKey(f));
      assert f in Bucket(files, TestKey, TestKey(f));
    }
    hide TargetOf, TestKey, NameFor, ChunkOf;
    moves := [];
    var keys := buckets.Keys;
    while keys != {}
      invariant keys <= buckets.Keys && Distinct(moves)
      invariant forall f, g :: (f, g) in moves <==>
        f in files && TestKey(f) !in keys && g == TargetOf(files, TestKey, MAX_PER_DIR, 0, f)
      decreases keys
    {
      var k :| k in keys;
      keys := keys - {k};
      var group := buckets[k];
      BucketMembers(files, TestKey, k);
      BucketDistinct(files, TestKey, k);
      forall f | f in group
        ensures TargetOf(files, TestKey, MAX_PER_DIR, 0, f) ==
                NameFor(k, |group| > MAX_PER_DIR, ChunkOf(group, MAX_PER_DIR, f))
      {
        TargetIsName(files, TestKey, MAX_PER_DIR, 0, f);
      }
      hide Bucket;
      moves := AddBucketMoves(moves, group, k);
    }
    PlanFromMembers(files, TestKey, MAX_PER_DIR, 0, moves);
  }

  /** In any plan no target receives more than the cap. */
  lemma PlansRespectCap(
    files: seq<string>, key: string -> string, cap: nat, offset: nat, moves: Moves, target: string)
    requires cap > 0 && forall f :: f in files ==> '_' !in key(f)
    requires IsPlan(files, key, cap, offset, moves)
    ensures |set m | m in moves && m.1 == target| <= cap
  {
    NoTargetOverflows(files, key, cap, offset, target);
    var sent := SentTo(files, key, cap, offset, target);
    var received := set m | m in moves && m.1 == target;
    forall m | m in received
      ensures m.0 in sent && m == (m.0, target)
    {
      assert m in Elements(moves);
    }
    hide IsPlan, SentTo;
    Projected(received, sent, target);
  }

  lemma {:induction false} Projected(pairs: set<(string, string)>, firsts: set<string>, second: string)
    requires forall m :: m in pairs ==> m.0 in firsts && m == (m.0, second)
    ensures |pairs| <= |firsts|
    decreases pairs
  {
    if pairs != {} {
      var m :| m in pairs;
      Projected(pairs - {m}, firsts - {m.0}, second);
    }
  }
}
