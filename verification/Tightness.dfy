/** For every number of modules there is a patch set that needs the full number of calls. */
module Tightness {
  import opened Convergence
  import opened OneCall
  import opened PatchTypes
  import opened Reconciling
  import opened Sequences

  // Module i looks for its marker in file i + 1 and also declares file i, the check file of
  // the module before it. The last source has changed. The first call takes away the marker
  // of the last module only; each further call resets one module and, by restoring what that
  // module declares, takes away the marker of the one before, which was handled already.

  function File(i: nat): Path {
    seq(i + 1, _ => 'f')
  }

  function Name(i: nat): string {
    seq(i + 1, _ => 'p')
  }

  function Link(i: nat): PatchModule {
    PatchModule(PatchMeta(Name(i), [File(i + 1), File(i)], [], "", "M"), "new", _ => Return(false), 0)
  }

  function Chain(n: nat): seq<PatchModule> {
    seq(n, i requires 0 <= i < n => Link(i))
  }

  function Files(n: nat): set<Path> {
    set i | 0 <= i <= n :: File(i)
  }

  function ChainUpstream(n: nat): Tree {
    map rel | rel in Files(n) :: "0"
  }

  /** After `k` calls the last `k` files are upstream's; the others hold the marker. */
  function ChainTree(n: nat, k: nat): Tree {
    map rel | rel in Files(n) :: if |rel| + k >= n + 2 then "0" else "M"
  }

  predicate WasReset(n: nat, k: nat, i: nat) {
    k > 0 && (i + k > n || i + 1 == n)
  }

  function ChainEntry(n: nat, k: nat, i: nat): PatchEntry {
    if WasReset(n, k, i) then PatchEntry(Name(i), "pending", "new", [])
    else PatchEntry(Name(i), "applied", if i + 1 == n then "old" else "new", [File(i + 1)])
  }

  const FIRST_FILE_OWNER: PatchEntry := PatchEntry("q", "applied", "sha", [File(0)])

  function ChainPatches(n: nat, k: nat): Patches {
    map name | name in (set i | 0 <= i < n :: Name(i)) + {"q"} ::
      if name == "q" then FIRST_FILE_OWNER else ChainEntry(n, k, if |name| > 0 then |name| - 1 else 0)
  }

  /** The state after `k` calls. */
  function ChainWorld(n: nat, k: nat): World {
    World(ChainTree(n, k), ChainPatches(n, k))
  }

  lemma ChainLookup(n: nat, k: nat, i: nat)
    ensures i < n ==> Name(i) in ChainPatches(n, k) && ChainPatches(n, k)[Name(i)] == ChainEntry(n, k, i)
    ensures i <= n ==> File(i) in ChainTree(n, k) && ChainTree(n, k)[File(i)] == if i + k > n then "0" else "M"
    ensures i <= n ==> File(i) in ChainUpstream(n)
  {
    assert Name(i)[0] != "q"[0];
    assert |Name(i)| == i + 1 && |File(i)| == i + 1;
  }

  lemma NotThere()
    ensures Contains("M", "M") && !Contains("0", "M")
  {
    var yes, no := "M", "0";
    assert yes[0..] == "M";
    forall i | 0 <= i <= |no|
      ensures !("M" <= no[i..])
    {
      if i == 0 {
        assert no[i..] == no && no[0] != "M"[0];
      }
    }
  }

  lemma LinkMarker(n: nat, k: nat, i: nat)
    requires i < n
    ensures MarkerLost(ChainTree(n, k), Link(i).meta) <==> i + 1 + k > n
    ensures ShaChanged(ChainPatches(n, k), Link(i)) <==> k == 0 && i + 1 == n
  {
    NotThere();
    ChainLookup(n, k, i + 1);
    ChainLookup(n, k, i);
    hide Contains, ChainTree, ChainPatches;
    assert CheckFile(Link(i).meta) == File(i + 1);
  }

  /** Earlier modules still have their marker, later ones have nothing left to reset. */
  lemma LinkSettled(n: nat, k: nat, i: nat)
    requires i < n && (k > 0 || i + 1 < n) && i + k != n
    ensures Settled(ChainUpstream(n), ChainWorld(n, k), Link(i))
  {
    LinkMarker(n, k, i);
    ChainLookup(n, k, i);
    ChainLookup(n, k, i + 1);
    hide ChainTree, ChainPatches, MarkerLost, ShaChanged, Files, File, Name;
    if i + k > n {
      assert forall rel :: rel in Link(i).meta.files ==> rel == File(i) || rel == File(i + 1);
      assert AtUpstream(ChainUpstream(n), ChainTree(n, k), Link(i).meta.files);
    }
  }

  /** The module that call `k + 1` changes. */
  function Turn(n: nat, k: nat): nat
    requires k <= n && n > 0
  {
    if k == 0 then n - 1 else n - k
  }

  lemma TurnTree(n: nat, k: nat)
    requires k <= n && n > 0
    ensures var rels := if k == 0 then {File(n)} else {File(Turn(n, k) + 1), File(Turn(n, k))};
            RestoreFrom(ChainUpstream(n), ChainTree(n, k), rels) == ChainTree(n, k + 1)
  {
  }

  lemma TurnPatches(n: nat, k: nat)
    requires k <= n && n > 0
    ensures var i := Turn(n, k);
            ChainPatches(n, k)[Name(i) := PatchEntry(Name(i), "pending", "new", [])] == ChainPatches(n, k + 1)
  {
    var i := Turn(n, k);
    ChainLookup(n, k, i);
    ChainLookup(n, k + 1, i);
    var before, next := ChainPatches(n, k), ChainPatches(n, k + 1);
    assert before.Keys == next.Keys && before["q"] == next["q"];
    forall name | name in before && name != "q" && name != Name(i)
      ensures before[name] == next[name]
    {
      var j :| 0 <= j < n && name == Name(j);
      hide ChainPatches, Name, File;
      ChainLookup(n, k, j);
      ChainLookup(n, k + 1, j);
      assert j != i;
    }
    hide *;
  }

  lemma TurnRestores(n: nat, k: nat)
    requires k <= n && n > 0
    ensures var i := Turn(n, k);
            ToRestore(ChainUpstream(n), ChainWorld(n, k), false, Link(i)) ==
            if k == 0 then {File(n)} else {File(i + 1), File(i)}
  {
    var i := Turn(n, k);
    LinkMarker(n, k, i);
    ChainLookup(n, k, i);
    LinkFiles(i);
    hide ChainTree, ChainPatches, MarkerLost, ShaChanged, File, Name, Elements;
  }

  lemma LinkFiles(i: nat)
    ensures Elements(Link(i).meta.files) == {File(i + 1), File(i)}
    ensures Elements([File(i + 1)]) == {File(i + 1)} && Elements<Path>([]) == {}
  {
    hide File;
    assert Link(i).meta.files[0] == File(i + 1) && Link(i).meta.files[1] == File(i);
    assert [File(i + 1)][0] == File(i + 1);
  }

  lemma TurnStep(n: nat, k: nat)
    requires k <= n && n > 0
    ensures ReconcileModule(ChainUpstream(n), ChainWorld(n, k), false, Link(Turn(n, k))) == ChainWorld(n, k + 1)
  {
    var i := Turn(n, k);
    LinkMarker(n, k, i);
    ChainLookup(n, k, i);
    TurnRestores(n, k);
    TurnTree(n, k);
    TurnPatches(n, k);
    hide ChainTree, ChainPatches, MarkerLost, ShaChanged, ToRestore, RestoreFrom, File, Name, ChainUpstream;
  }

  lemma ChainNames(n: nat)
    ensures |Chain(n)| == n
    ensures DistinctNames(Chain(n)) && ChainPatches(n, 0).Keys == Names(Chain(n)) + {"q"}
  {
    assert forall i: nat :: |Name(i)| == i + 1;
    hide Name, File;
    assert forall i :: 0 <= i < n ==> Chain(n)[i].meta.name == Name(i);
    assert Names(Chain(n)) == set i | 0 <= i < n :: Name(i);
  }

  lemma ChainSplits(n: nat, k: nat)
    requires k <= n && n > 0
    ensures var (modules, i) := (Chain(n), Turn(n, k));
            && modules == modules[..i] + ([Link(i)] + modules[i + 1..])
            && AllSettled(ChainUpstream(n), ChainWorld(n, k), modules[..i])
            && AllSettled(ChainUpstream(n), ChainWorld(n, k + 1), modules[i + 1..])
  {
    hide ChainWorld, ChainUpstream, Settled;
    ChainParts(n, Turn(n, k));
    var front, back := Chain(n)[..Turn(n, k)], Chain(n)[Turn(n, k) + 1..];
    hide Link, Chain;
    forall j | 0 <= j < |front|
      ensures Settled(ChainUpstream(n), ChainWorld(n, k), front[j])
    {
      LinkSettled(n, k, j);
    }
    forall j | 0 <= j < |back|
      ensures Settled(ChainUpstream(n), ChainWorld(n, k + 1), back[j])
    {
      LinkSettled(n, k + 1, Turn(n, k) + 1 + j);
    }
  }

  lemma ChainParts(n: nat, i: nat)
    requires i < n
    ensures var (front, back) := (Chain(n)[..i], Chain(n)[i + 1..]);
            && Chain(n) == front + ([Link(i)] + back)
            && (forall j :: 0 <= j < |front| ==> front[j] == Link(j))
            && (forall j :: 0 <= j < |back| ==> back[j] == Link(i + 1 + j))
  {
    hide Link;
  }

  /** One whole call. */
  lemma ChainCall(n: nat, k: nat)
    requires k <= n && n > 0
    ensures Reconciled(ChainUpstream(n), ChainWorld(n, k), Chain(n), {"q"}) == ChainWorld(n, k + 1)
  {
    var (upstream, w, modules, i) := (ChainUpstream(n), ChainWorld(n, k), Chain(n), Turn(n, k));
    ChainSplits(n, k);
    ChainNames(n);
    assert ChainPatches(n, k).Keys == ChainPatches(n, 0).Keys;
    assert w.patches.Keys == Names(modules) + {"q"} && "q" in w.patches;
    hide Chain, ChainWorld, ChainUpstream, Link, AllSettled, ReconcileModule, Turn, Names, Swept, Sweepable;
    NoOrphansToSweep(upstream, w, modules, {"q"});
    var front, back := modules[..i], modules[i + 1..];
    SettledModulesStay(upstream, w, false, front);
    SettledModulesStay(upstream, ChainWorld(n, k + 1), false, back);
    HandleInTwoParts(upstream, w, false, front, [Link(i)] + back);
    assert ([Link(i)] + back)[1..] == back;
    TurnStep(n, k);
  }

  lemma {:induction false} ChainCalls(n: nat, start: nat, k: nat)
    requires n > 0 && start + k <= n + 1
    ensures Iterate(ChainUpstream(n), ChainWorld(n, start), Chain(n), {"q"}, k) == ChainWorld(n, start + k)
    decreases k
  {
    hide ChainWorld, ChainUpstream, Chain, Reconciled;
    if k > 0 {
      ChainCall(n, start);
      ChainCalls(n, start + 1, k - 1);
    }
  }

  lemma ChainMoves(n: nat, k: nat)
    requires k <= n
    ensures ChainWorld(n, k) != ChainWorld(n, k + 1)
  {
    ChainLookup(n, k, n - k);
    ChainLookup(n, k + 1, n - k);
    hide *;
  }

  /** All files that diverge at the start have their owner on record. */
  lemma ChainStartsOwned(n: nat)
    requires n > 0
    ensures Owned(ChainUpstream(n), ChainWorld(n, 0))
  {
    var w := ChainWorld(n, 0);
    forall rel | rel in Files(n)
      ensures rel in WrittenFiles(w.patches)
    {
      FileHasOwner(n, rel);
    }
    hide Files, WrittenFiles, ChainPatches, IsIgnored;
  }

  lemma FileHasOwner(n: nat, rel: Path)
    requires n > 0 && rel in Files(n)
    ensures rel in WrittenFiles(ChainPatches(n, 0))
  {
    var i :| 0 <= i <= n && rel == File(i);
    assert "q" in ChainPatches(n, 0) && ChainPatches(n, 0)["q"] == FIRST_FILE_OWNER;
    hide File, Name, ChainPatches;
    var name := if i == 0 then "q" else Name(i - 1);
    if i > 0 {
      ChainLookup(n, 0, i - 1);
      assert ChainPatches(n, 0)[name].written == [rel];
    } else {
      assert ChainPatches(n, 0)[name].written == [rel];
    }
    assert rel in ChainPatches(n, 0)[name].written;
  }

  lemma MovingIsNotFixed(upstream: Tree, w: World, modules: seq<PatchModule>, failed: set<string>)
    ensures Fixed(upstream, w, modules, failed) ==> Reconciled(upstream, w, modules, failed) == w
  {
  }

  lemma NotYetFixed(n: nat, k: nat)
    requires n > 0 && k <= n
    ensures !Fixed(ChainUpstream(n), Iterate(ChainUpstream(n), ChainWorld(n, 0), Chain(n), {"q"}, k), Chain(n), {"q"})
  {
    hide *;
    MovingIsNotFixed(ChainUpstream(n), ChainWorld(n, k), Chain(n), {"q"});
    ChainCalls(n, 0, k);
    ChainCall(n, k);
    ChainMoves(n, k);
  }

  /** For every number n of modules, an owned state from which no number of calls below the
      bound n + 1 reaches a fixed point. */
  lemma BoundIsTight(n: nat)
    requires n > 0
    ensures DistinctNames(Chain(n)) && |Chain(n)| == n && CallBound(Chain(n)) == n + 1
    ensures Owned(ChainUpstream(n), ChainWorld(n, 0))
    ensures forall k: nat :: k <= n ==>
              !Fixed(ChainUpstream(n), Iterate(ChainUpstream(n), ChainWorld(n, 0), Chain(n), {"q"}, k), Chain(n), {"q"})
  {
    ChainNames(n);
    assert CallBound(Chain(n)) == n + 1;
    hide *;
    ChainStartsOwned(n);
    forall k: nat | k <= n
      ensures !Fixed(ChainUpstream(n), Iterate(ChainUpstream(n), ChainWorld(n, 0), Chain(n), {"q"}, k), Chain(n), {"q"})
    {
      NotYetFixed(n, k);
    }
  }

  /** One module, whose source changed. Nothing but itself can restore its check file, yet
      the first call only resets what it wrote, and the second finds its marker gone. */
  lemma SourceChangeNeedsTwoCalls()
    ensures var (upstream, w, modules) := (ChainUpstream(1), ChainWorld(1, 0), Chain(1));
            && Owned(upstream, w)
            && CheckFilesApart(w.patches, modules)
            && !Fixed(upstream, Reconciled(upstream, w, modules, {"q"}), modules, {"q"})
  {
    hide *;
    var w := ChainWorld(1, 0);
    ChainNames(1);
    LoneIsApart(w.patches, Chain(1));
    IterateOnce(ChainUpstream(1), w, Chain(1), {"q"});
    ChainStartsOwned(1);
    NotYetFixed(1, 1);
  }

  lemma LoneIsApart(patches: Patches, modules: seq<PatchModule>)
    requires |modules| <= 1
    ensures CheckFilesApart(patches, modules)
  {
  }

  lemma IterateOnce(upstream: Tree, w: World, modules: seq<PatchModule>, failed: set<string>)
    ensures Iterate(upstream, w, modules, failed, 1) == Reconciled(upstream, w, modules, failed)
  {
    var once := Reconciled(upstream, w, modules, failed);
    hide Reconciled;
    assert Iterate(upstream, once, modules, failed, 0) == once;
  }
}
