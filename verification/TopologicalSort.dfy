/** Dependency order of patches: a depth-first search that raises on a cycle. */
module TopologicalSort {
  import opened PatchTypes
  import opened Sequences

  type ByName = map<string, PatchModule>

  function Index(modules: seq<PatchModule>): (byName: ByName)
    ensures byName.Keys == Names(modules)
    ensures forall name :: name in byName ==> byName[name] in modules && byName[name].meta.name == name
  {
    if modules == [] then map[]
    else
      var last := modules[|modules| - 1];
      assert modules == modules[..|modules| - 1] + [last];
      Index(modules[..|modules| - 1])[last.meta.name := last]
  }

  /** `a` depends directly on `b`, and both are known. */
  predicate Edge(byName: ByName, a: string, b: string) {
    a in byName && b in byName && b in byName[a].meta.dependsOn
  }

  predicate IsPath(byName: ByName, path: seq<string>) {
    forall i :: 0 <= i < |path| - 1 ==> Edge(byName, path[i], path[i + 1])
  }

  predicate IsCycle(byName: ByName, path: seq<string>) {
    |path| > 1 && path[0] == path[|path| - 1] && IsPath(byName, path)
  }

  ghost predicate HasCycle(byName: ByName) {
    exists path :: IsCycle(byName, path)
  }

  function NamesOf(modules: seq<PatchModule>): seq<string> {
    seq(|modules|, i requires 0 <= i < |modules| => modules[i].meta.name)
  }

  /** Each name once, each with the module the index holds, and every known direct
      dependency of a listed module listed before it. */
  ghost predicate DependencyOrder(byName: ByName, order: seq<PatchModule>) {
    && (forall i :: 0 <= i < |order| ==> order[i].meta.name in byName && order[i] == byName[order[i].meta.name])
    && DistinctNames(order)
    && (forall i, dep :: 0 <= i < |order| && Edge(byName, order[i].meta.name, dep) ==>
          exists j :: 0 <= j < i && order[j].meta.name == dep)
  }

  /** The `visited` and `result` that the nested `visit` function updates. */
  class Sorter {
    const byName: ByName
    var visited: set<string>
    var result: seq<PatchModule>

    constructor (byName: ByName)
      requires forall name :: name in byName ==> byName[name].meta.name == name
      ensures this.byName == byName && visited == {} && result == []
      ensures Valid()
    {
      this.byName := byName;
      visited := {};
      result := [];
    }

    ghost predicate Valid()
      reads this
    {
      && (forall name :: name in byName ==> byName[name].meta.name == name)
      && DependencyOrder(byName, result)
      && visited == Names(result)
    }

    /** Returns false where the source raises. `stack` is the path that led here. */
    method Visit(name: string, stack: seq<string>) returns (ok: bool)
      requires Valid()
      requires name in byName ==> IsPath(byName, stack + [name])
      requires forall s :: s in stack ==> s in byName && s !in visited
      modifies this
      ensures !ok ==> HasCycle(byName)
      ensures ok ==> Valid() && old(visited) <= visited && (name in byName ==> name in visited)
      ensures ok ==> forall s :: s in stack ==> s !in visited
      ensures ok ==> visited == Names(result)
      ensures ok && (name in old(visited) || name !in byName) ==> result == old(result)
      ensures ok && name !in old(visited) && name in byName &&
              (forall dep :: Edge(byName, name, dep) ==> dep in old(visited)) ==>
                result == old(result) + [byName[name]]
      decreases byName.Keys - Elements(stack)
    {
      if name in visited {
        return true;
      }
      if name in stack {
        CycleInStack(byName, stack, name);
        return false;
      }
      if name !in byName {
        return true;
      }
      var deps := byName[name].meta.dependsOn;
      assert Elements(stack + [name]) == Elements(stack) + {name};
      var i := 0;
      while i < |deps|
        invariant 0 <= i <= |deps|
        invariant Valid() && old(visited) <= visited
        invariant forall s :: s in stack + [name] ==> s !in visited
        invariant forall j :: 0 <= j < i && deps[j] in byName ==> deps[j] in visited
        invariant (forall dep :: Edge(byName, name, dep) ==> dep in old(visited)) ==> result == old(result)
      {
        assert deps[i] in byName ==> Edge(byName, name, deps[i]);
        PathGrows(byName, stack + [name], deps[i]);
        var fine := Visit(deps[i], stack + [name]);
        if !fine {
          return false;
        }
        i := i + 1;
      }
      Append(name);
      return true;
    }

    method Append(name: string)
      requires Valid() && name in byName && name !in visited
      requires forall dep :: Edge(byName, name, dep) ==> dep in visited
      modifies this
      ensures Valid() && visited == old(visited) + {name}
      ensures result == old(result) + [byName[name]]
    {
      visited := visited + {name};
      result := result + [byName[name]];
      AppendKeepsOrder(byName, old(result), name);
    }
  }

  lemma AppendKeepsOrder(byName: ByName, order: seq<PatchModule>, name: string)
    requires forall n :: n in byName ==> byName[n].meta.name == n
    requires DependencyOrder(byName, order) && name in byName && name !in Names(order)
    requires forall dep :: Edge(byName, name, dep) ==> dep in Names(order)
    ensures DependencyOrder(byName, order + [byName[name]])
    ensures Names(order + [byName[name]]) == Names(order) + {name}
  {
    var longer := order + [byName[name]];
    assert longer[|order|].meta.name == name;
    assert forall i :: 0 <= i < |order| ==> longer[i].meta.name == order[i].meta.name;
    forall i, dep | 0 <= i < |longer| && Edge(byName, longer[i].meta.name, dep)
      ensures exists j :: 0 <= j < i && longer[j].meta.name == dep
    {
      if i < |order| {
        var j :| 0 <= j < i && order[j].meta.name == dep;
        assert longer[j].meta.name == dep;
      } else {
        assert dep in Names(order);
        var j :| 0 <= j < |order| && order[j].meta.name == dep;
        assert longer[j].meta.name == dep;
      }
    }
  }

  lemma CycleInStack(byName: ByName, stack: seq<string>, name: string)
    requires name in stack && name in byName && IsPath(byName, stack + [name])
    ensures HasCycle(byName)
  {
    var k :| 0 <= k < |stack| && stack[k] == name;
    var path := (stack + [name])[k..];
    forall i | 0 <= i < |path| - 1
      ensures Edge(byName, path[i], path[i + 1])
    {
      assert Edge(byName, (stack + [name])[k + i], (stack + [name])[k + i + 1]);
    }
    assert IsCycle(byName, path);
  }

  lemma PathGrows(byName: ByName, path: seq<string>, next: string)
    requires path != [] && IsPath(byName, path)
    requires path[|path| - 1] in byName && next in byName[path[|path| - 1]].meta.dependsOn
    ensures next in byName ==> IsPath(byName, path + [next])
  {
    if next in byName {
      var longer := path + [next];
      forall i | 0 <= i < |longer| - 1
        ensures Edge(byName, longer[i], longer[i + 1])
      {
        if i < |path| - 1 {
          assert Edge(byName, path[i], path[i + 1]);
        }
      }
    }
  }

  ghost function Position(order: seq<PatchModule>, name: string): (i: nat)
    requires name in Names(order)
    ensures i < |order| && order[i].meta.name == name
  {
    var i :| 0 <= i < |order| && order[i].meta.name == name;
    i
  }

  /** Along a path of dependencies the position in an order only goes down. */
  lemma {:induction false} PathDescends(byName: ByName, order: seq<PatchModule>, path: seq<string>)
    requires DependencyOrder(byName, order) && byName.Keys == Names(order)
    requires |path| > 1 && IsPath(byName, path)
    ensures path[0] in byName && path[|path| - 1] in byName
    ensures Position(order, path[|path| - 1]) < Position(order, path[0])
  {
    var a, b := path[0], path[1];
    assert Edge(byName, a, b);
    var i := Position(order, a);
    var j :| 0 <= j < i && order[j].meta.name == b;
    assert Position(order, b) == j;
    if |path| > 2 {
      var rest := path[1..];
      assert forall k :: 0 <= k < |rest| - 1 ==> Edge(byName, rest[k], rest[k + 1]) by {
        forall k | 0 <= k < |rest| - 1
          ensures Edge(byName, rest[k], rest[k + 1])
        {
          assert Edge(byName, path[k + 1], path[k + 2]);
        }
      }
      PathDescends(byName, order, rest);
    }
  }

  /** An order of all known names exists only if there is no cycle. */
  lemma OrderedMeansAcyclic(byName: ByName, order: seq<PatchModule>)
    requires DependencyOrder(byName, order) && byName.Keys == Names(order)
    ensures !HasCycle(byName)
  {
    forall path | IsCycle(byName, path)
      ensures false
    {
      PathDescends(byName, order, path);
    }
  }

  /** In a list in dependency order the dependencies of each module stand before it. */
  lemma NextInOrder(byName: ByName, modules: seq<PatchModule>, i: nat)
    requires DependencyOrder(byName, modules) && i < |modules|
    ensures modules[i].meta.name in byName && byName[modules[i].meta.name] == modules[i]
    ensures modules[i].meta.name !in Names(modules[..i])
    ensures forall dep :: Edge(byName, modules[i].meta.name, dep) ==> dep in Names(modules[..i])
    ensures modules[..i + 1] == modules[..i] + [modules[i]]
  {
    forall dep | Edge(byName, modules[i].meta.name, dep)
      ensures dep in Names(modules[..i])
    {
      var j :| 0 <= j < i && modules[j].meta.name == dep;
      assert modules[..i][j] == modules[j];
    }
  }

  /** `ok` is false where the source raises SystemExit for a cyclic dependency. */
  method Sort(modules: seq<PatchModule>) returns (ok: bool, order: seq<PatchModule>)
    ensures ok <==> !HasCycle(Index(modules))
    ensures ok ==> DependencyOrder(Index(modules), order) && Names(order) == Names(modules)
    ensures DependencyOrder(Index(modules), modules) ==> ok && order == modules
  {
    hide HasCycle, DependencyOrder, Index;
    var byName := Index(modules);
    var sorter := new Sorter(byName);
    ghost var inOrder := DependencyOrder(byName, modules);
    var i := 0;
    while i < |modules|
      invariant 0 <= i <= |modules|
      invariant sorter.byName == byName && sorter.Valid()
      invariant forall j :: 0 <= j < i ==> modules[j].meta.name in sorter.visited
      invariant inOrder ==> sorter.result == modules[..i] && sorter.visited == Names(modules[..i])
    {
      if inOrder {
        NextInOrder(byName, modules, i);
      }
      var fine := sorter.Visit(modules[i].meta.name, []);
      if !fine {
        if inOrder {
          OrderedMeansAcyclic(byName, modules);
        }
        return false, [];
      }
      i := i + 1;
    }
    order := sorter.result;
    assert modules[..|modules|] == modules;
    AllListed(modules, order);
    return true, order;
  }

  lemma AllListed(modules: seq<PatchModule>, order: seq<PatchModule>)
    requires DependencyOrder(Index(modules), order)
    requires forall j :: 0 <= j < |modules| ==> modules[j].meta.name in Names(order)
    ensures !HasCycle(Index(modules)) && Names(order) == Names(modules)
  {
    hide HasCycle, DependencyOrder, Index;
    OrderIsPicked(Index(modules), order);
    assert Names(modules) <= Names(order);
    OrderedMeansAcyclic(Index(modules), order);
  }

  lemma OrderIsPicked(byName: ByName, order: seq<PatchModule>)
    requires DependencyOrder(byName, order)
    ensures PickedFrom(byName, order) && Names(order) <= byName.Keys
  {
  }

  datatype Selection = Selected(order: seq<PatchModule>) | Cyclic | UnknownName(name: string)

  /** Fewer modules have fewer dependency edges. */
  lemma SubgraphKeepsPaths(small: ByName, big: ByName)
    requires forall name :: name in small ==> name in big && small[name] == big[name]
    requires !HasCycle(big)
    ensures !HasCycle(small)
  {
    forall path | IsCycle(small, path)
      ensures false
    {
      assert forall i :: 0 <= i < |path| - 1 ==> Edge(small, path[i], path[i + 1]) ==> Edge(big, path[i], path[i + 1]);
      assert IsCycle(big, path);
    }
  }

  function Restricted(byName: ByName, names: set<string>): ByName {
    map name | name in byName && name in names :: byName[name]
  }

  ghost predicate PickedFrom(byName: ByName, selected: seq<PatchModule>) {
    forall i :: 0 <= i < |selected| ==>
      selected[i].meta.name in byName && selected[i] == byName[selected[i].meta.name]
  }

  /** Modules picked out of an index are indexed by a restriction of it. */
  lemma IndexOfPicked(byName: ByName, selected: seq<PatchModule>)
    requires PickedFrom(byName, selected)
    ensures Index(selected) == Restricted(byName, Names(selected))
  {
    var small := Index(selected);
    forall name | name in small
      ensures name in byName && small[name] == byName[name]
    {
      assert small[name] in selected;
    }
  }

  /** The modules called `names`, in that order, or the first name that is unknown. */
  method Pick(byName: ByName, names: seq<string>) returns (r: Selection)
    requires forall name :: name in byName ==> byName[name].meta.name == name
    ensures r.Selected? || r.UnknownName?
    ensures r.UnknownName? ==> r.name in names && r.name !in byName
    ensures r.Selected? ==> PickedFrom(byName, r.order) && NamesOf(r.order) == names
  {
    var selected: seq<PatchModule> := [];
    for i := 0 to |names|
      invariant PickedFrom(byName, selected) && NamesOf(selected) == names[..i]
    {
      if names[i] !in byName {
        return UnknownName(names[i]);
      }
      selected := selected + [byName[names[i]]];
    }
    return Selected(selected);
  }

  lemma PickedOnce(byName: ByName, a: seq<PatchModule>, b: seq<PatchModule>)
    requires PickedFrom(byName, a) && PickedFrom(byName, b) && NamesOf(a) == NamesOf(b)
    ensures a == b
  {
    assert |a| == |NamesOf(a)| == |b|;
    forall i | 0 <= i < |a|
      ensures a[i] == b[i]
    {
      assert NamesOf(a)[i] == NamesOf(b)[i];
    }
  }

  lemma NamesAsSet(modules: seq<PatchModule>)
    ensures Names(modules) == Elements(NamesOf(modules))
  {
    assert forall i :: 0 <= i < |modules| ==> NamesOf(modules)[i] == modules[i].meta.name;
    forall name | name in Names(modules)
      ensures name in NamesOf(modules)
    {
      var i :| 0 <= i < |modules| && modules[i].meta.name == name;
      assert NamesOf(modules)[i] == name;
    }
  }

  /** `_filter`: the patches to apply, in dependency order. It rejects exactly when the
      whole patch set has a cycle or a requested name is unknown; dependencies that were
      not requested count for nothing. */
  method Filter(modules: seq<PatchModule>, names: seq<string>) returns (r: Selection)
    ensures r.Cyclic? <==> HasCycle(Index(modules))
    ensures r.UnknownName? ==> r.name in names && r.name !in Names(modules)
    ensures r.Selected? ==> Elements(names) <= Names(modules)
    ensures r.Selected? ==>
              Names(r.order) == (if names == [] then Names(modules) else Elements(names))
    ensures r.Selected? ==> DependencyOrder(Restricted(Index(modules), Names(r.order)), r.order)
    ensures names == [] && DependencyOrder(Index(modules), modules) ==> r == Selected(modules)
    ensures r.Selected? && names != [] ==>
              forall picked ::
                (PickedFrom(Index(modules), picked) && NamesOf(picked) == names &&
                 DependencyOrder(Index(picked), picked)) ==> r.order == picked
  {
    hide HasCycle, DependencyOrder, Index, PickedFrom;
    var all := Index(modules);
    var ok, sorted := Sort(modules);
    if !ok {
      return Cyclic;
    }
    OrderIsPicked(all, sorted);
    IndexOfPicked(all, sorted);
    var byName := Index(sorted);
    assert byName == all && Restricted(all, Names(modules)) == all;
    if names == [] {
      return Selected(sorted);
    }
    r := Pick(byName, names);
    if r.Selected? {
      NamesAsSet(r.order);
      IndexOfPicked(all, r.order);
      SubgraphKeepsPaths(Index(r.order), all);
      ghost var found := r.order;
      forall picked | PickedFrom(all, picked) && NamesOf(picked) == names
        ensures picked == found
      {
        PickedOnce(all, picked, found);
      }
      var fine, order := Sort(r.order);
      r := Selected(order);
    }
  }
}
