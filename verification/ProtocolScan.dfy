/** The two searches of the implicit-protocol scan: inheritance through protocol bases, and
    the removal of findings that a larger protocol makes redundant. */
module ProtocolScan {

  datatype ProtocolInfo = ProtocolInfo(name: string, methods: set<string>, bases: seq<string>)

  type Protocols = map<string, ProtocolInfo>

  // ---- _inherits_protocol ----

  /** Each name is a base of the protocol named before it. */
  predicate IsChain(protocols: Protocols, chain: seq<string>) {
    forall i :: 0 <= i < |chain| - 1 ==> chain[i] in protocols && chain[i + 1] in protocols[chain[i]].bases
  }

  predicate Links(protocols: Protocols, from: seq<string>, to: string, chain: seq<string>) {
    chain != [] && chain[0] in from && chain[|chain| - 1] == to && IsChain(protocols, chain)
  }

  ghost predicate Reaches(protocols: Protocols, from: seq<string>, to: string) {
    exists chain :: Links(protocols, from, to, chain)
  }

  lemma ReachesItself(protocols: Protocols, from: seq<string>, name: string)
    requires name in from
    ensures Reaches(protocols, from, name)
  {
    assert Links(protocols, from, name, [name]);
  }

  lemma ReachesFurther(protocols: Protocols, from: seq<string>, name: string, base: string)
    requires Reaches(protocols, from, name) && name in protocols && base in protocols[name].bases
    ensures Reaches(protocols, from, base)
  {
    var chain :| Links(protocols, from, name, chain);
    assert Links(protocols, from, base, chain + [base]);
  }

  /** A set that contains the start and is closed under bases contains all that is reached. */
  lemma {:induction false} ClosedContains(
    protocols: Protocols, from: seq<string>, to: string, chain: seq<string>, closed: set<string>)
    requires Links(protocols, from, to, chain)
    requires forall name :: name in from ==> name in closed
    requires forall name, base :: name in closed && name in protocols && base in protocols[name].bases ==>
               base in closed
    ensures to in closed
    decreases chain
  {
    if |chain| > 1 {
      var front := chain[..|chain| - 1];
      assert Links(protocols, from, front[|front| - 1], front);
      ClosedContains(protocols, from, front[|front| - 1], front, closed);
      assert chain[|front| - 1] in protocols && chain[|front|] in protocols[chain[|front| - 1]].bases;
    }
  }

  lemma ClosedContainsReached(protocols: Protocols, from: seq<string>, to: string, closed: set<string>)
    requires Reaches(protocols, from, to)
    requires forall name :: name in from ==> name in closed
    requires forall name, base :: name in closed && name in protocols && base in protocols[name].bases ==>
               base in closed
    ensures to in closed
  {
    var chain :| Links(protocols, from, to, chain);
    ClosedContains(protocols, from, to, chain, closed);
  }

  function AllNames(protocols: Protocols, from: seq<string>): set<string> {
    (set name | name in from) + (set p, base | p in protocols && base in protocols[p].bases :: base)
  }

  /** The state of the search: what is pending or visited is reached, and nothing reached
      from a visited name has been lost. */
  ghost predicate Searching(
    protocols: Protocols, from: seq<string>, to: string, pending: seq<string>, visited: set<string>)
  {
    && (forall name :: name in pending ==> name in AllNames(protocols, from) && Reaches(protocols, from, name))
    && visited <= AllNames(protocols, from) && to !in visited
    && (forall name :: name in from ==> name in visited || name in pending)
    && (forall name, base :: name in visited && name in protocols && base in protocols[name].bases ==>
          base in visited || base in pending)
  }

  lemma SearchStarts(protocols: Protocols, from: seq<string>, to: string)
    ensures Searching(protocols, from, to, from, {})
  {
    forall name | name in from
      ensures Reaches(protocols, from, name)
    {
      ReachesItself(protocols, from, name);
    }
  }

  lemma SearchGoesOn(
    protocols: Protocols, from: seq<string>, to: string, rest: seq<string>, base: string, visited: set<string>)
    requires Searching(protocols, from, to, rest + [base], visited) && base != to
    ensures base in visited ==> Searching(protocols, from, to, rest, visited)
    ensures base in AllNames(protocols, from)
    ensures Searching(protocols, from, to,
              rest + (if base in protocols then protocols[base].bases else []), visited + {base})
  {
    var parents := if base in protocols then protocols[base].bases else [];
    assert base in rest + [base];
    forall parent | parent in parents
      ensures Reaches(protocols, from, parent) && parent in AllNames(protocols, from)
    {
      ReachesFurther(protocols, from, base, parent);
    }
    hide Reaches;
    assert forall name :: name in rest + [base] <==> name in rest || name == base;
    assert forall name :: name in rest + parents <==> name in rest || name in parents;
  }

  lemma PendingIsReached(
    protocols: Protocols, from: seq<string>, to: string, rest: seq<string>, base: string, visited: set<string>)
    requires Searching(protocols, from, to, rest + [base], visited)
    ensures Reaches(protocols, from, base)
  {
    assert base in rest + [base];
  }

  lemma SearchEnds(protocols: Protocols, from: seq<string>, to: string, visited: set<string>)
    requires Searching(protocols, from, to, [], visited)
    ensures !Reaches(protocols, from, to)
  {
    if Reaches(protocols, from, to) {
      ClosedContainsReached(protocols, from, to, visited);
    }
  }

  method InheritsProtocol(baseNames: seq<string>, protocolName: string, protocols: Protocols) returns (found: bool)
    ensures found <==> Reaches(protocols, baseNames, protocolName)
  {
    var pending := baseNames;
    var visited: set<string> := {};
    hide AllNames, Searching, Reaches;
    SearchStarts(protocols, baseNames, protocolName);
    while pending != []
      invariant Searching(protocols, baseNames, protocolName, pending, visited)
      decreases AllNames(protocols, baseNames) - visited, |pending|
    {
      var rest, base := pending[..|pending| - 1], pending[|pending| - 1];
      assert pending == rest + [base];
      pending := rest;
      if base == protocolName {
        PendingIsReached(protocols, baseNames, protocolName, rest, base, visited);
        return true;
      }
      SearchGoesOn(protocols, baseNames, protocolName, rest, base, visited);
      if base in visited {
        continue;
      }
      visited := visited + {base};
      if base in protocols {
        pending := pending + protocols[base].bases;
      } else {
        assert rest + [] == rest;
      }
    }
    SearchEnds(protocols, baseNames, protocolName, visited);
    return false;
  }

  // ---- _dedup_subsets ----

  datatype Finding = Finding(file: string, className: string, proto: ProtocolInfo)

  function KeyOf(f: Finding): string {
    f.file + ":" + f.className
  }

  /** `g` is a finding for the same class with strictly more methods. */
  predicate Outdoes(g: Finding, f: Finding) {
    KeyOf(g) == KeyOf(f) && f.proto.methods < g.proto.methods
  }

  predicate IsMaximal(all: seq<Finding>, f: Finding) {
    forall g :: g in all ==> !Outdoes(g, f)
  }

  /** The maximal ones among `findings`, in their order. */
  function Maximal(all: seq<Finding>, findings: seq<Finding>): seq<Finding> {
    if findings == [] then []
    else
      var front, last := findings[..|findings| - 1], findings[|findings| - 1];
      Maximal(all, front) + (if IsMaximal(all, last) then [last] else [])
  }

  lemma SubsetAndSmaller(a: set<string>, b: set<string>)
    ensures (a <= b && |a| < |b|) <==> a < b
  {
    if a < b {
      var extra := b - a;
      assert b == a + extra && extra != {};
    } else if a <= b {
      assert a == b;
    }
  }

  method DedupSubsets(findings: seq<Finding>) returns (kept: seq<Finding>)
    ensures kept == Maximal(findings, findings)
  {
    var byClass: map<string, seq<ProtocolInfo>> := map[];
    for i := 0 to |findings|
      invariant forall j :: 0 <= j < i ==>
        KeyOf(findings[j]) in byClass && findings[j].proto in byClass[KeyOf(findings[j])]
      invariant forall key, p :: key in byClass && p in byClass[key] ==>
        exists j :: 0 <= j < i && KeyOf(findings[j]) == key && findings[j].proto == p
    {
      var key := KeyOf(findings[i]);
      var siblings := if key in byClass then byClass[key] else [];
      byClass := byClass[key := siblings + [findings[i].proto]];
    }
    kept := [];
    for i := 0 to |findings|
      invariant kept == Maximal(findings, findings[..i])
    {
      var f := findings[i];
      var isSubset := HasLarger(f.proto, byClass[KeyOf(f)]);
      assert isSubset <==> !IsMaximal(findings, f) by {
        if !IsMaximal(findings, f) {
          var g :| g in findings && Outdoes(g, f);
          assert g.proto in byClass[KeyOf(g)];
        }
        if isSubset {
          var other :| other in byClass[KeyOf(f)] && f.proto.methods < other.methods;
          var j :| 0 <= j < |findings| && KeyOf(findings[j]) == KeyOf(f) && findings[j].proto == other;
          assert Outdoes(findings[j], f);
        }
      }
      if !isSubset {
        kept := kept + [f];
      }
      assert findings[..i + 1][..i] == findings[..i];
    }
    assert findings[..|findings|] == findings;
  }

  method HasLarger(proto: ProtocolInfo, siblings: seq<ProtocolInfo>) returns (found: bool)
    ensures found <==> exists other :: other in siblings && proto.methods < other.methods
  {
    for i := 0 to |siblings|
      invariant forall j :: 0 <= j < i ==> !(proto.methods < siblings[j].methods)
    {
      SubsetAndSmaller(proto.methods, siblings[i].methods);
      if proto.methods <= siblings[i].methods && |proto.methods| < |siblings[i].methods| {
        return true;
      }
    }
    return false;
  }

  lemma {:induction false} MaximalMembers(all: seq<Finding>, findings: seq<Finding>, f: Finding)
    ensures f in Maximal(all, findings) <==> f in findings && IsMaximal(all, f)
    decreases findings
  {
    if findings != [] {
      MaximalMembers(all, findings[..|findings| - 1], f);
      assert findings == findings[..|findings| - 1] + [findings[|findings| - 1]];
    }
  }

  function AllMethods(findings: seq<Finding>): set<string> {
    set f, m | f in findings && m in f.proto.methods :: m
  }

  /** Whatever is dropped has a kept finding for the same class with strictly more methods. */
  lemma {:induction false} DroppedIsOutdone(findings: seq<Finding>, f: Finding) returns (g: Finding)
    requires f in findings && f !in Maximal(findings, findings)
    ensures g in Maximal(findings, findings) && Outdoes(g, f)
    decreases AllMethods(findings) - f.proto.methods
  {
    MaximalMembers(findings, findings, f);
    g :| g in findings && Outdoes(g, f);
    MaximalMembers(findings, findings, g);
    if g !in Maximal(findings, findings) {
      var m :| m in g.proto.methods && m !in f.proto.methods;
      assert m in AllMethods(findings);
      g := DroppedIsOutdone(findings, g);
    }
  }

  lemma {:induction false} AllMaximalStay(all: seq<Finding>, findings: seq<Finding>)
    requires forall f :: f in findings ==> IsMaximal(all, f)
    ensures Maximal(all, findings) == findings
    decreases findings
  {
    if findings != [] {
      AllMaximalStay(all, findings[..|findings| - 1]);
      assert findings == findings[..|findings| - 1] + [findings[|findings| - 1]];
    }
  }

  /** Doing it twice is doing it once, and it removes exactly the outdone findings. */
  lemma DedupIsIdempotent(findings: seq<Finding>)
    ensures var kept := Maximal(findings, findings);
            && Maximal(kept, kept) == kept
            && (forall f :: f in kept <==> f in findings && IsMaximal(findings, f))
  {
    var kept := Maximal(findings, findings);
    forall f
      ensures f in kept <==> f in findings && IsMaximal(findings, f)
    {
      MaximalMembers(findings, findings, f);
    }
    AllMaximalStay(kept, kept);
  }
}
