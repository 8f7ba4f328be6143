// The resolver-health metric: packages no dependency edge leads to, and what finding none says.
module Orphans {
  import opened GraphTypes
  import opened Reach
  import opened Sorting
  import opened GraphState
  import opened GraphStore
  import GraphMerge

  const DEPENDS: set<EdgeType> := {DependsOn}

  // A package that is no root and that nothing depends on.
  ghost predicate IsOrphan(s: State, id: string) {
    id in s.nodes && s.nodes[id].kind == Package && id !in s.roots && !exists x :: Hop(s.edges, DEPENDS, x, id)
  }

  // The targets of all declared edges.
  method Depended(es: seq<Edge>) returns (seen: set<string>)
    ensures forall y :: y in seen <==> exists x :: Hop(es, DEPENDS, x, y)
  {
    seen := {};
    for i := 0 to |es|
      invariant forall y :: y in seen <==> exists j :: 0 <= j < i && es[j].kind == DependsOn && es[j].to == y
    {
      if es[i].kind == DependsOn {
        seen := seen + {es[i].to};
      }
    }
    forall y
      ensures y in seen <==> exists x :: Hop(es, DEPENDS, x, y)
    {
      if y in seen {
        var j :| 0 <= j < |es| && es[j].kind == DependsOn && es[j].to == y;
        assert es[j] == Edge(es[j].from, y, DependsOn) && es[j] in es;
        assert Hop(es, DEPENDS, es[j].from, y);
      }
      if x :| Hop(es, DEPENDS, x, y) {
        var k :| k in DEPENDS && Edge(x, y, k) in es;
        var j :| 0 <= j < |es| && es[j] == Edge(x, y, k);
      }
    }
  }

  method Orphans(g: Graph) returns (out: seq<Node>)
    requires Consistent(g.View())
    ensures forall id :: IsOrphan(g.View(), id) ==> g.nodes[id] in out
    ensures forall n :: n in out ==> IsOrphan(g.View(), n.id) && n == g.nodes[n.id]
    ensures InOrder(out)
  {
    hide Consistent, Indexed, GraphState.SortedNodes, Hop, StringLess;
    ghost var s := g.View();
    NodesAreSorted(s);
    var reached := Depended(g.edges);
    var ns := g.SortedNodes();
    out := [];
    for i := 0 to |ns|
      invariant forall n :: n in out <==> n in ns[..i] && n.kind == Package && n.id !in g.roots && n.id !in reached
      invariant InOrder(out)
    {
      assert ns[..i + 1] == ns[..i] + [ns[i]];
      OneMoreInOrder(ns, i, out);
      if ns[i].kind == Package && ns[i].id !in g.roots && ns[i].id !in reached {
        out := out + [ns[i]];
      }
    }
    assert ns[..|ns|] == ns;
  }

  // Each once, in the order of their identifiers.
  ghost predicate InOrder(ns: seq<Node>) {
    forall i, j :: 0 <= i < j < |ns| ==> StringLess(ns[i].id, ns[j].id)
  }

  lemma OneMoreInOrder(ns: seq<Node>, i: nat, out: seq<Node>)
    requires InOrder(ns) && InOrder(out) && i < |ns| && forall n :: n in out ==> n in ns[..i]
    ensures InOrder(out + [ns[i]])
  {
    hide StringLess;
    forall j | 0 <= j < |out|
      ensures StringLess(out[j].id, ns[i].id)
    {
      assert out[j] in ns[..i];
      var k :| 0 <= k < i && ns[k] == out[j];
    }
  }

  // In edges and kinds: a package that is no root and no depends-on edge leads to, whatever it starts from.
  lemma OrphanInEdges(s: State, id: string)
    ensures IsOrphan(s, id) <==>
              && id in s.nodes && s.nodes[id].kind == Package && id !in s.roots
              && forall e :: e in s.edges ==> e.kind != DependsOn || e.to != id
  {
    if e :| e in s.edges && e.kind == DependsOn && e.to == id {
      assert e == Edge(e.from, id, DependsOn);
      assert Hop(s.edges, DEPENDS, e.from, id);
    }
  }

  lemma NodesAreSorted(s: State)
    requires Consistent(s)
    ensures Listed(s)
    ensures forall id :: id in s.nodes ==> s.nodes[id] in SortedNodes(s) && s.nodes[id].id == id
    ensures forall n :: n in SortedNodes(s) ==> n.id in s.nodes && s.nodes[n.id] == n
    ensures InOrder(SortedNodes(s))
  {
    GraphMerge.SortedNodesIds(s);
    StringOrder();
    hide Indexed, Sort, StringLess;
    SortMembers(s.order, StringLess);
    SortStrictlyIncreasing(s.order, StringLess);
    var ids := Sort(s.order, StringLess);
    forall id | id in s.nodes
      ensures s.nodes[id] in SortedNodes(s)
    {
      assert id in ids;
      var i :| 0 <= i < |ids| && ids[i] == id;
      assert SortedNodes(s)[i] == s.nodes[id];
    }
  }

  // No root reaches an orphan.
  lemma OrphansAreUnreached(s: State, root: string, id: string)
    requires IsOrphan(s, id) && root in s.roots
    ensures !Reaches(s.edges, DEPENDS, root, id)
  {
    forall p
      ensures !PathBetween(s.edges, DEPENDS, p, root, id)
    {
      if PathBetween(s.edges, DEPENDS, p, root, id) {
        LastHop(s.edges, p, id);
      }
    }
  }

  lemma LastHop(es: seq<Edge>, p: seq<string>, last: string)
    requires IsPath(es, DEPENDS, p) && p[|p| - 1] == last && p[0] != last
    ensures exists x :: Hop(es, DEPENDS, x, last)
  {
    hide Hop;
    var i := |p| - 2;
    assert Hop(es, DEPENDS, p[i], p[i + 1]);
  }

  // No root reaches this package.
  ghost predicate Stranded(s: State, id: string) {
    IsPackage(s, id) && !exists root :: root in s.roots && Reaches(s.edges, DEPENDS, root, id)
  }

  // A set of identifiers that no dependency edge enters, without a root, holding a package, and in which
  // something depends on each package: what the metric cannot see.
  ghost predicate IsTrap(s: State, t: set<string>) {
    && (forall r :: r in s.roots ==> r !in t)
    && (forall x, y :: y in t && Hop(s.edges, DEPENDS, x, y) ==> x in t)
    && (exists p :: p in t && IsPackage(s, p))
    && (forall p :: p in t && IsPackage(s, p) ==> exists x :: Hop(s.edges, DEPENDS, x, p))
  }

  predicate IsPackage(s: State, id: string) {
    id in s.nodes && s.nodes[id].kind == Package
  }

  // Everything from which id is reached.
  ghost function Upstream(s: State, id: string): (t: set<string>)
    ensures forall x :: x in t <==> Reaches(s.edges, DEPENDS, x, id)
  {
    var t := set e | e in s.edges && Reaches(s.edges, DEPENDS, e.from, id) :: e.from;
    ReachesSelf(s.edges, DEPENDS, id);
    UpstreamHolds(s, id, t + {id});
    t + {id}
  }

  lemma UpstreamHolds(s: State, id: string, t: set<string>)
    requires t == (set e | e in s.edges && Reaches(s.edges, DEPENDS, e.from, id) :: e.from) + {id}
    ensures forall x :: Reaches(s.edges, DEPENDS, x, id) ==> x in t
  {
    forall x | Reaches(s.edges, DEPENDS, x, id)
      ensures x in t
    {
      var p :| PathBetween(s.edges, DEPENDS, p, x, id);
      if |p| > 1 {
        assert Hop(s.edges, DEPENDS, p[0], p[1]);
        var k :| k in DEPENDS && Edge(p[0], p[1], k) in s.edges;
        assert Edge(p[0], p[1], k).from == x;
      }
    }
  }

  lemma ReachesBefore(s: State, x: string, y: string, z: string)
    requires Hop(s.edges, DEPENDS, x, y) && Reaches(s.edges, DEPENDS, y, z)
    ensures Reaches(s.edges, DEPENDS, x, z)
  {
    hide Hop;
    ReachesSelf(s.edges, DEPENDS, x);
    ReachesStep(s.edges, DEPENDS, x, x, y);
    ReachesTransitive(s.edges, DEPENDS, x, y, z);
  }

  // A trap strands what it holds.
  lemma {:induction false} TrapStrands(s: State, t: set<string>, p: seq<string>, n: nat)
    requires IsTrap(s, t) && IsPath(s.edges, DEPENDS, p) && n < |p| && p[n] in t
    ensures p[0] in t
    decreases n
  {
    hide Hop;
    if n > 0 {
      assert Hop(s.edges, DEPENDS, p[n - 1], p[n - 1 + 1]);
      TrapStrands(s, t, p, n - 1);
    }
  }

  // When some package is reached by no root: exactly when the metric reports an orphan, or there is a
  // trap.  Finding no orphans therefore says that all packages are reached if and only if there is no
  // trap.
  lemma StrandedExactly(s: State)
    ensures (exists id :: Stranded(s, id)) <==> (exists id :: IsOrphan(s, id)) || exists t :: IsTrap(s, t)
  {
    hide Hop, Reaches;
    if id :| IsOrphan(s, id) {
      forall root | root in s.roots
        ensures !Reaches(s.edges, DEPENDS, root, id)
      {
        OrphansAreUnreached(s, root, id);
      }
      assert Stranded(s, id);
    }
    if t :| IsTrap(s, t) {
      var id :| id in t && IsPackage(s, id);
      forall root | root in s.roots
        ensures !Reaches(s.edges, DEPENDS, root, id)
      {
        TrapHoldsUpstream(s, t, root, id);
      }
      assert Stranded(s, id);
    }
    if id :| Stranded(s, id) {
      if forall x :: !IsOrphan(s, x) {
        UpstreamIsTrap(s, id);
      }
    }
  }

  lemma TrapHoldsUpstream(s: State, t: set<string>, x: string, id: string)
    requires IsTrap(s, t) && id in t
    ensures Reaches(s.edges, DEPENDS, x, id) ==> x in t
  {
    if Reaches(s.edges, DEPENDS, x, id) {
      var p :| PathBetween(s.edges, DEPENDS, p, x, id);
      TrapStrands(s, t, p, |p| - 1);
    }
  }

  lemma UpstreamIsTrap(s: State, id: string)
    requires Stranded(s, id) && forall x :: !IsOrphan(s, x)
    ensures IsTrap(s, Upstream(s, id))
  {
    hide Hop, Reaches;
    var t := Upstream(s, id);
    ReachesSelf(s.edges, DEPENDS, id);
    assert id in t && IsPackage(s, id);
    forall x, y | y in t && Hop(s.edges, DEPENDS, x, y)
      ensures x in t
    {
      ReachesBefore(s, x, y, id);
    }
    forall p | p in t && IsPackage(s, p)
      ensures exists x :: Hop(s.edges, DEPENDS, x, p)
    {
      assert !IsOrphan(s, p);
    }
  }

  // Why nothing in a trap is an orphan: something depends on itself at a distance, or something that is
  // no package, an identifier without a node or a node of another kind, depends on something.
  ghost predicate HasCause(s: State, t: set<string>) {
    exists x, y :: x in t && Hop(s.edges, DEPENDS, x, y) && (IsPackage(s, x) ==> Reaches(s.edges, DEPENDS, y, x))
  }

  lemma TrapHasCause(s: State, t: set<string>)
    requires IsTrap(s, t)
    ensures HasCause(s, t)
  {
    hide Hop, Reaches, HasCause;
    var p :| p in t && IsPackage(s, p);
    ReachesSelf(s.edges, DEPENDS, p);
    CauseAbove(s, t, t - {p}, p);
  }

  // Going up from x, which reaches everything of the trap already passed, ends in a cause.
  lemma {:induction false} CauseAbove(s: State, t: set<string>, rest: set<string>, x: string)
    requires IsTrap(s, t) && x in t && rest <= t && IsPackage(s, x)
    requires forall y :: y in t && y !in rest ==> Reaches(s.edges, DEPENDS, x, y)
    ensures HasCause(s, t)
    decreases rest
  {
    hide Hop, Reaches, HasCause, IsPackage;
    var w :| Hop(s.edges, DEPENDS, w, x);
    assert w in t;
    if w in rest && IsPackage(s, w) {
      forall y | y in t && y !in rest - {w}
        ensures Reaches(s.edges, DEPENDS, w, y)
      {
        if y == w {
          ReachesSelf(s.edges, DEPENDS, w);
        } else {
          ReachesBefore(s, w, x, y);
        }
      }
      CauseAbove(s, t, rest - {w}, w);
    } else {
      IsCause(s, t, w, x);
    }
  }

  lemma IsCause(s: State, t: set<string>, x: string, y: string)
    requires x in t && Hop(s.edges, DEPENDS, x, y) && (IsPackage(s, x) ==> Reaches(s.edges, DEPENDS, y, x))
    ensures HasCause(s, t)
  {
    hide Hop, Reaches, IsPackage;
  }

  // Without cycles or edges from anything but packages, no orphans means every package is reached.
  lemma NoOrphansNothingStranded(s: State, id: string)
    requires forall x :: !IsOrphan(s, x)
    requires forall x, y :: Hop(s.edges, DEPENDS, x, y) ==> IsPackage(s, x) && !Reaches(s.edges, DEPENDS, y, x)
    ensures !Stranded(s, id)
  {
    hide Hop, Reaches;
    if Stranded(s, id) {
      UpstreamIsTrap(s, id);
      TrapHasCause(s, Upstream(s, id));
    }
  }

  // With a cycle it does not: two packages that depend on each other are stranded, and neither is an
  // orphan.
  lemma CyclesHideStrandedPackages(a: Node, b: Node)
    requires a.id != b.id && a.kind == Package && b.kind == Package && NulFree(a.id) && NulFree(b.id)
    ensures var s := AddEdge(AddEdge(AddNode(AddNode(EMPTY, a), b), Edge(a.id, b.id, DependsOn)),
            Edge(b.id, a.id, DependsOn));
            (forall x :: !IsOrphan(s, x)) && Stranded(s, a.id) && Stranded(s, b.id)
  {
    hide EdgeKey;
    var e, f := Edge(a.id, b.id, DependsOn), Edge(b.id, a.id, DependsOn);
    var s := AddEdge(AddEdge(AddNode(AddNode(EMPTY, a), b), e), f);
    if EdgeKey(e) == EdgeKey(f) {
      EdgeKeyIdentifies(e, f);
    }
    assert s.edges == [e, f];
    assert s.edges[0] in s.edges && s.edges[1] in s.edges;
    assert Hop(s.edges, DEPENDS, a.id, b.id) && Hop(s.edges, DEPENDS, b.id, a.id);
  }

  // Nor does it with an edge from an identifier that has no node...
  lemma DanglingSourceHidesPackage(missing: string, b: Node)
    requires missing != b.id && b.kind == Package
    ensures var s := AddEdge(AddNode(EMPTY, b), Edge(missing, b.id, DependsOn));
            (forall x :: !IsOrphan(s, x)) && Stranded(s, b.id)
  {
    hide EdgeKey;
    var s := AddEdge(AddNode(EMPTY, b), Edge(missing, b.id, DependsOn));
    assert s.edges == [Edge(missing, b.id, DependsOn)];
    assert s.edges[0] in s.edges;
    assert Hop(s.edges, DEPENDS, missing, b.id);
  }

  // ... or from a node of another kind.
  lemma OtherKindHidesPackage(a: Node, b: Node)
    requires a.id != b.id && a.kind != Package && a.kind != UnsetKind && b.kind == Package
    ensures var s := AddEdge(AddNode(AddNode(EMPTY, a), b), Edge(a.id, b.id, DependsOn));
            (forall x :: !IsOrphan(s, x)) && Stranded(s, b.id)
  {
    hide EdgeKey;
    var s := AddEdge(AddNode(AddNode(EMPTY, a), b), Edge(a.id, b.id, DependsOn));
    assert s.edges == [Edge(a.id, b.id, DependsOn)];
    assert s.edges[0] in s.edges;
    assert Hop(s.edges, DEPENDS, a.id, b.id);
  }
}
