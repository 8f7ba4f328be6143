// What every graph mutation keeps, what renaming preserves, and the algebra of merging.
module GraphLaws {
  import opened Findings
  import opened GraphTypes
  import opened Sorting
  import opened Reach
  import opened GraphState

  // ----- Every mutation keeps the representation consistent -----

  lemma AddNodeKeeps(s: State, n: Node)
    requires Consistent(s)
    ensures Consistent(AddNode(s, n))
  {
    hide EdgeKey;
  }

  lemma AddEdgeKeeps(s: State, e: Edge)
    requires Consistent(s)
    ensures Consistent(AddEdge(s, e))
  {
    hide EdgeKey;
    if EdgeKey(e) !in s.edgeSeen {
      var t := AddEdge(s, e);
      KeysOfAppend(s.edges, e);
      forall i | 0 <= i < |s.edges|
        ensures EdgeKey(s.edges[i]) in s.edgeSeen
      {
      }
    }
  }

  lemma KeysOfAppend(es: seq<Edge>, e: Edge)
    ensures Keys(es + [e]) == Keys(es) + {EdgeKey(e)}
  {
    hide EdgeKey;
    assert forall f :: f in es + [e] <==> f in es || f == e;
  }

  lemma MarkRootKeeps(s: State, id: string)
    requires Consistent(s)
    ensures Consistent(MarkRoot(s, id))
  {
    hide EdgeKey;
  }

  ghost predicate DistinctKeys(es: seq<Edge>) {
    forall i, j :: 0 <= i < j < |es| ==> EdgeKey(es[i]) != EdgeKey(es[j])
  }

  // Removing a listed edge takes out exactly that edge and its key.
  lemma {:induction false} RemoveFirstRemoves(es: seq<Edge>, e: Edge)
    requires DistinctKeys(es) && e in es
    ensures DistinctKeys(RemoveFirst(es, e))
    ensures forall f :: f in RemoveFirst(es, e) <==> f in es && f != e
  {
    hide EdgeKey;
    assert es == [es[0]] + es[1..];
    if es[0] == e {
      assert forall j :: 1 <= j < |es| ==> EdgeKey(es[0]) != EdgeKey(es[j]);
    } else {
      RemoveFirstRemoves(es[1..], e);
      var rest := RemoveFirst(es[1..], e);
      forall j | 0 <= j < |rest|
        ensures EdgeKey(rest[j]) != EdgeKey(es[0]) && rest[j] != es[0]
      {
        assert rest[j] in es[1..];
        var k :| 1 <= k < |es| && es[k] == rest[j];
        assert EdgeKey(es[0]) != EdgeKey(es[k]);
      }
    }
  }

  lemma SameKeySameEdge(es: seq<Edge>, e: Edge, f: Edge)
    requires DistinctKeys(es) && e in es && f in es && EdgeKey(e) == EdgeKey(f)
    ensures e == f
  {
    hide EdgeKey;
    var i :| 0 <= i < |es| && es[i] == e;
    var j :| 0 <= j < |es| && es[j] == f;
  }

  // RemoveEdge leaves a consistent graph exactly when the indexed key belongs to the edge asked
  // for.  Otherwise the key goes and the edge that owned it stays.
  lemma RemoveEdgeKeepsExactly(s: State, e: Edge)
    requires Consistent(s)
    ensures Consistent(RemoveEdge(s, e)) <==> (EdgeKey(e) in s.edgeSeen ==> e in s.edges)
    ensures e in s.edges ==> forall f :: f in RemoveEdge(s, e).edges <==> f in s.edges && f != e
  {
    hide EdgeKey;
    var t := RemoveEdge(s, e);
    if e in s.edges {
      assert EdgeKey(e) in s.edgeSeen;
      RemoveFirstRemoves(s.edges, e);
      forall k
        ensures k in t.edgeSeen <==> k in Keys(t.edges)
      {
        if k in t.edgeSeen {
          var f :| f in s.edges && EdgeKey(f) == k;
          assert f in t.edges;
        } else if k in Keys(t.edges) {
          var f :| f in t.edges && EdgeKey(f) == k;
          SameKeySameEdge(s.edges, e, f);
        }
      }
    } else if EdgeKey(e) in s.edgeSeen {
      RemoveFirstAbsent(s.edges, e);
      var f :| f in s.edges && EdgeKey(f) == EdgeKey(e);
      assert EdgeKey(f) in Keys(t.edges);
    }
  }

  // With NUL-free endpoints the asked-for edge is always the one the key belongs to.
  lemma RemoveCleanEdgeKeeps(s: State, e: Edge)
    requires Consistent(s) && CleanEdge(e)
    ensures Consistent(RemoveEdge(s, e))
    ensures e !in RemoveEdge(s, e).edges
  {
    hide EdgeKey;
    RemoveEdgeKeepsExactly(s, e);
    if EdgeKey(e) in s.edgeSeen {
      var f :| f in s.edges && EdgeKey(f) == EdgeKey(e);
      EdgeKeyIdentifies(e, f);
    }
    if e in s.edges {
      assert EdgeKey(e) in s.edgeSeen;
    }
  }

  // The failing case: asking for a NUL-bearing edge that is absent strips the index of another.
  lemma RemoveEdgeCanCorrupt()
    ensures var kept := Edge("a", "b\0c", DependsOn);
            var asked := Edge("a\0b", "c", DependsOn);
            var s := AddEdge(EMPTY, kept);
            Consistent(s) && !Consistent(RemoveEdge(s, asked)) && RemoveEdge(s, asked).edges == [kept]
  {
    var kept, asked := Edge("a", "b\0c", DependsOn), Edge("a\0b", "c", DependsOn);
    assert EdgeKey(kept) == EdgeKey(asked);
    var s := AddEdge(EMPTY, kept);
    AddEdgeKeeps(EMPTY, kept);
    assert s.edges == [kept];
    RemoveEdgeKeepsExactly(s, asked);
    RemoveFirstAbsent(s.edges, asked);
  }

  // ----- Renaming -----

  ghost predicate Mentions(es: seq<Edge>, id: string) {
    exists e :: e in es && (e.from == id || e.to == id)
  }

  ghost predicate CleanEdges(es: seq<Edge>) {
    forall e :: e in es ==> CleanEdge(e)
  }

  lemma RenamedMember(old': string, new': string, es: seq<Edge>, e: Edge)
    requires e in es
    ensures RenamedEdge(old', new', e) in RenamedEdges(old', new', es)
  {
    var i :| 0 <= i < |es| && es[i] == e;
    assert RenamedEdges(old', new', es)[i] == RenamedEdge(old', new', e);
  }

  lemma RenamedOrigin(old': string, new': string, es: seq<Edge>, f: Edge) returns (e: Edge)
    requires f in RenamedEdges(old', new', es)
    ensures e in es && RenamedEdge(old', new', e) == f
  {
    var i :| 0 <= i < |es| && RenamedEdges(old', new', es)[i] == f;
    e := es[i];
  }

  // Two different edges that renaming makes one...
  ghost predicate Collides(es: seq<Edge>, old': string, new': string) {
    exists e, f :: e in es && f in es && e != f && RenamedEdge(old', new', e) == RenamedEdge(old', new', f)
  }

  // ... or puts under one key.
  ghost predicate KeysCollide(es: seq<Edge>, old': string, new': string) {
    exists e, f :: e in es && f in es && e != f &&
        EdgeKey(RenamedEdge(old', new', e)) == EdgeKey(RenamedEdge(old', new', f))
  }

  // Without NULs that is the same.
  lemma CleanKeysCollideExactly(es: seq<Edge>, old': string, new': string)
    requires CleanEdges(es) && NulFree(new')
    ensures KeysCollide(es, old', new') <==> Collides(es, old', new')
  {
    hide EdgeKey;
    if e, f :| e in es && f in es && e != f &&
             EdgeKey(RenamedEdge(old', new', e)) == EdgeKey(RenamedEdge(old', new', f)) {
      assert CleanEdge(e) && CleanEdge(f);
      EdgeKeyIdentifies(RenamedEdge(old', new', e), RenamedEdge(old', new', f));
    }
  }

  // A name no edge mentions is free to take.
  lemma UnmentionedNameIsFree(es: seq<Edge>, old': string, new': string)
    requires !Mentions(es, new')
    ensures !Collides(es, old', new')
  {
    forall e, f | e in es && f in es && RenamedEdge(old', new', e) == RenamedEdge(old', new', f)
      ensures e == f
    {
    }
  }

  lemma RenamedListed(s: State, old': string, new': string)
    requires Listed(s) && WellKeyed(s) && Renames(s, old', new')
    ensures Listed(RenameNode(s, old', new')) && WellKeyed(RenameNode(s, old', new'))
  {
    hide EdgeKey, Keys;
    var t := RenameNode(s, old', new');
    forall i, j | 0 <= i < j < |t.order|
      ensures t.order[i] != t.order[j]
    {
      assert s.order[i] != s.order[j];
      assert s.order[i] in s.order && s.order[j] in s.order;
    }
    forall id
      ensures id in t.order <==> id in t.nodes
    {
      if id in t.order {
        var i :| 0 <= i < |t.order| && t.order[i] == id;
        assert s.order[i] in s.order;
      }
      if id in t.nodes {
        var was := if id == new' then old' else id;
        assert was in s.order;
        var i :| 0 <= i < |s.order| && s.order[i] == was;
        assert t.order[i] == id;
      }
    }
  }

  lemma RenamedDistinctExactly(es: seq<Edge>, old': string, new': string)
    requires DistinctKeys(es)
    ensures DistinctKeys(RenamedEdges(old', new', es)) <==> !KeysCollide(es, old', new')
  {
    hide EdgeKey;
    var fs := RenamedEdges(old', new', es);
    if KeysCollide(es, old', new') {
      var e, f :| e in es && f in es && e != f &&
          EdgeKey(RenamedEdge(old', new', e)) == EdgeKey(RenamedEdge(old', new', f));
      var i :| 0 <= i < |es| && es[i] == e;
      var j :| 0 <= j < |es| && es[j] == f;
      assert EdgeKey(fs[i]) == EdgeKey(fs[j]);
      assert i < j || j < i;
    } else {
      forall i, j | 0 <= i < j < |fs|
        ensures EdgeKey(fs[i]) != EdgeKey(fs[j])
      {
        assert EdgeKey(es[i]) != EdgeKey(es[j]);
        assert es[i] in es && es[j] in es;
      }
    }
  }

  lemma RenamedRoots(ids: seq<string>, old': string, new': string)
    requires NoDuplicates(ids)
    ensures NoDuplicates(RenamedAll(old', new', ids)) <==> old' == new' || !(old' in ids && new' in ids)
  {
    var out := RenamedAll(old', new', ids);
    if old' in ids && new' in ids {
      var i :| 0 <= i < |ids| && ids[i] == old';
      var j :| 0 <= j < |ids| && ids[j] == new';
      assert out[i] == out[j];
      assert old' == new' || i < j || j < i;
    }
    if old' == new' {
      assert out == ids;
    }
  }

  // RenameNode keeps the representation consistent exactly when no two edges end up under one key and
  // the two names are not both roots.
  lemma RenameKeepsExactly(s: State, old': string, new': string)
    requires Consistent(s) && Renames(s, old', new')
    ensures Consistent(RenameNode(s, old', new')) <==>
              !KeysCollide(s.edges, old', new') && !(old' in s.roots && new' in s.roots)
  {
    hide EdgeKey;
    RenamedListed(s, old', new');
    RenamedRoots(s.roots, old', new');
    RenamedDistinctExactly(s.edges, old', new');
  }

  // Dangling edges that already mention the new name can collapse onto a renamed one.
  lemma RenameCanDuplicate(n: Node)
    requires n.id == "old"
    ensures var s := AddEdge(AddEdge(AddNode(EMPTY, n), Edge("old", "x", DependsOn)), Edge("new", "x", DependsOn));
            Consistent(s) && !Consistent(RenameNode(s, "old", "new"))
            && RenameNode(s, "old", "new").edges == [Edge("new", "x", DependsOn), Edge("new", "x", DependsOn)]
  {
    var e, f := Edge("old", "x", DependsOn), Edge("new", "x", DependsOn);
    var s := AddEdge(AddEdge(AddNode(EMPTY, n), e), f);
    assert CleanEdge(e) && CleanEdge(f) && e != f;
    TwoEdges(AddNode(EMPTY, n), e, f);
    assert "old" in s.nodes && "new" !in s.nodes;
    RenamedTwo(s, e, f);
    hide EdgeKey, Consistent, AddNode, AddEdge, RenameNode, Collides, Renames;
    assert Consistent(EMPTY) by {
      EmptyIsConsistent();
    }
    AddNodeKeeps(EMPTY, n);
    AddEdgeKeeps(AddNode(EMPTY, n), e);
    AddEdgeKeeps(AddEdge(AddNode(EMPTY, n), e), f);
    RenameKeepsExactly(s, "old", "new");
  }

  lemma EmptyIsConsistent()
    ensures Consistent(EMPTY)
  {
  }

  lemma RenamedTwo(s: State, e: Edge, f: Edge)
    requires e == Edge("old", "x", DependsOn) && f == Edge("new", "x", DependsOn) && s.edges == [e, f]
    requires "old" in s.nodes && "new" !in s.nodes
    ensures RenameNode(s, "old", "new").edges == [f, f] && KeysCollide(s.edges, "old", "new") &&
            Renames(s, "old", "new")
  {
    hide EdgeKey;
    assert RenamedEdge("old", "new", e) == f && RenamedEdge("old", "new", f) == f;
    assert s.edges[0] == e && s.edges[1] == f;
  }

  lemma TwoEdges(s: State, e: Edge, f: Edge)
    requires s.edges == [] && s.edgeSeen == {} && CleanEdge(e) && CleanEdge(f) && e != f
    ensures AddEdge(AddEdge(s, e), f).edges == [e, f]
  {
    hide EdgeKey;
    if EdgeKey(e) == EdgeKey(f) {
      EdgeKeyIdentifies(e, f);
    }
  }

  // Renaming to a fresh name and back is the identity.
  lemma RenameRoundTrip(s: State, old': string, new': string)
    requires Consistent(s) && Renames(s, old', new')
    requires !Mentions(s.edges, new') && new' !in s.roots
    ensures RenameNode(RenameNode(s, old', new'), new', old') == s
  {
    hide EdgeKey;
    var t := RenameNode(s, old', new');
    var u := RenameNode(t, new', old');
    assert s.nodes[old'].id == old';
    assert u.nodes == s.nodes;
    forall i | 0 <= i < |s.edges|
      ensures u.edges[i] == s.edges[i]
    {
      assert s.edges[i] in s.edges;
    }
    assert u.edges == s.edges;
    forall i | 0 <= i < |s.roots|
      ensures u.roots[i] == s.roots[i]
    {
      assert s.roots[i] in s.roots;
    }
    assert u.roots == s.roots;
    forall i | 0 <= i < |s.order|
      ensures u.order[i] == s.order[i]
    {
      assert s.order[i] in s.order;
    }
    assert u.order == s.order;
  }

  lemma RenamedHop(es: seq<Edge>, kinds: set<EdgeType>, old': string, new': string, x: string, y: string)
    requires Hop(es, kinds, x, y)
    ensures Hop(RenamedEdges(old', new', es), kinds, Renamed(old', new', x), Renamed(old', new', y))
  {
    var k :| k in kinds && Edge(x, y, k) in es;
    RenamedMember(old', new', es, Edge(x, y, k));
  }

  lemma RenamedReaches(es: seq<Edge>, kinds: set<EdgeType>, old': string, new': string, x: string, y: string)
    requires Reaches(es, kinds, x, y)
    ensures Reaches(RenamedEdges(old', new', es), kinds, Renamed(old', new', x), Renamed(old', new', y))
  {
    var p :| PathBetween(es, kinds, p, x, y);
    var q := RenamedAll(old', new', p);
    forall i | 0 <= i < |q| - 1
      ensures Hop(RenamedEdges(old', new', es), kinds, q[i], q[i + 1])
    {
      RenamedHop(es, kinds, old', new', p[i], p[i + 1]);
    }
    assert PathBetween(RenamedEdges(old', new', es), kinds, q, Renamed(old', new', x), Renamed(old', new', y));
  }

  // Renaming to a fresh name is an isomorphism: over any edge types it preserves and reflects
  // reachability, and it carries the roots along.
  lemma RenameIsIsomorphism(s: State, old': string, new': string, kinds: set<EdgeType>, x: string, y: string)
    requires Consistent(s) && Renames(s, old', new')
    requires !Mentions(s.edges, new') && new' !in s.roots
    requires x != new' && y != new'
    ensures var t := RenameNode(s, old', new');
            && (Reaches(t.edges, kinds, Renamed(old', new', x), Renamed(old', new', y)) <==>
               Reaches(s.edges, kinds, x, y))
            && (Renamed(old', new', x) in t.roots <==> x in s.roots)
            && (Renamed(old', new', x) in t.nodes <==> x in s.nodes)
            && (x in s.nodes ==> t.nodes[Renamed(old', new', x)] == s.nodes[x].(id := Renamed(old', new', x)))
  {
    hide EdgeKey, Reaches;
    var t := RenameNode(s, old', new');
    RenameRoundTrip(s, old', new');
    if Reaches(s.edges, kinds, x, y) {
      RenamedReaches(s.edges, kinds, old', new', x, y);
    }
    if Reaches(t.edges, kinds, Renamed(old', new', x), Renamed(old', new', y)) {
      RenamedReaches(t.edges, kinds, new', old', Renamed(old', new', x), Renamed(old', new', y));
      assert RenamedEdges(new', old', t.edges) == s.edges;
    }
    if x in s.roots {
      var i :| 0 <= i < |s.roots| && s.roots[i] == x;
      assert t.roots[i] == Renamed(old', new', x);
    }
    if Renamed(old', new', x) in t.roots {
      var i :| 0 <= i < |t.roots| && t.roots[i] == Renamed(old', new', x);
      assert s.roots[i] in s.roots;
    }
  }

  // ----- In constructors and characters -----

  // A node that is new is stored as given, but a missing kind is a package and a missing risk is clean; one
  // whose identifier is taken changes nothing.
  lemma AddedInWords(s: State, n: Node)
    ensures n.id in s.nodes ==> AddNode(s, n) == s
    ensures n.id !in s.nodes ==>
              && AddNode(s, n).nodes.Keys == s.nodes.Keys + {n.id} && AddNode(s, n).order == s.order + [n.id]
              && (forall id :: id in s.nodes ==> AddNode(s, n).nodes[id] == s.nodes[id])
              && (n.kind != UnsetKind && n.risk != NoRisk ==> AddNode(s, n).nodes[n.id] == n)
              && (n.kind == UnsetKind ==> AddNode(s, n).nodes[n.id].kind == Package)
              && (n.risk == NoRisk ==> AddNode(s, n).nodes[n.id].risk == Clean)
              && AddNode(s, n).nodes[n.id].(kind := n.kind, risk := n.risk) == n
  {
  }

  // The edge index joins its parts by the zero character, and names depend-on edges so.
  lemma KeysInText(a: string, b: string)
    ensures EdgeKey(Edge(a, b, DependsOn)) == a + "\0" + b + "\0" + "depends-on"
    ensures NulFree(a) <==> forall i :: 0 <= i < |a| ==> a[i] != '\0'
  {
  }
}
