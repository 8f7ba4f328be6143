// The graph the tool mutates: the same operations as GraphState, done in place.
module GraphStore {
  import opened Prelude
  import opened GraphTypes
  import opened Sorting
  import opened Reach
  import GraphState
  import Paths

  class Graph {
    var nodes: map<string, Node>
    var edges: seq<Edge>
    var roots: seq<string>
    var order: seq<string>
    var edgeSeen: set<string>

    ghost function View(): GraphState.State
      reads this
    {
      GraphState.State(nodes, edges, roots, order, edgeSeen)
    }

    constructor ()
      ensures View() == GraphState.EMPTY
    {
      nodes, edges, roots, order, edgeSeen := map[], [], [], [], {};
    }

    // First write wins; the canonical node for the identifier comes back either way.
    method AddNode(n: Node) returns (canonical: Node)
      modifies this
      ensures View() == GraphState.AddNode(old(View()), n)
      ensures n.id in nodes && canonical == nodes[n.id]
    {
      if n.id in nodes {
        return nodes[n.id];
      }
      canonical := n;
      if canonical.kind == UnsetKind {
        canonical := canonical.(kind := Package);
      }
      if canonical.risk.NoRisk? {
        canonical := canonical.(risk := GraphState.Defaulted(n).risk);
      }
      nodes := nodes[n.id := canonical];
      order := order + [n.id];
    }

    method AddEdge(from: string, to: string, kind: EdgeType)
      modifies this
      ensures View() == GraphState.AddEdge(old(View()), Edge(from, to, kind))
    {
      var key := GraphState.EdgeKey(Edge(from, to, kind));
      if key in edgeSeen {
        return;
      }
      edgeSeen := edgeSeen + {key};
      edges := edges + [Edge(from, to, kind)];
    }

    method RemoveEdge(from: string, to: string, kind: EdgeType) returns (removed: bool)
      modifies this
      ensures View() == GraphState.RemoveEdge(old(View()), Edge(from, to, kind))
      ensures removed == (GraphState.EdgeKey(Edge(from, to, kind)) in old(edgeSeen))
    {
      var e := Edge(from, to, kind);
      var key := GraphState.EdgeKey(e);
      if key !in edgeSeen {
        return false;
      }
      hide GraphState.EdgeKey, GraphState.RemoveFirst;
      edgeSeen := edgeSeen - {key};
      for i := 0 to |edges|
        invariant edges == old(edges) && edgeSeen == old(edgeSeen) - {key}
        invariant nodes == old(nodes) && roots == old(roots) && order == old(order)
        invariant e !in edges[..i]
      {
        if edges[i] == e {
          GraphState.RemoveFirstAt(edges, e, i);
          edges := edges[..i] + edges[i + 1..];
          return true;
        }
      }
      assert edges[..|edges|] == edges;
      GraphState.RemoveFirstAbsent(edges, e);
      return true;
    }

    method MarkRoot(id: string)
      modifies this
      ensures View() == GraphState.MarkRoot(old(View()), id)
    {
      for i := 0 to |roots|
        invariant id !in roots[..i]
        invariant View() == old(View())
      {
        if roots[i] == id {
          return;
        }
      }
      assert roots == roots[..|roots|];
      roots := roots + [id];
    }

    // Reports whether the node now carries the new identifier.
    method RenameNode(before: string, after: string) returns (ok: bool)
      modifies this
      ensures View() == GraphState.RenameNode(old(View()), before, after)
      ensures ok <==> before == after || (before in old(nodes) && after !in old(nodes))
    {
      if before == after {
        return true;
      }
      if before !in nodes {
        return false;
      }
      if after in nodes {
        return false;
      }
      var n := nodes[before];
      nodes := (nodes - {before})[after := n.(id := after)];
      ghost var s := old(View());
      for i := 0 to |order|
        invariant |order| == |s.order| && edges == s.edges && roots == s.roots && edgeSeen == s.edgeSeen
        invariant nodes == (s.nodes - {before})[after := n.(id := after)]
        invariant forall j :: 0 <= j < |order| ==>
                    order[j] == if j < i then GraphState.Renamed(before, after, s.order[j]) else s.order[j]
      {
        if order[i] == before {
          order := order[i := after];
        }
      }
      assert order == GraphState.RenamedAll(before, after, s.order);
      for i := 0 to |edges|
        invariant |edges| == |s.edges| && order == GraphState.RenamedAll(before, after, s.order) && roots == s.roots
        invariant nodes == (s.nodes - {before})[after := n.(id := after)]
        invariant forall j :: 0 <= j < |edges| ==>
                    edges[j] == if j < i then GraphState.RenamedEdge(before, after, s.edges[j]) else s.edges[j]
      {
        if edges[i].from == before {
          edges := edges[i := edges[i].(from := after)];
        }
        if edges[i].to == before {
          edges := edges[i := edges[i].(to := after)];
        }
      }
      assert edges == GraphState.RenamedEdges(before, after, s.edges);
      for i := 0 to |roots|
        invariant |roots| == |s.roots| && order == GraphState.RenamedAll(before, after, s.order)
        invariant edges == GraphState.RenamedEdges(before, after, s.edges)
        invariant nodes == (s.nodes - {before})[after := n.(id := after)]
        invariant forall j :: 0 <= j < |roots| ==>
                    roots[j] == if j < i then GraphState.Renamed(before, after, s.roots[j]) else s.roots[j]
      {
        if roots[i] == before {
          roots := roots[i := after];
        }
      }
      assert roots == GraphState.RenamedAll(before, after, s.roots);
      hide GraphState.EdgeKey;
      edgeSeen := {};
      for i := 0 to |edges|
        invariant order == GraphState.RenamedAll(before, after, s.order) &&
                  roots == GraphState.RenamedAll(before, after, s.roots)
        invariant edges == GraphState.RenamedEdges(before, after, s.edges)
        invariant nodes == (s.nodes - {before})[after := n.(id := after)]
        invariant edgeSeen == GraphState.Keys(edges[..i])
      {
        assert edges[..i + 1] == edges[..i] + [edges[i]];
        edgeSeen := edgeSeen + {GraphState.EdgeKey(edges[i])};
        assert forall f :: f in edges[..i + 1] <==> f in edges[..i] || f == edges[i];
      }
      assert edges[..|edges|] == edges;
      return true;
    }

    // The identifiers, in whatever order the map happens to be walked.
    method NodeIds() returns (ids: seq<string>)
      ensures NoDuplicates(ids)
      ensures forall id :: id in ids <==> id in nodes
    {
      ids := [];
      var rest := nodes.Keys;
      while rest != {}
        invariant rest <= nodes.Keys && NoDuplicates(ids)
        invariant forall id :: id in ids <==> id in nodes && id !in rest
        decreases rest
      {
        var id :| id in rest;
        ids := ids + [id];
        rest := rest - {id};
      }
    }

    // The nodes in identifier order.
    method SortedNodes() returns (out: seq<Node>)
      requires GraphState.Listed(View())
      ensures out == GraphState.SortedNodes(View())
    {
      hide StringLess, Sort;
      var ids := NodeIds();
      SameMembers(ids, order);
      StringOrder();
      SortForgetsOrder(ids, order, StringLess);
      ids := Sort(ids, StringLess);
      SortMembers(order, StringLess);
      out := [];
      for i := 0 to |ids|
        invariant |out| == i
        invariant forall j :: 0 <= j < i ==> ids[j] in nodes && out[j] == nodes[ids[j]]
      {
        assert ids[i] in ids;
        out := out + [nodes[ids[i]]];
      }
    }

    method AddNodes(ns: seq<Node>)
      modifies this
      ensures View() == GraphState.AddNodes(old(View()), ns)
    {
      hide GraphState.AddNode;
      for i := 0 to |ns|
        invariant View() == GraphState.AddNodes(old(View()), ns[..i])
      {
        assert ns[..i + 1][..i] == ns[..i];
        var _ := AddNode(ns[i]);
      }
      assert ns[..|ns|] == ns;
    }

    method AddEdges(es: seq<Edge>)
      modifies this
      ensures View() == GraphState.AddEdges(old(View()), es)
    {
      hide GraphState.AddEdge;
      for i := 0 to |es|
        invariant View() == GraphState.AddEdges(old(View()), es[..i])
      {
        assert es[..i + 1][..i] == es[..i];
        AddEdge(es[i].from, es[i].to, es[i].kind);
      }
      assert es[..|es|] == es;
    }

    method MarkRoots(ids: seq<string>)
      modifies this
      ensures View() == GraphState.MarkRoots(old(View()), ids)
    {
      hide GraphState.MarkRoot;
      for i := 0 to |ids|
        invariant View() == GraphState.MarkRoots(old(View()), ids[..i])
      {
        assert ids[..i + 1][..i] == ids[..i];
        MarkRoot(ids[i]);
      }
      assert ids[..|ids|] == ids;
    }

    // Folds src in: first write wins, edges and roots deduplicated.
    method Merge(src: Graph?)
      requires src != null ==> GraphState.Listed(src.View())
      modifies this
      ensures src == null ==> View() == old(View())
      ensures src != null ==> View() == GraphState.Merge(old(View()), old(src.View()))
    {
      if src == null {
        return;
      }
      hide GraphState.SortedNodes, Sort, GraphState.AddNodes, GraphState.AddEdges, GraphState.MarkRoots;
      var ns := src.SortedNodes();
      var es := Sort(src.edges, GraphState.EdgeLess);
      var rs := src.roots;
      AddNodes(ns);
      AddEdges(es);
      MarkRoots(rs);
    }

    // The roots that are in the graph.
    ghost function Starts(): set<string>
      reads this
    {
      set r | r in roots && r in nodes
    }

    // The shortest dependency path from any root, first in identifier order among the shortest:
    // None exactly when the target is no node or no in-graph root reaches it.
    method PathToNode(target: string) returns (path: Option<seq<string>>)
      ensures path.Some? <==>
                target != "" && target in nodes && Paths.Connected(edges, Starts(), target)
      ensures path.Some? ==> Paths.IsAnswer(edges, Starts(), target, path.value)
    {
      if target == "" || target !in nodes {
        return None;
      }
      hide Paths.Connected, Paths.IsAnswer, StringLess;
      var starts := SortedStarts();
      path := ShortestFrom(edges, starts, Starts(), target);
    }

    // The in-graph roots, sorted and without repeats: the queue the search starts from.
    method SortedStarts() returns (starts: seq<string>)
      ensures Increasing(starts)
      ensures NoDuplicates(starts)
      ensures forall r :: r in starts <==> r in roots && r in nodes
    {
      hide StringLess;
      var sorted := Sort(roots, StringLess);
      StringOrder();
      SortSorts(roots, StringLess);
      SortMembers(roots, StringLess);
      hide Sort;
      starts := [];
      var seen: set<string> := {};
      for i := 0 to |sorted|
        invariant forall r :: r in seen <==> r in starts
        invariant forall r :: r in starts <==> r in sorted[..i] && r in nodes
        invariant NoDuplicates(starts)
        invariant Increasing(starts)
      {
        var r := sorted[i];
        assert sorted[..i + 1] == sorted[..i] + [r];
        if r in nodes && r !in seen {
          forall j | 0 <= j < |starts|
            ensures StringLess(starts[j], r)
          {
            assert starts[j] in sorted[..i];
            var k :| 0 <= k < i && sorted[k] == starts[j];
            assert !StringLess(sorted[i], sorted[k]);
          }
          seen := seen + {r};
          starts := starts + [r];
        }
      }
      assert sorted[..|sorted|] == sorted;
    }
  }

  lemma SameMembers(s: seq<string>, t: seq<string>)
    requires NoDuplicates(s) && NoDuplicates(t)
    requires forall x :: x in s <==> x in t
    ensures multiset(s) == multiset(t)
  {
    NoDuplicatesMultiset(s);
    NoDuplicatesMultiset(t);
    forall x
      ensures multiset(s)[x] == multiset(t)[x]
    {
      assert x in s <==> x in multiset(s);
      assert x in t <==> x in multiset(t);
    }
  }

  lemma EdgesSorted(es: seq<Edge>)
    ensures Sorted(Sort(es, GraphState.EdgeLess), GraphState.EdgeLess)
    ensures forall e :: e in Sort(es, GraphState.EdgeLess) <==> e in es
  {
    hide GraphState.EdgeLess;
    GraphState.EdgeOrder();
    SortSorts(es, GraphState.EdgeLess);
    SortMembers(es, GraphState.EdgeLess);
  }

  lemma RootIsBest(es: seq<Edge>, fs: seq<Edge>, from: set<string>, starts: seq<string>,
                   tree: map<string, seq<string>>, target: string)
    requires forall e :: e in es <==> e in fs
    requires Paths.Searching(es, from, starts, 0, tree) && target in starts && tree[target] == [target]
    requires target != ""
    ensures Paths.IsAnswer(fs, from, target, [target]) && Paths.Connected(fs, from, target)
  {
    hide Hop, Paths.PathLess;
    Paths.BestIgnoresEdgeOrder(es, fs, from, target, [target]);
    Paths.AfterLastEmptyStep([], target);
    assert [] + [target] == [target];
  }

  // What a search over es found holds over any edge list with the same members.
  lemma SameEdgesSamePaths(es: seq<Edge>, fs: seq<Edge>, from: set<string>, target: string, path: Option<seq<string>>)
    requires forall e :: e in es <==> e in fs
    requires path.Some? <==> Paths.Connected(es, from, target)
    requires path.Some? ==> Paths.IsAnswer(es, from, target, path.value)
    ensures path.Some? <==> Paths.Connected(fs, from, target)
    ensures path.Some? ==> Paths.IsAnswer(fs, from, target, path.value)
  {
    hide Paths.PathLess, Hop, Paths.IsBest;
    forall p
      ensures Paths.Leads(es, from, target, p) <==> Paths.Leads(fs, from, target, p)
    {
      Paths.SamePaths(es, fs, p);
    }
    if path.Some? {
      var p :| Paths.IsBest(es, from, target, p) && path.value == Paths.AfterLastEmpty(p);
      Paths.BestIgnoresEdgeOrder(es, fs, from, target, p);
    }
  }

  // The search itself, over any edge list: the edges are sorted first, so that the answer does not
  // depend on the order they were added in.
  method ShortestFrom(edges: seq<Edge>, starts: seq<string>, ghost from: set<string>, target: string)
    returns (path: Option<seq<string>>)
    requires target != ""
    requires Increasing(starts)
    requires NoDuplicates(starts) && forall x :: x in from <==> x in starts
    ensures path.Some? <==> Paths.Connected(edges, from, target)
    ensures path.Some? ==> Paths.IsAnswer(edges, from, target, path.value)
  {
    hide Paths.IsAnswer, Paths.Connected, Paths.Searching, Sorted, Sort, StringLess, GraphState.EdgeLess;
    var es := Sort(edges, GraphState.EdgeLess);
    EdgesSorted(edges);
    var adj := BuildAdjacency(es, Paths.DEPENDS);
    assert (set x | x in starts) == from;
    Paths.SearchStarts(es, starts, map x | x in starts :: [x]);
    if target in starts {
      RootIsBest(es, edges, from, starts, map x | x in starts :: [x], target);
      return Some([target]);
    }
    path := Search(target, es, adj, starts, from);
    SameEdgesSamePaths(es, edges, from, target, path);
  }

  // The loop state of the search, apart from the queue: seen mirrors found, prev mirrors tree.
  ghost predicate Bookkeeping(found: seq<string>, seen: set<string>, prev: map<string, string>,
                              tree: map<string, seq<string>>,
                              universe: set<string>, target: string) {
    && (forall x :: x in seen <==> x in found)
    && (forall x :: x in tree <==> x in found)
    && Paths.Predecessors(prev, tree)
    && target !in found
    && (forall x :: x in found ==> x in universe)
  }

  lemma BookkeepingGrows(found: seq<string>, seen: set<string>, prev: map<string, string>,
                         tree: map<string, seq<string>>,
                         universe: set<string>, target: string, cur: string, next: string)
    requires Bookkeeping(found, seen, prev, tree, universe, target)
    requires cur in tree && next !in seen && next in universe
    ensures Paths.Predecessors(prev[next := cur], tree)
    ensures next != target ==>
              Bookkeeping(found + [next], seen + {next}, prev[next := cur], tree[next := tree[cur] + [next]], universe,
                          target)
  {
  }

  // The nodes discovered while exploring the first k neighbours of cur.
  ghost predicate Exploring(found: seq<string>, known: seq<string>, tree: map<string, seq<string>>, ts: seq<string>,
                            k: nat, cur: string) {
    && cur in tree && k <= |ts|
    && (forall x :: x in found && x !in known ==> x in tree && x in ts[..k] && tree[x] == tree[cur] + [x])
    && (forall i :: 0 <= i < k ==> ts[i] in found)
  }

  // The breadth-first loop: a queue of discovered nodes and a predecessor for each but the starts.
  method Search(target: string, es: seq<Edge>, adj: Adjacency, starts: seq<string>, ghost from: set<string>)
    returns (path: Option<seq<string>>)
    requires target != "" && target !in starts
    requires forall x :: At(adj, x) == Targets(es, Paths.DEPENDS, x)
    requires Sorted(es, GraphState.EdgeLess)
    requires from == set x | x in starts
    requires Paths.Searching(es, from, starts, 0, map x | x in starts :: [x])
    ensures path.Some? <==> Paths.Connected(es, from, target)
    ensures path.Some? ==> Paths.IsAnswer(es, from, target, path.value)
  {
    hide Hop, Paths.PathLess, Paths.IsBest, Paths.Searching, Paths.Behind, Paths.Connected, Paths.IsAnswer;
    hide StringLess, GraphState.EdgeLess, Targets, Bookkeeping;
    ghost var universe := from + set e | e in es :: e.to;
    ghost var found, done, tree := starts, 0, map x | x in starts :: [x];
    var seen, queue := (set x | x in starts), starts;
    var prev: map<string, string> := map[];
    StartBookkeeping(starts, universe, target);
    Paths.StartsBehind(starts, tree);
    path := None;
    while queue != [] && path == None
      invariant path == None ==> Paths.Searching(es, from, found, done, tree)
      invariant path == None ==> done <= |found| && queue == found[done..]
      invariant path == None ==> Bookkeeping(found, seen, prev, tree, universe, target)
      invariant path == None && done < |found| ==> Paths.Behind(found, tree, found, found[done])
      invariant path.Some? ==> Paths.IsAnswer(es, from, target, path.value)
      decreases |universe| - done
    {
      FoundFitsUniverse(es, from, found, done, tree, seen, prev, universe, target);
      var cur := queue[0];
      var ts := At(adj, cur);
      Paths.TargetsSorted(es, cur);
      path, seen, queue, prev, found, tree :=
        Explore(target, es, from, cur, ts, seen, queue[1..], prev, found, done, tree, universe);
      done := done + 1;
    }
    if path.Some? {
      AnswerLeads(es, from, target, path.value);
    } else {
      NoPath(es, from, found, tree, seen, prev, universe, target);
    }
  }

  lemma StartBookkeeping(starts: seq<string>, universe: set<string>, target: string)
    requires target !in starts && forall x :: x in starts ==> x in universe
    ensures Bookkeeping(starts, (set x | x in starts), map[], (map x | x in starts :: [x]), universe, target)
  {
  }

  lemma NoPath(es: seq<Edge>, from: set<string>, found: seq<string>, tree: map<string, seq<string>>,
               seen: set<string>, prev: map<string, string>, universe: set<string>, target: string)
    requires Paths.Searching(es, from, found, |found|, tree)
    requires Bookkeeping(found, seen, prev, tree, universe, target)
    ensures !Paths.Connected(es, from, target)
  {
    hide Paths.Searching, Paths.Leads;
    forall p
      ensures !Paths.Leads(es, from, target, p)
    {
      if Paths.Leads(es, from, target, p) {
        Paths.SearchExhausted(es, from, found, tree, target, p);
      }
    }
  }

  lemma AnswerLeads(es: seq<Edge>, from: set<string>, target: string, chain: seq<string>)
    requires Paths.IsAnswer(es, from, target, chain)
    ensures Paths.Connected(es, from, target)
  {
    hide Paths.Leads, Paths.PathAtMost, Paths.AfterLastEmpty;
    var p :| Paths.IsBest(es, from, target, p) && chain == Paths.AfterLastEmpty(p);
    assert Paths.Leads(es, from, target, p);
  }

  // One turn of the loop: discovers the unseen neighbours of cur, and answers if the target is one.
  method Explore(target: string, ghost es: seq<Edge>, ghost from: set<string>, cur: string, ts: seq<string>,
                 seen0: set<string>, queue0: seq<string>, prev0: map<string, string>,
                 ghost found0: seq<string>, ghost done: nat, ghost tree0: map<string, seq<string>>,
                 ghost universe: set<string>)
    returns (path: Option<seq<string>>, seen: set<string>, queue: seq<string>, prev: map<string, string>,
             ghost found: seq<string>, ghost tree: map<string, seq<string>>)
    requires target != "" && ts == Targets(es, Paths.DEPENDS, cur) && Sorted(ts, StringLess)
    requires forall e :: e in es ==> e.to in universe
    requires Paths.Searching(es, from, found0, done, tree0) && done < |found0| && found0[done] == cur
    requires queue0 == found0[done + 1..]
    requires Bookkeeping(found0, seen0, prev0, tree0, universe, target)
    requires Paths.Behind(found0, tree0, found0, cur)
    ensures path == None ==> done < |found| && Paths.Searching(es, from, found, done + 1, tree)
    ensures path == None ==> queue == found[done + 1..] && Bookkeeping(found, seen, prev, tree, universe, target)
    ensures path == None && done + 1 < |found| ==> Paths.Behind(found, tree, found, found[done + 1])
    ensures path.Some? ==> Paths.IsAnswer(es, from, target, path.value)
  {
    hide Hop, Paths.PathLess, Paths.IsBest, Paths.Searching, Paths.Behind, StringLess, Targets, Paths.IsAnswer,
         Bookkeeping, Exploring;
    path, seen, queue, prev, found, tree := None, seen0, queue0, prev0, found0, tree0;
    StartExploring(found, tree, seen, prev, universe, target, ts, cur);
    for k := 0 to |ts|
      invariant Paths.Searching(es, from, found, done, tree)
      invariant done < |found| && found[done] == cur && queue == found[done + 1..]
      invariant Bookkeeping(found, seen, prev, tree, universe, target)
      invariant Paths.Behind(found, tree, found0, cur)
      invariant Exploring(found, found0, tree, ts, k, cur)
    {
      var next := ts[k];
      SeenIsFound(found, seen, prev, tree, universe, target);
      TargetIsHop(es, cur, ts, k, universe);
      if next !in seen {
        ExploringGrows(found, found0, tree, ts, k, cur);
        Paths.ExploreNeighbour(es, from, found, done, tree, found0, ts, k);
        BookkeepingGrows(found, seen, prev, tree, universe, target, cur, next);
        seen := seen + {next};
        prev := prev[next := cur];
        if next == target {
          Paths.DiscoveredIsBest(es, from, found, done, tree, next);
          var chain := Reconstruct(prev, tree, cur, next);
          Answer(es, from, target, tree[cur] + [next], chain);
          return Some(chain), seen, queue, prev, found, tree;
        }
        Paths.BehindGrows(found, tree, found0, cur, next);
        tree := tree[next := tree[cur] + [next]];
        found := found + [next];
        queue := queue + [next];
      } else {
        ExploringKnown(found, found0, tree, ts, k, cur);
      }
    }
    AllNeighboursFound(es, cur, ts, found, found0, tree);
    Paths.MoveOn(es, from, found, done, tree, found0);
  }

  lemma StartExploring(found: seq<string>, tree: map<string, seq<string>>, seen: set<string>, prev: map<string, string>,
                       universe: set<string>, target: string, ts: seq<string>, cur: string)
    requires Bookkeeping(found, seen, prev, tree, universe, target) && cur in found
    ensures Exploring(found, found, tree, ts, 0, cur)
  {
  }

  lemma Answer(es: seq<Edge>, from: set<string>, target: string, p: seq<string>, chain: seq<string>)
    requires Paths.IsBest(es, from, target, p) && chain == Paths.AfterLastEmpty(p)
    ensures Paths.IsAnswer(es, from, target, chain)
  {
    hide Paths.IsBest, Paths.AfterLastEmpty;
  }

  lemma FoundFitsUniverse(es: seq<Edge>, from: set<string>, found: seq<string>, done: nat,
                          tree: map<string, seq<string>>,
                          seen: set<string>, prev: map<string, string>, universe: set<string>, target: string)
    requires Paths.Searching(es, from, found, done, tree) && Bookkeeping(found, seen, prev, tree, universe, target)
    ensures |found| <= |universe|
  {
    hide Hop, Paths.PathLess, Paths.IsBest;
    Paths.NoMoreThan(found, universe);
  }

  lemma SeenIsFound(found: seq<string>, seen: set<string>, prev: map<string, string>, tree: map<string, seq<string>>,
                    universe: set<string>, target: string)
    requires Bookkeeping(found, seen, prev, tree, universe, target)
    ensures forall x :: x in seen <==> x in found
    ensures forall x :: x in tree <==> x in found
    ensures forall i :: 0 <= i < |found| ==> found[i] in tree
  {
  }

  lemma TargetIsHop(es: seq<Edge>, cur: string, ts: seq<string>, k: nat, universe: set<string>)
    requires ts == Targets(es, Paths.DEPENDS, cur) && k < |ts|
    requires forall e :: e in es ==> e.to in universe
    ensures Hop(es, Paths.DEPENDS, cur, ts[k]) && ts[k] in universe
  {
    hide Targets;
    assert ts[k] in ts;
    TargetsAreHops(es, Paths.DEPENDS, cur, ts[k]);
  }

  lemma ExploringGrows(found: seq<string>, known: seq<string>, tree: map<string, seq<string>>, ts: seq<string>, k: nat,
                       cur: string)
    requires Exploring(found, known, tree, ts, k, cur) && k < |ts| && cur in found && ts[k] !in found
    ensures Exploring(found + [ts[k]], known, tree[ts[k] := tree[cur] + [ts[k]]], ts, k + 1, cur)
    ensures forall x :: x in found && x !in known ==> x in tree && x in ts[..k] && tree[x] == tree[cur] + [x]
  {
    assert ts[..k + 1] == ts[..k] + [ts[k]];
  }

  lemma ExploringKnown(found: seq<string>, known: seq<string>, tree: map<string, seq<string>>, ts: seq<string>, k: nat,
                       cur: string)
    requires Exploring(found, known, tree, ts, k, cur) && k < |ts| && ts[k] in found
    ensures Exploring(found, known, tree, ts, k + 1, cur)
  {
    assert ts[..k + 1] == ts[..k] + [ts[k]];
  }

  lemma AllNeighboursFound(es: seq<Edge>, cur: string, ts: seq<string>, found: seq<string>, known: seq<string>,
                           tree: map<string, seq<string>>)
    requires ts == Targets(es, Paths.DEPENDS, cur) && Exploring(found, known, tree, ts, |ts|, cur)
    ensures forall y :: Hop(es, Paths.DEPENDS, cur, y) ==> y in found
    ensures forall x :: x in found && x !in known ==> x in tree && tree[x] == tree[cur] + [x]
  {
    hide Hop, Targets;
    forall y | Hop(es, Paths.DEPENDS, cur, y)
      ensures y in found
    {
      TargetsAreHops(es, Paths.DEPENDS, cur, y);
      var i :| 0 <= i < |ts| && ts[i] == y;
    }
  }

  // Follows predecessors back from cur, then reverses the chain in place.
  method Reconstruct(prev: map<string, string>, ghost tree: map<string, seq<string>>, cur: string, next: string)
    returns (chain: seq<string>)
    requires cur in tree && next != "" && Paths.Predecessors(prev, tree)
    ensures chain == Paths.AfterLastEmpty(tree[cur] + [next])
  {
    hide Paths.AfterLastEmpty, Backwards;
    ghost var whole := Paths.AfterLastEmpty(tree[cur] + [next]);
    chain := [next];
    var at := cur;
    Paths.AfterLastEmptyStep(tree[cur], next);
    BackwardsGrows([], next);
    EndsInItself(prev, tree, cur);
    while at != ""
      invariant at != "" ==> at in tree
      invariant whole == (if at == "" then [] else Paths.AfterLastEmpty(tree[at])) + Backwards(chain)
      decreases if at == "" then 0 else |tree[at]|
    {
      BackwardsGrows(chain, at);
      Regroup(if at in prev then Paths.AfterLastEmpty(tree[prev[at]]) else [], at, Backwards(chain));
      EndsInItself(prev, tree, at);
      if at in prev {
        EndsInItself(prev, tree, prev[at]);
      }
      chain := chain + [at];
      at := if at in prev then prev[at] else "";
    }
    chain := Reverse(chain);
  }

  lemma Regroup(a: seq<string>, x: string, b: seq<string>)
    ensures (a + [x]) + b == a + ([x] + b)
    ensures [] + [x] == [x]
  {
  }

  method Reverse(s: seq<string>) returns (r: seq<string>)
    ensures r == Backwards(s)
  {
    r := s;
    var i, j := 0, |r| - 1;
    while i < j
      invariant 0 <= i && i + j == |r| - 1 && |r| == |s| && i <= j + 1
      invariant forall k :: i <= k <= j ==> r[k] == s[k]
      invariant forall k :: 0 <= k < i || j < k < |r| ==> r[k] == Backwards(s)[k]
    {
      r := r[i := r[j]][j := r[i]];
      i, j := i + 1, j - 1;
    }
  }

  lemma BackwardsGrows(s: seq<string>, x: string)
    ensures Backwards(s + [x]) == [x] + Backwards(s)
    ensures Backwards([x]) == [x]
  {
  }

  // A tree path ends in its own node; past it, reconstruction continues at the predecessor.
  lemma EndsInItself(prev: map<string, string>, tree: map<string, seq<string>>, x: string)
    requires x in tree && Paths.Predecessors(prev, tree)
    ensures x == "" ==> Paths.AfterLastEmpty(tree[x]) == []
    ensures x != "" && x !in prev ==> Paths.AfterLastEmpty(tree[x]) == [x]
    ensures x != "" && x in prev ==>
              prev[x] in tree && Paths.AfterLastEmpty(tree[x]) == Paths.AfterLastEmpty(tree[prev[x]]) + [x]
    ensures x in prev ==> prev[x] in tree && |tree[prev[x]]| < |tree[x]|
    ensures 0 < |tree[x]|
  {
    hide Paths.AfterLastEmpty;
    if x in prev {
      assert tree[x] == tree[prev[x]] + [x];
      Paths.AfterLastEmptyStep(tree[prev[x]], x);
    } else {
      assert tree[x] == [] + [x];
      Paths.AfterLastEmptyStep([], x);
      NothingAfterNothing();
    }
  }

  lemma NothingAfterNothing()
    ensures Paths.AfterLastEmpty([]) == []
  {
  }
}
