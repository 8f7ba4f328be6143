// The algebra of merging graphs, and consistency over whole runs of mutations.
module GraphMerge {
  import opened Findings
  import opened GraphTypes
  import opened Sorting
  import opened GraphState
  import opened GraphLaws

  // ----- What the three folds of a merge produce -----

  function IdsOf(ns: seq<Node>): set<string> {
    set n | n in ns :: n.id
  }

  // t is s with the nodes of m that have the given identifiers filled in where s had none.
  ghost predicate NodesAdded(s: State, ids: set<string>, m: map<string, Node>, t: State) {
    && t.edges == s.edges && t.edgeSeen == s.edgeSeen && t.roots == s.roots
    && t.nodes.Keys == s.nodes.Keys + ids
    && (forall id :: id in s.nodes ==> id in t.nodes && t.nodes[id] == s.nodes[id])
    && (forall id :: id in t.nodes && id !in s.nodes ==> id in m && t.nodes[id] == m[id])
  }

  lemma AddNodeExtends(s: State, ids: set<string>, m: map<string, Node>, t: State, n: Node)
    requires NodesAdded(s, ids, m, t)
    requires n.id in m && m[n.id] == n && Defaulted(n) == n
    ensures NodesAdded(s, ids + {n.id}, m, AddNode(t, n))
  {
    hide Defaulted;
    assert AddNode(t, n).nodes.Keys == t.nodes.Keys + {n.id};
  }

  lemma {:induction false} AddNodesResult(s: State, ns: seq<Node>, m: map<string, Node>)
    requires Consistent(s)
    requires forall n :: n in ns ==> n.id in m && m[n.id] == n && Defaulted(n) == n
    ensures Consistent(AddNodes(s, ns)) && NodesAdded(s, IdsOf(ns), m, AddNodes(s, ns))
  {
    hide EdgeKey, Consistent, Defaulted, AddNode;
    if ns == [] {
      assert NodesAdded(s, {}, m, s);
    } else {
      hide NodesAdded;
      var rest, n := ns[..|ns| - 1], ns[|ns| - 1];
      assert ns == rest + [n];
      AddNodesResult(s, rest, m);
      AddNodeKeeps(AddNodes(s, rest), n);
      AddNodeExtends(s, IdsOf(rest), m, AddNodes(s, rest), n);
      assert IdsOf(ns) == IdsOf(rest) + {n.id};
    }
  }

  lemma {:induction false} AddNodesPresent(s: State, ns: seq<Node>)
    requires forall i :: 0 <= i < |ns| ==> ns[i].id in s.nodes
    ensures AddNodes(s, ns) == s
  {
    if ns != [] {
      AddNodesPresent(s, ns[..|ns| - 1]);
    }
  }

  ghost predicate EdgesAdded(s: State, es: seq<Edge>, t: State) {
    && t.nodes == s.nodes && t.order == s.order && t.roots == s.roots
    && t.edgeSeen == s.edgeSeen + Keys(es)
    && (forall e :: e in t.edges <==> e in s.edges || (e in es && EdgeKey(e) !in s.edgeSeen))
  }

  lemma DistinctInit(es: seq<Edge>, e: Edge)
    requires DistinctKeys(es + [e])
    ensures DistinctKeys(es) && EdgeKey(e) !in Keys(es)
  {
    hide EdgeKey;
    var all := es + [e];
    forall f | f in es
      ensures EdgeKey(f) != EdgeKey(e)
    {
      var i :| 0 <= i < |es| && es[i] == f;
      assert all[i] == f && EdgeKey(all[i]) != EdgeKey(all[|es|]);
    }
    forall i, j | 0 <= i < j < |es|
      ensures EdgeKey(es[i]) != EdgeKey(es[j])
    {
      assert EdgeKey(all[i]) != EdgeKey(all[j]);
    }
  }

  lemma {:induction false} AddEdgesResult(s: State, es: seq<Edge>)
    requires Consistent(s) && DistinctKeys(es)
    ensures Consistent(AddEdges(s, es)) && EdgesAdded(s, es, AddEdges(s, es))
  {
    hide EdgeKey, Consistent, DistinctKeys, Keys;
    if es == [] {
      assert Keys(es) == {} by { NoKeys(); }
    } else {
      var rest, e := es[..|es| - 1], es[|es| - 1];
      assert es == rest + [e];
      DistinctInit(rest, e);
      AddEdgesResult(s, rest);
      AddEdgeKeeps(AddEdges(s, rest), e);
      KeysOfAppend(rest, e);
    }
  }

  lemma NoKeys()
    ensures Keys([]) == {}
  {
  }

  lemma {:induction false} AddEdgesPresent(s: State, es: seq<Edge>)
    requires forall e :: e in es ==> EdgeKey(e) in s.edgeSeen
    ensures AddEdges(s, es) == s
  {
    hide EdgeKey;
    if es != [] {
      AddEdgesPresent(s, es[..|es| - 1]);
    }
  }

  // The members of ids that are not known yet, in order.
  function Fresh(known: seq<string>, ids: seq<string>): seq<string> {
    if ids == [] then []
    else
      var rest := Fresh(known, ids[..|ids| - 1]);
      if ids[|ids| - 1] in known then rest else rest + [ids[|ids| - 1]]
  }

  lemma {:induction false} FreshMembers(known: seq<string>, ids: seq<string>)
    ensures forall x :: x in Fresh(known, ids) <==> x in ids && x !in known
  {
    if ids != [] {
      FreshMembers(known, ids[..|ids| - 1]);
      assert ids == ids[..|ids| - 1] + [ids[|ids| - 1]];
    }
  }

  lemma {:induction false} MarkRootsResult(s: State, ids: seq<string>)
    requires NoDuplicates(ids) && Consistent(s)
    ensures var t := MarkRoots(s, ids);
            && Consistent(t)
            && t == s.(roots := s.roots + Fresh(s.roots, ids))
  {
    hide EdgeKey;
    if ids != [] {
      var rest, id := ids[..|ids| - 1], ids[|ids| - 1];
      MarkRootsResult(s, rest);
      FreshMembers(s.roots, rest);
      MarkRootKeeps(MarkRoots(s, rest), id);
      assert id !in rest;
    }
  }

  lemma {:induction false} MarkRootsPresent(s: State, ids: seq<string>)
    requires forall id :: id in ids ==> id in s.roots
    ensures MarkRoots(s, ids) == s
  {
    if ids != [] {
      MarkRootsPresent(s, ids[..|ids| - 1]);
    }
  }

  lemma SortedEdgesDistinct(s: State)
    requires Indexed(s)
    ensures DistinctKeys(SortedEdges(s))
    ensures forall e :: e in SortedEdges(s) <==> e in s.edges
    ensures Keys(SortedEdges(s)) == s.edgeSeen
  {
    hide EdgeKey;
    SortMembers(s.edges, EdgeLess);
    SortPermutes(s.edges, EdgeLess);
    assert NoDuplicates(s.edges) by {
      forall i, j | 0 <= i < j < |s.edges|
        ensures s.edges[i] != s.edges[j]
      {
        assert EdgeKey(s.edges[i]) != EdgeKey(s.edges[j]);
      }
    }
    NoDuplicatesMultiset(s.edges);
    NoDuplicatesMultiset(SortedEdges(s));
    var es := SortedEdges(s);
    forall i, j | 0 <= i < j < |es|
      ensures EdgeKey(es[i]) != EdgeKey(es[j])
    {
      assert es[i] != es[j] && es[i] in es && es[j] in es;
      if EdgeKey(es[i]) == EdgeKey(es[j]) {
        SameKeySameEdge(s.edges, es[i], es[j]);
      }
    }
  }

  // A merge unions the nodes, the first graph winning; adds the edges whose key is new; and appends
  // the roots that are new, in the second graph's order.
  ghost predicate IsMerge(s: State, src: State, t: State) {
    && t.nodes == src.nodes + s.nodes
    && t.edgeSeen == s.edgeSeen + src.edgeSeen
    && (forall e :: e in t.edges <==> e in s.edges || (e in src.edges && EdgeKey(e) !in s.edgeSeen))
    && t.roots == s.roots + Fresh(s.roots, src.roots)
  }

  lemma NodesAddedUnion(s: State, src: State, t: State)
    requires NodesAdded(s, src.nodes.Keys, src.nodes, t)
    ensures t.nodes == src.nodes + s.nodes
  {
    assert t.nodes.Keys == (src.nodes + s.nodes).Keys;
  }

  lemma SortedNodesIds(s: State)
    requires Listed(s) && WellKeyed(s)
    ensures IdsOf(SortedNodes(s)) == s.nodes.Keys
    ensures forall n :: n in SortedNodes(s) ==> n.id in s.nodes && s.nodes[n.id] == n && Defaulted(n) == n
  {
    hide Defaulted, Sort;
    SortMembers(s.order, StringLess);
    var ids := Sort(s.order, StringLess);
    var ns := SortedNodes(s);
    assert |ns| == |ids|;
    forall i | 0 <= i < |ns|
      ensures ns[i] == s.nodes[ids[i]] && ids[i] in s.nodes && ns[i].id == ids[i]
    {
      assert ids[i] in ids;
    }
    forall id | id in s.nodes
      ensures id in IdsOf(ns)
    {
      assert id in ids;
      var i :| 0 <= i < |ids| && ids[i] == id;
      assert ns[i] in ns;
    }
  }

  lemma MergeContents(s: State, src: State)
    requires Consistent(s) && Consistent(src)
    ensures Consistent(Merge(s, src)) && IsMerge(s, src, Merge(s, src))
  {
    hide EdgeKey, Sort, SortedNodes, SortedEdges, Defaulted, DistinctKeys, Keys, AddNodes, AddEdges, MarkRoots, IdsOf,
         NodesAdded;
    SortedNodesIds(src);
    SortedEdgesDistinct(src);
    var s1 := AddNodes(s, SortedNodes(src));
    AddNodesResult(s, SortedNodes(src), src.nodes);
    NodesAddedUnion(s, src, s1);
    NodesAddedKeepsRest(s, src.nodes.Keys, src.nodes, s1);
    var s2 := AddEdges(s1, SortedEdges(src));
    AddEdgesResult(s1, SortedEdges(src));
    MarkRootsResult(s2, src.roots);
  }

  lemma NodesAddedKeepsRest(s: State, ids: set<string>, m: map<string, Node>, t: State)
    requires NodesAdded(s, ids, m, t)
    ensures t.edges == s.edges && t.edgeSeen == s.edgeSeen && t.roots == s.roots
  {
  }

  lemma MergeNothingNew(s: State, src: State)
    requires Consistent(s) && Consistent(src)
    requires src.nodes.Keys <= s.nodes.Keys && src.edgeSeen <= s.edgeSeen
    requires forall id :: id in src.roots ==> id in s.roots
    ensures Merge(s, src) == s
  {
    hide EdgeKey, Sort, SortedNodes, SortedEdges, Defaulted, DistinctKeys;
    SortedNodesIds(src);
    SortedEdgesDistinct(src);
    AddNodesPresent(s, SortedNodes(src));
    AddEdgesPresent(s, SortedEdges(src));
    MarkRootsPresent(s, src.roots);
  }

  // Merging the same graph again changes nothing, order included.
  lemma MergeIdempotent(s: State, src: State)
    requires Consistent(s) && Consistent(src)
    ensures Merge(Merge(s, src), src) == Merge(s, src)
  {
    assert Listed(src);
    hide EdgeKey, Merge, Fresh, Consistent;
    MergeContents(s, src);
    FreshMembers(s.roots, src.roots);
    MergeNothingNew(Merge(s, src), src);
  }

  // Same facts, whatever order they were inserted in.
  ghost predicate SameContent(s: State, t: State) {
    && s.nodes == t.nodes
    && s.edgeSeen == t.edgeSeen
    && s.roots == t.roots
    && (forall e :: e in s.edges <==> e in t.edges)
  }

  lemma FreshLast(known: seq<string>, ids: seq<string>, id: string)
    ensures Fresh(known, ids + [id]) == if id in known then Fresh(known, ids) else Fresh(known, ids) + [id]
  {
    assert (ids + [id])[..|ids|] == ids;
  }

  lemma {:induction false} FreshOfAppend(known: seq<string>, more: seq<string>, ids: seq<string>)
    ensures Fresh(known, more) + Fresh(known + Fresh(known, more), ids) == Fresh(known, more + Fresh(more, ids))
  {
    if ids == [] {
      assert more + [] == more;
    } else {
      var rest, id := ids[..|ids| - 1], ids[|ids| - 1];
      FreshOfAppend(known, more, rest);
      assert ids == rest + [id];
      FreshOfOneMore(known, more, rest, id);
    }
  }

  lemma FreshOfOneMore(known: seq<string>, more: seq<string>, rest: seq<string>, id: string)
    requires Fresh(known, more) + Fresh(known + Fresh(known, more), rest) == Fresh(known, more + Fresh(more, rest))
    ensures Fresh(known, more) + Fresh(known + Fresh(known, more), rest + [id]) ==
            Fresh(known, more + Fresh(more, rest + [id]))
  {
    hide Fresh;
    FreshMembers(known, more);
    FreshLast(known + Fresh(known, more), rest, id);
    FreshLast(more, rest, id);
    FreshLast(known, more + Fresh(more, rest), id);
    assert id in known + Fresh(known, more) <==> id in known || id in more;
    if id !in more {
      assert more + (Fresh(more, rest) + [id]) == (more + Fresh(more, rest)) + [id];
    }
  }

  lemma TwoMergesAgree(a: State, b: State, c: State, ab: State, bc: State, left: State, right: State)
    requires IsMerge(a, b, ab) && IsMerge(b, c, bc) && IsMerge(ab, c, left) && IsMerge(a, bc, right)
    ensures SameContent(left, right)
  {
    hide EdgeKey, Fresh;
    FreshOfAppend(a.roots, b.roots, c.roots);
    assert left.nodes == right.nodes;
    assert left.edgeSeen == right.edgeSeen;
  }

  // Merging is associative up to insertion order; even the root list agrees exactly.
  lemma MergeAssociative(a: State, b: State, c: State)
    requires Consistent(a) && Consistent(b) && Consistent(c)
    ensures Consistent(Merge(a, b)) && Consistent(Merge(b, c))
    ensures SameContent(Merge(Merge(a, b), c), Merge(a, Merge(b, c)))
  {
    hide EdgeKey, Merge, Fresh, IsMerge;
    MergeContents(a, b);
    MergeContents(b, c);
    assert Listed(b) && Listed(c) && Listed(Merge(b, c));
    hide Consistent;
    MergeContents(Merge(a, b), c);
    MergeContents(a, Merge(b, c));
    TwoMergesAgree(a, b, c, Merge(a, b), Merge(b, c), Merge(Merge(a, b), c), Merge(a, Merge(b, c)));
  }

  // ----- Whole runs -----

  datatype Op =
    | OpAddNode(node: Node)
    | OpAddEdge(added: Edge)
    | OpRemoveEdge(removed: Edge)
    | OpRename(before: string, after: string)
    | OpMarkRoot(root: string)
    | OpMerge(src: State)

  ghost predicate Legal(s: State, op: Op) {
    match op
    case OpAddNode(_) => true
    case OpAddEdge(e) => CleanEdge(e)
    case OpRemoveEdge(e) => CleanEdge(e)
    case OpRename(_, new') => NulFree(new') && !Mentions(s.edges, new') && new' !in s.roots
    case OpMarkRoot(_) => true
    case OpMerge(src) => Consistent(src) && CleanEdges(src.edges)
  }

  ghost function Apply(s: State, op: Op): State
    requires Legal(s, op)
  {
    match op
    case OpAddNode(n) => AddNode(s, n)
    case OpAddEdge(e) => AddEdge(s, e)
    case OpRemoveEdge(e) => RemoveEdge(s, e)
    case OpRename(old', new') => RenameNode(s, old', new')
    case OpMarkRoot(id) => MarkRoot(s, id)
    case OpMerge(src) => Merge(s, src)
  }

  // A run is any sequence of states from the empty graph, each one legal operation from the last.
  ghost predicate IsRun(states: seq<State>, ops: seq<Op>) {
    && |states| == |ops| + 1
    && states[0] == EMPTY
    && forall i :: 0 <= i < |ops| ==> Legal(states[i], ops[i]) && states[i + 1] == Apply(states[i], ops[i])
  }

  lemma StepKeeps(s: State, op: Op)
    requires Consistent(s) && CleanEdges(s.edges) && Legal(s, op)
    ensures Consistent(Apply(s, op)) && CleanEdges(Apply(s, op).edges)
  {
    hide EdgeKey, Merge;
    match op {
      case OpAddNode(n) => AddNodeKeeps(s, n);
      case OpAddEdge(e) => AddEdgeKeeps(s, e);
      case OpRemoveEdge(e) =>
        RemoveCleanEdgeKeeps(s, e);
        if e in s.edges {
          RemoveFirstRemoves(s.edges, e);
        } else {
          RemoveFirstAbsent(s.edges, e);
        }
      case OpRename(old', new') =>
        if Renames(s, old', new') {
          UnmentionedNameIsFree(s.edges, old', new');
          CleanKeysCollideExactly(s.edges, old', new');
          RenameKeepsExactly(s, old', new');
          forall f | f in RenamedEdges(old', new', s.edges)
            ensures CleanEdge(f)
          {
            var e := RenamedOrigin(old', new', s.edges, f);
          }
        }
      case OpMarkRoot(id) => MarkRootKeeps(s, id);
      case OpMerge(src) => MergeContents(s, src);
    }
  }

  // Every state of every legal run is consistent: the index lists exactly the edges, no edge or
  // root appears twice, and the insertion order lists each node once.
  lemma {:induction false} RunsStayConsistent(states: seq<State>, ops: seq<Op>, n: nat)
    requires IsRun(states, ops) && n < |states|
    ensures Consistent(states[n]) && CleanEdges(states[n].edges)
    decreases n
  {
    hide EdgeKey, Apply, Legal;
    if n > 0 {
      RunsStayConsistent(states, ops, n - 1);
      StepKeeps(states[n - 1], ops[n - 1]);
      assert states[n - 1 + 1] == Apply(states[n - 1], ops[n - 1]);
    }
  }
}
