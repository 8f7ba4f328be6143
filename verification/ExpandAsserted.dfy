// Folding a resolver's answer into the graph: a node for each identified coordinate the graph lacks, an
// edge for each pair of identified ends, and a mark on each coordinate
// the resolver did not read.
module ExpandAsserted {
  import opened Prelude
  import opened Findings
  import opened GraphTypes
  import opened Sorting
  import opened Reach
  import opened GraphState
  import opened GraphStore
  import opened ExpandTypes
  import opened ExpandRegion
  import opened ExpandLedger
  import opened ExpandSteps
  import opened ExpandSeed
  import opened ResolvedDepths

  // Coordinates that hold no NUL: the edge index can tell their identifiers apart.
  ghost predicate CleanRef(c: Coord) {
    NulFree(c.ecosystem) && NulFree(c.name) && NulFree(c.version)
  }

  ghost predicate CleanGraph(rg: ResolvedGraph) {
    forall i :: 0 <= i < |rg.nodes| ==> CleanRef(rg.nodes[i])
  }

  // ----- Identity -----

  // The identifier a resolved coordinate is merged under; none without a name and a version.
  function MergedId(wk: Walker, c: Coord): string {
    if c.name == "" || c.version == "" then ""
    else if c.ecosystem !in wk.declarers then PlainId(c)
    else wk.declarers[c.ecosystem].identify(c.name, c.version).0
  }

  lemma MergedIdClean(wk: Walker, c: Coord)
    requires CleanWalker(wk) && CleanRef(c)
    ensures NulFree(MergedId(wk, c))
  {
    assert forall x :: x in PlainId(c) ==>
        x in "pkg:" || x in c.ecosystem || x == '/' || x in c.name || x == '@' || x in c.version;
  }

  function AssertedNode(id: string, c: Coord, depth: int, assertedBy: string): Node {
    Node(id, Package, c.ecosystem, c.name, c.version, false, depth, map[], Clean, [])
      .WithAttribute(ATTR_VERSION_TRUTH, TRUTH_ASSERTED)
      .WithAttribute(ATTR_ASSERTED_BY, assertedBy)
  }

  lemma AssertedNodeIsGood(id: string, c: Coord, depth: int, assertedBy: string)
    ensures var n := AssertedNode(id, c, depth, assertedBy);
            GoodNew(n) && Defaulted(n) == n && n.id == id && n.version == c.version &&
                n.VersionTruth() == TRUTH_ASSERTED && n.depth == depth && !Marked(n) && CoordOf(n) == c
  {
  }

  // ----- What merging does -----

  // n is the node the j-th coordinate adds: the first with its identifier, at its depth.
  ghost predicate MergedAs(wk: Walker, rg: ResolvedGraph, rootDepth: int, assertedBy: string, id: string, n: Node,
                           j: nat) {
    && 0 < j < |rg.nodes| && MergedId(wk, rg.nodes[j]) == id != ""
    && (forall l :: 0 < l < j ==> MergedId(wk, rg.nodes[l]) != id)
    && n == AssertedNode(id, rg.nodes[j], n.depth, assertedBy) && IsDepth(rg, rootDepth, j, n.depth)
  }

  // Coordinates 1..i are in the graph: what was there is untouched, the rest is new and asserted.
  ghost predicate MergedNodes(wk: Walker, before: map<string, Node>, after: map<string, Node>, rg: ResolvedGraph,
                              rootDepth: int,
                              assertedBy: string, i: nat) {
    && i <= |rg.nodes|
    && (forall id :: id in before ==> id in after && after[id] == before[id])
    && (forall j :: 0 < j < i && MergedId(wk, rg.nodes[j]) != "" ==> MergedId(wk, rg.nodes[j]) in after)
    && (forall id :: id in after && id !in before ==>
       exists j: nat :: j < i && MergedAs(wk, rg, rootDepth, assertedBy, id, after[id], j))
  }

  // The j-th edge of the answer, between the identifiers of its ends.
  ghost predicate MergedEdge(wk: Walker, rg: ResolvedGraph, j: nat, e: Edge) {
    && j < |rg.edges| && Step(rg, rg.edges[j].0, rg.edges[j].1)
    && e == Edge(MergedId(wk, rg.nodes[rg.edges[j].0]), MergedId(wk, rg.nodes[rg.edges[j].1]), DependsOn)
    && e.from != "" && e.to != ""
  }

  ghost predicate MergedEdges(wk: Walker, before: seq<Edge>, after: seq<Edge>, rg: ResolvedGraph, i: nat) {
    i <= |rg.edges| && forall e :: e in after <==> e in before || exists j: nat :: j < i && MergedEdge(wk, rg, j, e)
  }

  ghost predicate Merged(wk: Walker, s: State, t: State, rg: ResolvedGraph, rootDepth: int, assertedBy: string) {
    if rg.nodes == [] then t == s
    else
      && MergedNodes(wk, s.nodes, t.nodes, rg, rootDepth, assertedBy, |rg.nodes|)
      && MergedEdges(wk, s.edges, t.edges, rg, |rg.edges|)
  }

  // n nodes were merged between a and b; they are in no counter yet.
  ghost predicate Grew(tr0: Trace, tr: Trace, a: map<string, Node>, b: map<string, Node>, n: nat) {
    && tr == tr0.(uncounted := tr0.uncounted + n, merged := tr.merged) && |b| == |a| + n
    && a.Keys <= b.Keys && tr.merged == tr0.merged + (b.Keys - a.Keys)
  }

  lemma GrewNot(tr: Trace, a: map<string, Node>)
    ensures Grew(tr, tr, a, a, 0)
  {
  }

  lemma GrewTransitive(tr0: Trace, tr1: Trace, tr2: Trace, a: map<string, Node>, b: map<string, Node>,
                       c: map<string, Node>, m: nat, n: nat)
    requires Grew(tr0, tr1, a, b, m) && Grew(tr1, tr2, b, c, n)
    ensures Grew(tr0, tr2, a, c, m + n)
  {
    assert (b.Keys - a.Keys) + (c.Keys - b.Keys) == c.Keys - a.Keys;
  }

  // Everything an answer holds is in the graph: a node for each identified coordinate but the queried
  // one, and each edge between identified coordinates.
  ghost predicate Held(wk: Walker, s: State, rg: ResolvedGraph) {
    && (forall j :: 0 < j < |rg.nodes| && MergedId(wk, rg.nodes[j]) != "" ==> MergedId(wk, rg.nodes[j]) in s.nodes)
    && (forall j: nat, e :: MergedEdge(wk, rg, j, e) ==> e in s.edges)
  }

  lemma MergedIsHeld(wk: Walker, s: State, t: State, rg: ResolvedGraph, rootDepth: int, assertedBy: string)
    requires Merged(wk, s, t, rg, rootDepth, assertedBy)
    ensures Held(wk, t, rg)
  {
    hide MergedId, MergedAs;
  }

  // The identifiers an answer adds to a graph that lacks them.
  ghost function NamesIn(wk: Walker, rg: ResolvedGraph): set<string> {
    set j | 0 < j < |rg.nodes| && MergedId(wk, rg.nodes[j]) != "" :: MergedId(wk, rg.nodes[j])
  }

  lemma MergedKeys(wk: Walker, s: State, t: State, rg: ResolvedGraph, rootDepth: int, assertedBy: string)
    requires Merged(wk, s, t, rg, rootDepth, assertedBy)
    ensures t.nodes.Keys == s.nodes.Keys + NamesIn(wk, rg)
  {
    hide MergedId, MergedEdges, IsDepth, AssertedNode;
    if rg.nodes != [] {
      forall id | id in t.nodes && id !in s.nodes
        ensures id in NamesIn(wk, rg)
      {
        var j: nat :| j < |rg.nodes| && MergedAs(wk, rg, rootDepth, assertedBy, id, t.nodes[id], j);
      }
    }
  }

  // n is asserted, and y is what its coordinate is merged under.
  predicate IsResolved(wk: Walker, y: string, n: Node) {
    n.VersionTruth() == TRUTH_ASSERTED && y != "" && MergedId(wk, CoordOf(n)) == y
  }

  // Whatever merging adds is asserted, and stays so when holes are marked.
  lemma MergedIsAsserted(wk: Walker, s: State, t: State, rg: ResolvedGraph, rootDepth: int, assertedBy: string,
                         y: string)
    requires Merged(wk, s, t, rg, rootDepth, assertedBy) && y in t.nodes && y !in s.nodes
    ensures IsResolved(wk, y, t.nodes[y])
  {
    hide MergedId, MergedEdges, IsDepth, AssertedNode;
    var j: nat :| j < |rg.nodes| && MergedAs(wk, rg, rootDepth, assertedBy, y, t.nodes[y], j);
    AssertedNodeIsGood(y, rg.nodes[j], t.nodes[y].depth, assertedBy);
  }

  lemma HeldStays(wk: Walker, s: State, t: State, rg: ResolvedGraph)
    requires Held(wk, s, rg) && Evolves(s, t)
    ensures Held(wk, t, rg)
  {
    EvolvesParts(s, t);
    hide MergedId, MergedEdge, NodesEvolve;
  }

  // Adds one coordinate's node unless the graph has it: observed beats asserted.
  method MergeNode(wk: Walker, opts: Options, g: Graph, id: string, c: Coord, depth: int, assertedBy: string, w: Walk,
                   ghost tr0: Trace)
    returns (added: bool, ghost tr: Trace)
    requires Inv(wk, opts, g.View(), w, tr0) && tr0.pending == {} && NulFree(id) && c.version != ""
    requires opts.resolver.Some?
    modifies g
    ensures Inv(wk, opts, g.View(), w, tr) && Evolves(old(g.View()), g.View()) && g.edges == old(g.edges)
    ensures added == (id !in old(g.nodes)) && Grew(tr0, tr, old(g.nodes), g.nodes, if added then 1 else 0) &&
            tr.pending == {}
    ensures g.nodes == if added then old(g.nodes)[id := AssertedNode(id, c, depth, assertedBy)] else old(g.nodes)
  {
    hide Inv, Evolves, AssertedNode, GoodNew, Defaulted, Inside;
    added, tr := id !in g.nodes, tr0;
    GrewNot(tr0, g.nodes);
    ghost var nodes := g.nodes;
    if !added {
      EvolvesSelf(g.View());
      return;
    }
    var child := AssertedNode(id, c, depth, assertedBy);
    AssertedNodeIsGood(id, c, depth, assertedBy);
    InvCountsOneMore(wk, opts, g.View(), w, tr);
    Insert(wk, opts, g, child, w, w.res, tr.uncounted + 1, tr);
    tr := tr.(uncounted := tr.uncounted + 1, pending := tr.pending + {id});
    InvMerges(wk, opts, g.View(), w.(res := w.res), tr, id);
    assert w.(res := w.res) == w;
    tr := tr.(merged := tr.merged + {id}, pending := tr.pending - {id});
    assert tr0.pending + {id} - {id} == {};
    assert g.nodes.Keys - nodes.Keys == {id};
  }

  lemma InvCountsOneMore(wk: Walker, opts: Options, s: State, w: Walk, tr: Trace)
    requires Inv(wk, opts, s, w, tr)
    ensures Counted(|tr.before.order|, |s.order| + 1, w.res, tr.uncounted + 1)
  {
    hide Sound, Explained, Confines, Evolves, WalkContained, NamesAnswer, Accounted, Heard, NothingLost, NewAccounted;
  }

  lemma FirstToMerge(wk: Walker, before: map<string, Node>, now: map<string, Node>, rg: ResolvedGraph, rootDepth: int,
                     assertedBy: string, i: nat, id: string, n: Node)
    requires MergedNodes(wk, before, now, rg, rootDepth, assertedBy, i) && 0 < i < |rg.nodes|
    requires id == MergedId(wk, rg.nodes[i]) && id != "" && id !in now
    requires n == AssertedNode(id, rg.nodes[i], n.depth, assertedBy) && IsDepth(rg, rootDepth, i, n.depth)
    ensures MergedAs(wk, rg, rootDepth, assertedBy, id, n, i)
  {
    hide MergedId, IsDepth, AssertedNode;
  }

  lemma MergesNode(wk: Walker, before: map<string, Node>, now: map<string, Node>, rg: ResolvedGraph, rootDepth: int,
                   assertedBy: string, i: nat, id: string, n: Node)
    requires MergedNodes(wk, before, now, rg, rootDepth, assertedBy, i) && i < |rg.nodes|
    requires id == MergedId(wk, rg.nodes[i]) && id !in now && MergedAs(wk, rg, rootDepth, assertedBy, id, n, i)
    ensures MergedNodes(wk, before, now[id := n], rg, rootDepth, assertedBy, i + 1)
  {
    hide MergedId, MergedAs;
    var after := now[id := n];
    forall x | x in after && x !in before
      ensures exists j: nat :: j < i + 1 && MergedAs(wk, rg, rootDepth, assertedBy, x, after[x], j)
    {
      if x in now {
        var j: nat :| j < i && MergedAs(wk, rg, rootDepth, assertedBy, x, now[x], j);
      }
    }
  }

  lemma MergesNothing(wk: Walker, before: map<string, Node>, now: map<string, Node>, rg: ResolvedGraph, rootDepth: int,
                      assertedBy: string, i: nat)
    requires MergedNodes(wk, before, now, rg, rootDepth, assertedBy, i) && i < |rg.nodes|
    requires i == 0 || MergedId(wk, rg.nodes[i]) == "" || MergedId(wk, rg.nodes[i]) in now
    ensures MergedNodes(wk, before, now, rg, rootDepth, assertedBy, i + 1)
  {
    hide MergedId, MergedAs;
    forall x | x in now && x !in before
      ensures exists j: nat :: j < i + 1 && MergedAs(wk, rg, rootDepth, assertedBy, x, now[x], j)
    {
      var j: nat :| j < i && MergedAs(wk, rg, rootDepth, assertedBy, x, now[x], j);
    }
  }

  // Adds every coordinate but the queried one, which the graph holds under the identity it was
  // observed with.
  method MergeNodes(wk: Walker, opts: Options, g: Graph, rootDepth: int, rg: ResolvedGraph, assertedBy: string,
                    w: Walk, ghost tr0: Trace)
    returns (ids: seq<string>, asserted: nat, ghost tr: Trace)
    requires CleanWalker(wk) && CleanGraph(rg) && Inv(wk, opts, g.View(), w, tr0) && tr0.pending == {}
    requires opts.resolver.Some?
    modifies g
    ensures Inv(wk, opts, g.View(), w, tr) && Evolves(old(g.View()), g.View()) && g.edges == old(g.edges)
    ensures MergedNodes(wk, old(g.nodes), g.nodes, rg, rootDepth, assertedBy, |rg.nodes|)
    ensures |ids| == |rg.nodes| && forall i :: 0 <= i < |ids| ==> ids[i] == MergedId(wk, rg.nodes[i])
    ensures Grew(tr0, tr, old(g.nodes), g.nodes, asserted)
  {
    hide Inv, Evolves, MergedNodes, CleanWalker, CleanRef, NulFree, IsDepth, MergedId, AssertedNode, GoodNew,
         Defaulted, MergedAs, Grew;
    ghost var s0 := g.View();
    GrewNot(tr0, g.nodes);
    var depth := AssertedDepths(rg, rootDepth);
    ids, asserted, tr := [], 0, tr0;
    MergeStarts(wk, s0.nodes, rg, rootDepth, assertedBy);
    EvolvesSelf(s0);
    for i := 0 to |rg.nodes|
      invariant Inv(wk, opts, g.View(), w, tr) && Evolves(s0, g.View()) && g.edges == s0.edges
      invariant MergedNodes(wk, s0.nodes, g.nodes, rg, rootDepth, assertedBy, i)
      invariant |ids| == i && forall j :: 0 <= j < i ==> ids[j] == MergedId(wk, rg.nodes[j])
      invariant Grew(tr0, tr, s0.nodes, g.nodes, asserted) && tr.pending == {}
      invariant forall j :: 0 <= j < depth.Length ==> IsDepth(rg, rootDepth, j, depth[j])
    {
      ghost var s, tr1 := g.View(), tr;
      var c := rg.nodes[i];
      var id := Identity(wk, c);
      ids := ids + [id];
      if i == 0 || id == "" {
        MergesNothing(wk, s0.nodes, s.nodes, rg, rootDepth, assertedBy, i);
        continue;
      }
      MergedIdClean(wk, c);
      MergedIdVersioned(wk, c);
      var added;
      added, tr := MergeNode(wk, opts, g, id, c, depth[i], assertedBy, w, tr);
      EvolvesTransitive(s0, s, g.View());
      GrewTransitive(tr0, tr1, tr, s0.nodes, s.nodes, g.nodes, asserted, if added then 1 else 0);
      if added {
        AssertedNodeIsGood(id, c, depth[i], assertedBy);
        FirstToMerge(wk, s0.nodes, s.nodes, rg, rootDepth, assertedBy, i, id,
                     AssertedNode(id, c, depth[i], assertedBy));
        MergesNode(wk, s0.nodes, s.nodes, rg, rootDepth, assertedBy, i, id, AssertedNode(id, c, depth[i], assertedBy));
      } else {
        MergesNothing(wk, s0.nodes, s.nodes, rg, rootDepth, assertedBy, i);
      }
      asserted := asserted + if added then 1 else 0;
    }
  }

  lemma MergeStarts(wk: Walker, nodes: map<string, Node>, rg: ResolvedGraph, rootDepth: int, assertedBy: string)
    ensures MergedNodes(wk, nodes, nodes, rg, rootDepth, assertedBy, 0)
  {
  }

  lemma MergedIdVersioned(wk: Walker, c: Coord)
    requires MergedId(wk, c) != ""
    ensures c.version != ""
  {
  }

  // The identifier of one resolved coordinate.
  method Identity(wk: Walker, c: Coord) returns (id: string)
    ensures id == MergedId(wk, c)
  {
    if c.name == "" || c.version == "" {
      return "";
    }
    if c.ecosystem !in wk.declarers {
      return "pkg:" + c.ecosystem + "/" + c.name + "@" + c.version;
    }
    return wk.declarers[c.ecosystem].identify(c.name, c.version).0;
  }

  // Draws one edge of the answer, wherever in the graph its ends are.
  method MergeLink(wk: Walker, opts: Options, g: Graph, x: string, y: string, ghost w: Walk, ghost tr: Trace)
    requires Inv(wk, opts, g.View(), w, tr) && NulFree(x) && NulFree(y) && opts.resolver.Some?
    modifies g
    ensures Inv(wk, opts, g.View(), w, tr) && Evolves(old(g.View()), g.View()) && g.nodes == old(g.nodes)
    ensures forall e :: e in g.edges <==> e in old(g.edges) || e == Edge(x, y, DependsOn)
  {
    ghost var s := g.View();
    MergeLinkKeeps(wk, opts, s, x, y, w, tr);
    hide Inv, Evolves, NulFree;
    g.AddEdge(x, y, DependsOn);
  }

  lemma MergeLinkKeeps(wk: Walker, opts: Options, s: State, x: string, y: string, w: Walk, tr: Trace)
    requires Inv(wk, opts, s, w, tr) && NulFree(x) && NulFree(y) && opts.resolver.Some?
    ensures var t := AddEdge(s, Edge(x, y, DependsOn));
            && Inv(wk, opts, t, w, tr) && Evolves(s, t) && t.nodes == s.nodes
            && forall e :: e in t.edges <==> e in s.edges || e == Edge(x, y, DependsOn)
  {
    hide Inv, AddEdge, NulFree, Sound, NodesEvolve;
    InvIsSound(wk, opts, s, w, tr);
    LinkEvolves(s, x, y);
    NoNewMarks(wk, opts, s.nodes, tr.cut);
    InvSameNodes(wk, opts, s, AddEdge(s, Edge(x, y, DependsOn)), w, tr);
  }

  lemma MergesEdge(wk: Walker, before: seq<Edge>, now: seq<Edge>, after: seq<Edge>, rg: ResolvedGraph, i: nat, e: Edge)
    requires MergedEdges(wk, before, now, rg, i) && MergedEdge(wk, rg, i, e)
    requires forall f :: f in after <==> f in now || f == e
    ensures MergedEdges(wk, before, after, rg, i + 1)
  {
    forall f | f in after
      ensures f in before || exists j: nat :: j < i + 1 && MergedEdge(wk, rg, j, f)
    {
      if f in now && f !in before {
        var j: nat :| j < i && MergedEdge(wk, rg, j, f);
      }
    }
    forall f, j: nat | j < i + 1 && MergedEdge(wk, rg, j, f)
      ensures f in after
    {
      hide MergedId;
      if j == i {
        assert f == e;
      }
    }
  }

  lemma MergesNoEdge(wk: Walker, before: seq<Edge>, now: seq<Edge>, rg: ResolvedGraph, i: nat)
    requires MergedEdges(wk, before, now, rg, i) && i < |rg.edges|
    requires forall e :: !MergedEdge(wk, rg, i, e)
    ensures MergedEdges(wk, before, now, rg, i + 1)
  {
    hide MergedEdge;
    forall f | f in now
      ensures f in before || exists j: nat :: j < i + 1 && MergedEdge(wk, rg, j, f)
    {
      if f !in before {
        var j: nat :| j < i && MergedEdge(wk, rg, j, f);
      }
    }
  }

  method MergeEdges(wk: Walker, opts: Options, g: Graph, rg: ResolvedGraph, ids: seq<string>, ghost w: Walk,
                    ghost tr: Trace)
    requires CleanWalker(wk) && CleanGraph(rg) && Inv(wk, opts, g.View(), w, tr) && opts.resolver.Some?
    requires |ids| == |rg.nodes| && forall i :: 0 <= i < |ids| ==> ids[i] == MergedId(wk, rg.nodes[i])
    modifies g
    ensures Inv(wk, opts, g.View(), w, tr) && Evolves(old(g.View()), g.View()) && g.nodes == old(g.nodes)
    ensures MergedEdges(wk, old(g.edges), g.edges, rg, |rg.edges|)
  {
    hide Inv, Evolves, MergedEdges, CleanWalker, CleanRef, NulFree, MergedId;
    ghost var s0 := g.View();
    NoEdgeMerged(wk, s0.edges, rg);
    EvolvesSelf(s0);
    for i := 0 to |rg.edges|
      invariant Inv(wk, opts, g.View(), w, tr) && Evolves(s0, g.View()) && g.nodes == s0.nodes
      invariant MergedEdges(wk, s0.edges, g.edges, rg, i)
    {
      ghost var s := g.View();
      var (from, to) := rg.edges[i];
      if from < 0 || from >= |ids| || to < 0 || to >= |ids| {
        MergesNoEdge(wk, s0.edges, s.edges, rg, i);
        continue;
      }
      if ids[from] == "" || ids[to] == "" {
        MergesNoEdge(wk, s0.edges, s.edges, rg, i);
        continue;
      }
      MergedIdClean(wk, rg.nodes[from]);
      MergedIdClean(wk, rg.nodes[to]);
      assert rg.edges[i] in rg.edges;
      assert MergedEdge(wk, rg, i, Edge(ids[from], ids[to], DependsOn));
      MergeLink(wk, opts, g, ids[from], ids[to], w, tr);
      MergesEdge(wk, s0.edges, s.edges, g.edges, rg, i, Edge(ids[from], ids[to], DependsOn));
      EvolvesTransitive(s0, s, g.View());
    }
  }

  lemma NoEdgeMerged(wk: Walker, es: seq<Edge>, rg: ResolvedGraph)
    ensures MergedEdges(wk, es, es, rg, 0)
  {
  }

  // Folds a resolver's whole answer in: new coordinates become asserted nodes, edges land between
  // identities, nothing existing is overwritten.  The new nodes are not yet in any counter.
  method MergeResolved(wk: Walker, opts: Options, g: Graph, rootDepth: int, rg: ResolvedGraph, assertedBy: string,
                       w: Walk, ghost tr0: Trace)
    returns (asserted: nat, ghost tr: Trace)
    requires CleanWalker(wk) && CleanGraph(rg) && Inv(wk, opts, g.View(), w, tr0) && tr0.pending == {} &&
             opts.resolver.Some?
    modifies g
    ensures Inv(wk, opts, g.View(), w, tr) && Evolves(old(g.View()), g.View())
    ensures Merged(wk, old(g.View()), g.View(), rg, rootDepth, assertedBy)
    ensures Grew(tr0, tr, old(g.nodes), g.nodes, asserted)
  {
    hide Inv, Evolves, MergedNodes, MergedEdges, CleanWalker, CleanGraph;
    tr := tr0;
    ghost var s0 := g.View();
    if |rg.nodes| == 0 {
      GrewNot(tr0, g.nodes);
      EvolvesSelf(s0);
      return 0, tr;
    }
    var ids;
    ids, asserted, tr := MergeNodes(wk, opts, g, rootDepth, rg, assertedBy, w, tr0);
    ghost var s1 := g.View();
    MergeEdges(wk, opts, g, rg, ids, w, tr);
    EvolvesTransitive(s0, s1, g.View());
  }

  // ----- Unread holes -----

  const UNREAD_REASON := "transient-fetch-failure"

  function WithHole(n: Node): Node {
    n.WithAttribute(ATTR_FRONTIER, TRUE).WithAttribute(ATTR_SUBTREE_UNREAD, UNREAD_REASON)
  }

  lemma HoleOnce(n: Node)
    ensures WithHole(WithHole(n)) == WithHole(n)
  {
  }

  // Each of these coordinates is one the resolver did not read.
  ghost predicate AreHoles(wk: Walker, opts: Options, refs: seq<Coord>) {
    forall i :: 0 <= i < |refs| ==> IsHole(wk, opts, UnreadId(wk, refs[i]))
  }

  // The nodes named by refs carry the mark, and nothing else changed.
  ghost predicate HolesMarked(wk: Walker, s: State, t: State, refs: seq<Coord>) {
    && t == s.(nodes := t.nodes) && t.nodes.Keys == s.nodes.Keys
    && forall id :: id in s.nodes ==> t.nodes[id] == if Named(wk, refs, id) then WithHole(s.nodes[id]) else s.nodes[id]
  }

  function CountPresent(wk: Walker, nodes: map<string, Node>, refs: seq<Coord>): nat {
    if refs == [] then 0
    else CountPresent(wk, nodes, refs[..|refs| - 1]) + if UnreadId(wk, refs[|refs| - 1]) in nodes then 1 else 0
  }

  method MarkUnread(wk: Walker, opts: Options, g: Graph, refs: seq<Coord>, ghost w: Walk,
                    ghost tr: Trace) returns (marked: nat)
    requires Inv(wk, opts, g.View(), w, tr) && AreHoles(wk, opts, refs)
    modifies g`nodes
    ensures Inv(wk, opts, g.View(), w, tr) && Evolves(old(g.View()), g.View())
    ensures HolesMarked(wk, old(g.View()), g.View(), refs) && marked == CountPresent(wk, old(g.nodes), refs)
  {
    hide Inv, Evolves, WithHole, UnreadId, Inside, IsHole;
    ghost var s0 := g.View();
    EvolvesSelf(s0);
    marked := 0;
    for i := 0 to |refs|
      invariant Inv(wk, opts, g.View(), w, tr) && Evolves(s0, g.View())
      invariant HolesMarked(wk, s0, g.View(), refs[..i]) && marked == CountPresent(wk, s0.nodes, refs[..i])
    {
      ghost var s := g.View();
      var ref := refs[i];
      assert refs[..i + 1][..i] == refs[..i];
      var id := UnreadId(wk, ref);
      if id in g.nodes {
        MarkHole(wk, opts, g, id, w, tr);
        marked := marked + 1;
        EvolvesTransitive(s0, s, g.View());
      }
      HolesGrow(wk, s0, s, g.View(), refs, i);
    }
    assert refs[..|refs|] == refs;
  }

  method MarkHole(wk: Walker, opts: Options, g: Graph, id: string, ghost w: Walk, ghost tr: Trace)
    requires Inv(wk, opts, g.View(), w, tr) && id in g.nodes && IsHole(wk, opts, id)
    modifies g`nodes
    ensures Inv(wk, opts, g.View(), w, tr) && Evolves(old(g.View()), g.View())
    ensures g.nodes == old(g.nodes)[id := WithHole(old(g.nodes)[id])]
  {
    hide Inv, Inside, NodesEvolve, EdgesEvolve, IsHole;
    ghost var s0 := g.View();
    MarkKeepsInv(wk, opts, s0, id, ATTR_FRONTIER, TRUE, w, tr);
    hide Evolves;
    SetAttr(g, id, ATTR_FRONTIER, TRUE);
    ghost var s1 := g.View();
    MarkKeepsInv(wk, opts, s1, id, ATTR_SUBTREE_UNREAD, UNREAD_REASON, w, tr);
    SetAttr(g, id, ATTR_SUBTREE_UNREAD, UNREAD_REASON);
    EvolvesTransitive(s0, s1, g.View());
  }

  lemma HolesGrow(wk: Walker, s0: State, s: State, t: State, refs: seq<Coord>, i: nat)
    requires i < |refs| && HolesMarked(wk, s0, s, refs[..i])
    requires var id := UnreadId(wk, refs[i]);
             t == if id in s.nodes then s.(nodes := s.nodes[id := WithHole(s.nodes[id])]) else s
    ensures HolesMarked(wk, s0, t, refs[..i + 1])
  {
    var id := UnreadId(wk, refs[i]);
    assert refs[..i + 1] == refs[..i] + [refs[i]];
    assert forall x :: Named(wk, refs[..i + 1], x) <==> Named(wk, refs[..i], x) || x == id by {
      NamedGrows(wk, refs, i);
    }
    if id in s0.nodes {
      HoleOnce(s0.nodes[id]);
    }
    hide Named, WithHole, UnreadId;
  }

  lemma NamedGrows(wk: Walker, refs: seq<Coord>, i: nat)
    requires i < |refs|
    ensures forall x :: Named(wk, refs[..i + 1], x) <==> Named(wk, refs[..i], x) || x == UnreadId(wk, refs[i])
  {
    hide UnreadId;
    var more := refs[..i + 1];
    forall x
      ensures Named(wk, more, x) <==> Named(wk, refs[..i], x) || x == UnreadId(wk, refs[i])
    {
      if Named(wk, refs[..i], x) {
        var j :| 0 <= j < i && UnreadId(wk, refs[..i][j]) == x;
        assert more[j] == refs[..i][j];
      }
      if Named(wk, more, x) {
        var j :| 0 <= j < i + 1 && UnreadId(wk, more[j]) == x;
        if j < i {
          assert refs[..i][j] == more[j];
        }
      }
      assert more[i] == refs[i];
    }
  }
}
