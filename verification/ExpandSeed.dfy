// Before the layers: the name index, the starting frontier and the seed phase.
//
// Adopt, which creates or finds a node, draws its parents' edges and queues or marks it, is shared with
// the layers.
module ExpandSeed {
  import opened Prelude
  import opened Findings
  import opened GraphTypes
  import opened Sorting
  import opened Reach
  import opened GraphState
  import opened GraphStore
  import opened DeclaredDeps
  import opened Presume
  import opened ExpandTypes
  import opened ExpandRegion
  import opened ExpandLedger
  import opened ExpandSteps
  import opened ExpandTally
  import opened ExpandChoices

  const DEFAULT_MAX_DEPTH := 8

  // Identifiers that hold no NUL: the edge index can tell them apart.
  ghost predicate CleanWalker(wk: Walker) {
    forall eco, name, version :: eco in wk.declarers ==> NulFree(wk.declarers[eco].identify(name, version).0)
  }

  // Nodes of the subtree, by identifier.
  ghost predicate InSubtree(s: State, root: string, ids: seq<string>) {
    forall i :: 0 <= i < |ids| ==> ids[i] in s.nodes && Reaches(s.edges, DEPENDS, root, ids[i])
  }

  lemma InSubtreeStays(s: State, t: State, root: string, ids: seq<string>)
    requires Progress(s, t, root) && InSubtree(s, root, ids)
    ensures InSubtree(t, root, ids)
  {
    hide Progress, Reaches;
    forall i | 0 <= i < |ids|
      ensures ids[i] in t.nodes && Reaches(t.edges, DEPENDS, root, ids[i])
    {
      ProgressKeeps(s, t, root, ids[i]);
    }
  }

  // Draws an edge to y from each parent.
  method LinkAll(wk: Walker, opts: Options, g: Graph, parents: seq<string>, y: string, ghost w: Walk, ghost tr: Trace)
    requires Inv(wk, opts, g.View(), w, tr) && InSubtree(g.View(), tr.root, parents) && y in g.nodes && parents != []
    requires IsPart(wk, opts, tr.before, tr.root, y)
    modifies g
    ensures Inv(wk, opts, g.View(), w, tr) && Progress(old(g.View()), g.View(), tr.root)
    ensures g.nodes == old(g.nodes)
    ensures forall i :: 0 <= i < |parents| ==> Edge(parents[i], y, DependsOn) in g.edges
    ensures Reaches(g.edges, DEPENDS, tr.root, y)
  {
    hide Inv, Progress, Reaches, InSubtree, IsPart;
    ghost var s := g.View();
    ProgressSelf(s, tr.root);
    for i := 0 to |parents|
      invariant Inv(wk, opts, g.View(), w, tr) && Progress(s, g.View(), tr.root) &&
                InSubtree(g.View(), tr.root, parents)
      invariant g.nodes == s.nodes
      invariant forall j :: 0 <= j < i ==> Edge(parents[j], y, DependsOn) in g.edges
      invariant i > 0 ==> Reaches(g.edges, DEPENDS, tr.root, y)
    {
      ghost var t := g.View();
      InSubtreeAt(t, tr.root, parents, i);
      Link(wk, opts, g, parents[i], y, w, tr);
      ProgressKeeps(t, g.View(), tr.root, y);
      InSubtreeStays(t, g.View(), tr.root, parents);
      ProgressTransitive(s, t, g.View(), tr.root);
    }
  }

  lemma InSubtreeAt(s: State, root: string, ids: seq<string>, i: nat)
    requires InSubtree(s, root, ids) && i < |ids|
    ensures ids[i] in s.nodes && Reaches(s.edges, DEPENDS, root, ids[i])
  {
  }

  // Adds the child if its identifier is new to the graph; an existing node stays as it is.
  method EnsureNode(wk: Walker, opts: Options, g: Graph, w0: Walk, child: Node, truth: string, ghost tr0: Trace)
    returns (w: Walk, ghost tr: Trace)
    requires Inv(wk, opts, g.View(), w0, tr0) && tr0.pending == {}
    requires NulFree(child.id) && GoodNew(child) && Defaulted(child) == child && !Marked(child)
    requires Belongs(wk, opts, tr0.before, tr0.root, child)
    modifies g
    ensures Inv(wk, opts, g.View(), w, tr) && Progress(old(g.View()), g.View(), tr0.root)
    ensures w == w0.(res := if child.id in old(g.nodes) then w0.res else CountDiscovered(w0.res, truth))
    ensures tr == tr0.(pending := if child.id in old(g.nodes) then {} else {child.id})
    ensures child.id in tr.pending && child.id in w0.expanded ==> child.id in tr.closed
    ensures g.nodes == if child.id in old(g.nodes) then old(g.nodes) else old(g.nodes)[child.id := child]
  {
    hide Inv, Progress, GoodNew, Defaulted, Counted, Marked, CountDiscovered;
    w, tr := w0, tr0;
    ProgressSelf(g.View(), tr.root);
    if child.id !in g.nodes {
      if child.id in w.expanded {
        ExpandedUnseen(wk, opts, g.View(), w, tr, child.id);
      }
      var res := CountDiscovered(w.res, truth);
      OneDiscovered(w.res, truth);
      InvCounts(wk, opts, g.View(), w, tr, res);
      Insert(wk, opts, g, child, w, res, tr.uncounted, tr);
      w := w.(res := res);
      tr := tr.(pending := tr.pending + {child.id}, uncounted := tr.uncounted);
    }
  }

  lemma OneDiscovered(res: Result, truth: string)
    ensures var more := CountDiscovered(res, truth);
            && more.asserted == res.asserted && more.discovered == res.discovered + 1 &&
               more.depthTruncated == res.depthTruncated
            && more.frontier == res.frontier && more.depthReached == res.depthReached
            && more.presumed + more.contested <= res.presumed + res.contested + 1
  {
  }

  // Draws the parents' edges to a node and takes hold of it under a name.
  method Hold(wk: Walker, opts: Options, g: Graph, w0: Walk, k: NameKey, id: string, parents: seq<string>,
              ghost tr: Trace)
    returns (w: Walk)
    requires Inv(wk, opts, g.View(), w0, tr) && id in g.nodes
    requires InSubtree(g.View(), tr.root, parents) && parents != []
    requires k.ecosystem in wk.declarers && exists v :: wk.declarers[k.ecosystem].identify(k.canonical, v).0 == id
    requires IsPart(wk, opts, tr.before, tr.root, id)
    modifies g
    ensures Inv(wk, opts, g.View(), w, tr) && Progress(old(g.View()), g.View(), tr.root)
    ensures w == w0.(byName := w0.byName[k := id], inSubtree := w0.inSubtree + {id})
    ensures g.nodes == old(g.nodes) && Reaches(g.edges, DEPENDS, tr.root, id)
    ensures forall i :: 0 <= i < |parents| ==>
              Linked(wk, g.View(), parents[i], k) && Edge(parents[i], id, DependsOn) in g.edges
  {
    hide Inv, Progress, Reaches, InSubtree, Linked;
    LinkAll(wk, opts, g, parents, id, w0, tr);
    ghost var s := g.View();
    IdentifiedAnswers(wk, s.nodes, k, id);
    InvHolds(wk, opts, s, w0, tr, k, id);
    w := w0.(byName := w0.byName[k := id], inSubtree := w0.inSubtree + {id});
    forall i | 0 <= i < |parents|
      ensures Linked(wk, s, parents[i], k)
    {
      LinkedBy(wk, s, parents[i], k, id);
    }
  }

  // The walk continues only through a node that has a version; one without is marked.
  method QueueOrMark(wk: Walker, opts: Options, g: Graph, w0: Walk, id: string, ghost tr0: Trace)
    returns (w: Walk, ghost tr: Trace)
    requires Inv(wk, opts, g.View(), w0, tr0) && id in g.nodes && Reaches(g.edges, DEPENDS, tr0.root, id)
    requires id in tr0.pending && id in w0.expanded ==> id in tr0.closed
    modifies g`nodes
    ensures Inv(wk, opts, g.View(), w, tr) && Progress(old(g.View()), g.View(), tr0.root)
    ensures tr == tr0.(queued := tr.queued, pending := tr0.pending - {id}) && tr0.queued <= tr.queued
    ensures tr.queued == tr0.queued + if g.nodes[id].version != "" && id !in w0.expanded then {id} else {}
    ensures w == w0.(frontier := w.frontier,
            res := w0.res.(frontier := w0.res.frontier + (if g.nodes[id].version == "" then 1 else 0)))
    ensures g.nodes.Keys == old(g.nodes).Keys && Evolved(old(g.nodes)[id], g.nodes[id])
    ensures w.frontier == if g.nodes[id].version != "" && id !in w0.expanded then w0.frontier + [id] else w0.frontier
    ensures id in w.frontier || id in w0.expanded || Marked(g.nodes[id])
  {
    hide Inv, Progress, Reaches, Marked;
    w, tr := w0, tr0;
    ghost var s := g.View();
    ProgressSelf(s, tr.root);
    SameNodeEvolved(g.nodes[id]);
    if g.nodes[id].version != "" && id !in w.expanded {
      InvQueues(wk, opts, s, w, tr, id);
      w := w.(frontier := w.frontier + [id]);
      tr := tr.(queued := tr.queued + {id});
    } else if g.nodes[id].version == "" {
      MarkFrontier(wk, opts, g, id, w, tr);
      ProgressKeeps(s, g.View(), tr.root, id);
      ProgressEvolved(s, g.View(), tr.root, id);
      var res := w.res.(frontier := w.res.frontier + 1);
      InvCounters(wk, opts, g.View(), w, tr, res);
      w := w.(res := res);
    }
    InvMarked(wk, opts, g.View(), w, tr, id);
    tr := tr.(pending := tr.pending - {id});
  }

  lemma ProgressEvolved(s: State, t: State, root: string, id: string)
    requires id in s.nodes && Progress(s, t, root)
    ensures id in t.nodes && Evolved(s.nodes[id], t.nodes[id])
  {
  }

  lemma EvolvedSameVersion(m: Node, n: Node)
    requires Evolved(m, n)
    ensures n.version == m.version && n.depth == m.depth && n.id == m.id && n.ecosystem == m.ecosystem
  {
  }

  // The deepest node the walk has held.
  function Reaching(res: Result, depth: int): Result {
    res.(depthReached := Max(res.depthReached, depth))
  }

  // Creates the child if its identifier is new, draws its parents' edges and takes hold of it.
  method HoldChild(wk: Walker, opts: Options, g: Graph, w0: Walk, k: NameKey, child: Node, truth: string,
                   parents: seq<string>, ghost tr0: Trace)
    returns (w: Walk, ghost tr: Trace)
    requires Inv(wk, opts, g.View(), w0, tr0) && tr0.pending == {}
    requires InSubtree(g.View(), tr0.root, parents) && parents != []
    requires NulFree(child.id) && GoodNew(child) && Defaulted(child) == child && !Marked(child)
    requires Belongs(wk, opts, tr0.before, tr0.root, child)
    requires k.ecosystem in wk.declarers && exists v :: wk.declarers[k.ecosystem].identify(k.canonical, v).0 == child.id
    modifies g
    ensures Inv(wk, opts, g.View(), w, tr) && Progress(old(g.View()), g.View(), tr0.root)
    ensures tr == tr0.(pending := if child.id in old(g.nodes) then {} else {child.id})
    ensures child.id in tr.pending && child.id in w0.expanded ==> child.id in tr.closed
    ensures g.nodes == if child.id in old(g.nodes) then old(g.nodes) else old(g.nodes)[child.id := child]
    ensures w == w0.(byName := w0.byName[k := child.id], inSubtree := w0.inSubtree + {child.id}, res := w.res)
    ensures w.res == Reaching(if child.id in old(g.nodes) then w0.res else CountDiscovered(w0.res, truth),
                              g.nodes[child.id].depth)
    ensures forall i :: 0 <= i < |parents| ==>
              Linked(wk, g.View(), parents[i], k) && Edge(parents[i], child.id, DependsOn) in g.edges
    ensures Reaches(g.edges, DEPENDS, tr0.root, child.id)
  {
    hide Inv, Progress, Reaches, InSubtree, GoodNew, Defaulted, Linked, Marked, CountDiscovered;
    OneDiscovered(w0.res, truth);
    ghost var s0 := g.View();
    w, tr := EnsureNode(wk, opts, g, w0, child, truth, tr0);
    ghost var s1 := g.View();
    InSubtreeStays(s0, s1, tr.root, parents);
    w := Hold(wk, opts, g, w, k, child.id, parents, tr);
    ghost var s2 := g.View();
    ProgressTransitive(s0, s1, s2, tr.root);
    var res := w.res;
    if g.nodes[child.id].depth > res.depthReached {
      res := res.(depthReached := g.nodes[child.id].depth);
    }
    InvCounters(wk, opts, s2, w, tr, res);
    w := w.(res := res);
  }

  // Takes hold of the child, and queues it when it has a version, whatever that version's label; a child
  // without one is where the walk stops.
  method Adopt(wk: Walker, opts: Options, g: Graph, w0: Walk, k: NameKey, child: Node, truth: string,
               parents: seq<string>, ghost tr0: Trace)
    returns (w: Walk, ghost tr: Trace)
    requires Inv(wk, opts, g.View(), w0, tr0) && tr0.pending == {}
    requires InSubtree(g.View(), tr0.root, parents) && parents != []
    requires NulFree(child.id) && GoodNew(child) && Defaulted(child) == child && !Marked(child)
    requires Belongs(wk, opts, tr0.before, tr0.root, child)
    requires k.ecosystem in wk.declarers && exists v :: wk.declarers[k.ecosystem].identify(k.canonical, v).0 == child.id
    modifies g
    ensures Inv(wk, opts, g.View(), w, tr) && Progress(old(g.View()), g.View(), tr0.root)
    ensures tr == tr0.(queued := tr.queued) && tr0.queued <= tr.queued
    ensures forall i :: 0 <= i < |parents| ==>
              Linked(wk, g.View(), parents[i], k) && Edge(parents[i], child.id, DependsOn) in g.edges
    ensures g.nodes.Keys == old(g.nodes).Keys + {child.id}
    ensures child.id !in old(g.nodes) ==> Evolved(child, g.nodes[child.id])
    ensures w == w0.(byName := w0.byName[k := child.id], inSubtree := w0.inSubtree + {child.id},
                     frontier := w.frontier, res := w.res)
    ensures w.res == Reaching(if child.id in old(g.nodes) then w0.res else CountDiscovered(w0.res, truth),
                              g.nodes[child.id].depth).(
                       frontier := w0.res.frontier + (if g.nodes[child.id].version == "" then 1 else 0))
    ensures w.frontier == w0.frontier +
              if g.nodes[child.id].version != "" && child.id !in w0.expanded then [child.id] else []
    ensures w.res.asserted == w0.res.asserted
    ensures tr.queued == tr0.queued +
              if g.nodes[child.id].version != "" && child.id !in w0.expanded then {child.id} else {}
    ensures child.id in w.frontier || child.id in w0.expanded || Marked(g.nodes[child.id])
  {
    hide Inv, Progress, Reaches, InSubtree, GoodNew, Defaulted, Linked, Marked, Evolved, CountDiscovered;
    OneDiscovered(w0.res, truth);
    ghost var s0 := g.View();
    w, tr := HoldChild(wk, opts, g, w0, k, child, truth, parents, tr0);
    ghost var s1 := g.View();
    w, tr := QueueOrMark(wk, opts, g, w, child.id, tr);
    EvolvedSameVersion(s1.nodes[child.id], g.nodes[child.id]);
    ProgressTransitive(s0, s1, g.View(), tr.root);
    forall i | 0 <= i < |parents|
      ensures Linked(wk, g.View(), parents[i], k) && Edge(parents[i], child.id, DependsOn) in g.edges
    {
      ProgressKeeps(s1, g.View(), tr.root, parents[i]);
      ProgressLinked(wk, s1, g.View(), tr.root, parents[i], k);
    }
  }

  // What adopting a package does to the nodes: nothing when the version its constraints lead to has
  // no identifier; nothing when the graph has that node; else one new node, labelled as the version
  // was found.
  ghost predicate CreatedAs(wk: Walker, opts: Options, before: map<string, Node>, after: map<string, Node>,
                            byName: map<NameKey, string>,
                            k: NameKey, constraints: seq<string>, direct: bool, depth: int, discoveredBy: string,
                            text: string,
                            version: string, truth: string, candidates: nat) {
    && k.ecosystem in wk.declarers
    && var d := wk.declarers[k.ecosystem];
       var (id, name) := d.identify(k.canonical, version);
       && (exists r :: IsPresumedFor(wk, opts, d, k.ecosystem, k.canonical, constraints, r) &&
            Records(r, version, truth, candidates))
       && (if id == "" then after == before
           else
             && after.Keys == before.Keys + {id} && k in byName && byName[k] == id
             && (id !in before ==>
                   Evolved(NewChild(id, k.ecosystem, name, version, direct, depth, truth, discoveredBy, text,
                                    CandidateText(candidates)),
                           after[id])))
  }

  ghost predicate CreatedFor(wk: Walker, opts: Options, before: map<string, Node>, after: map<string, Node>,
                             byName: map<NameKey, string>,
                             k: NameKey, constraints: seq<string>, direct: bool, depth: int, discoveredBy: string,
                             text: string) {
    exists version, truth, candidates ::
      CreatedAs(wk, opts, before, after, byName, k, constraints, direct, depth, discoveredBy, text, version, truth,
                candidates)
  }

  lemma InvCounts(wk: Walker, opts: Options, s: State, w: Walk, tr: Trace, res: Result)
    requires Inv(wk, opts, s, w, tr)
    requires res.asserted == w.res.asserted && res.discovered == w.res.discovered + 1
    requires res.presumed + res.contested <= w.res.presumed + w.res.contested + 1
    ensures Counted(|tr.before.order|, |s.order| + 1, res, tr.uncounted)
  {
    hide Sound, Explained, Confines, Evolves, WalkContained, NamesAnswer, Accounted, Heard, NothingLost, NewAccounted;
  }

  lemma IdentifiedAnswers(wk: Walker, nodes: map<string, Node>, k: NameKey, id: string)
    requires id in nodes && k.ecosystem in wk.declarers
    requires exists v :: wk.declarers[k.ecosystem].identify(k.canonical, v).0 == id
    ensures Answers(wk, nodes, k, id)
  {
  }

  // ----- Reachability and the name index -----

  // Everything the root reaches over declared edges.
  method Subtree(es: seq<Edge>, root: string) returns (seen: set<string>)
    ensures forall y :: y in seen <==> Reaches(es, DEPENDS, root, y)
  {
    hide Reaches, Targets, Hop, Universe;
    var adj := BuildAdjacency(es, DEPENDS);
    seen := {root};
    var queue := [root];
    ghost var done: set<string> := {};
    ReachesSelf(es, DEPENDS, root);
    RootWithin(es, root);
    while queue != []
      invariant root in seen && seen <= Universe(es, root)
      invariant forall y :: y in seen ==> Reaches(es, DEPENDS, root, y)
      invariant forall y :: y in seen <==> y in done || y in queue
      invariant forall u, v :: u in done && Hop(es, DEPENDS, u, v) ==> v in seen
      decreases Universe(es, root) - seen, |queue|
    {
      var cur := queue[0];
      ghost var before, rest := seen, queue[1..];
      assert queue == [cur] + queue[1..];
      queue := queue[1..];
      var ts := At(adj, cur);
      TargetsWithin(es, DEPENDS, root, cur);
      for i := 0 to |ts|
        invariant before <= seen <= Universe(es, root)
        invariant forall y :: y in seen ==> Reaches(es, DEPENDS, root, y)
        invariant forall y :: y in seen <==> y in before || y in queue
        invariant forall y :: y in rest ==> y in queue
        invariant forall j :: 0 <= j < i ==> ts[j] in seen
        invariant seen == before ==> queue == rest
      {
        assert ts[i] in ts;
        if ts[i] !in seen {
          TargetsAreHops(es, DEPENDS, cur, ts[i]);
          ReachesStep(es, DEPENDS, root, cur, ts[i]);
          seen := seen + {ts[i]};
          queue := queue + [ts[i]];
        }
      }
      done := done + {cur};
      forall v | Hop(es, DEPENDS, cur, v)
        ensures v in seen
      {
        TargetsAreHops(es, DEPENDS, cur, v);
        var j :| 0 <= j < |ts| && ts[j] == v;
      }
    }
    forall y | Reaches(es, DEPENDS, root, y)
      ensures y in seen
    {
      ClosedHoldsReachable(es, DEPENDS, seen, root, y);
    }
  }

  lemma RootWithin(es: seq<Edge>, root: string)
    ensures root in Universe(es, root)
  {
  }

  // Files the packages of a set of nodes under their canonical names.  The set is walked in an
  // arbitrary order, so of two nodes with one name either may win.
  method IndexNames(wk: Walker, nodes: map<string, Node>, ids: set<string>) returns (byName: map<NameKey, string>)
    ensures NamesAnswer(wk, nodes, byName)
    ensures forall k :: k in byName ==> byName[k] in ids
    ensures forall k :: k in byName <==> exists id :: id in ids && IsNamed(wk, nodes, id, k)
  {
    byName := map[];
    var rest := ids;
    while rest != {}
      invariant rest <= ids
      invariant NamesAnswer(wk, nodes, byName)
      invariant forall k :: k in byName ==> byName[k] in ids
      invariant forall k :: k in byName <==> exists id :: id in ids && id !in rest && IsNamed(wk, nodes, id, k)
      decreases rest
    {
      var id :| id in rest;
      ghost var before := byName;
      rest := rest - {id};
      if id in nodes && nodes[id].kind == Package && nodes[id].ecosystem in wk.declarers {
        var n := nodes[id];
        var (_, canonical) := wk.declarers[n.ecosystem].identify(n.name, n.version);
        byName := byName[NameKey(n.ecosystem, canonical) := id];
        assert IsNamed(wk, nodes, id, NameKey(n.ecosystem, canonical));
      }
      assert forall k :: IsNamed(wk, nodes, id, k) ==> k in byName;
    }
  }

  // A package of a known ecosystem, filed under its canonical name.
  ghost predicate IsNamed(wk: Walker, nodes: map<string, Node>, id: string, k: NameKey) {
    && id in nodes && nodes[id].kind == Package && nodes[id].ecosystem in wk.declarers
    && k == NameKey(nodes[id].ecosystem,
       wk.declarers[nodes[id].ecosystem].identify(nodes[id].name, nodes[id].version).1)
  }

  lemma InvStarts(wk: Walker, opts: Options, s: State, root: string, w: Walk)
    requires Sound(s) && root in s.nodes
    requires Contained(s.edges, root, w.inSubtree) && NamesAnswer(wk, s.nodes, w.byName)
    requires forall k :: k in w.byName ==> w.byName[k] in w.inSubtree
    requires w.frontier == [] && w.expanded == {} && w.res == Result(0, 0, 0, 0, 0, 0, 0, 0, 0)
    ensures Inv(wk, opts, s, w, Outset(s, root))
  {
    hide Sound, Reaches, NamesAnswer;
    EvolvesSelf(s);
    NoNewMarks(wk, opts, s.nodes, {});
    ConfinesEvolution(wk, opts, s, root, s, s);
    hide Evolves, MarksExcused, Confines;
  }

  // ----- The starting frontier -----

  predicate RegistryQueryable(n: Node) {
    n.SourceClass() == SOURCE_REGISTRY || n.SourceClass() == SOURCE_UNKNOWN
  }

  // The observed, versioned packages of the subtree that a registry can be asked about.
  predicate StartsInFrontier(n: Node, inSubtree: set<string>) {
    n.id in inSubtree && n.kind == Package && n.version != "" && RegistryQueryable(n) &&
        n.VersionTruth() != TRUTH_ASSERTED
  }

  predicate Starts(nodes: map<string, Node>, id: string, inSubtree: set<string>) {
    id in nodes && StartsInFrontier(nodes[id], inSubtree)
  }

  lemma EvolvedStarts(m: Node, n: Node, inSubtree: set<string>)
    requires Evolved(m, n)
    ensures StartsInFrontier(m, inSubtree) <==> StartsInFrontier(n, inSubtree)
  {
  }

  // Queues one node if it starts in the frontier, spelling out that its version was observed.
  method StartNode(wk: Walker, opts: Options, g: Graph, root: string, id: string, w0: Walk,
                   ghost tr0: Trace) returns (w: Walk, ghost tr: Trace)
    requires Inv(wk, opts, g.View(), w0, tr0) && root == tr0.root && id in g.nodes && g.nodes[id].id == id
    modifies g`nodes
    ensures Inv(wk, opts, g.View(), w, tr) && Progress(old(g.View()), g.View(), tr0.root)
    ensures tr == tr0.(queued := tr.queued) && tr0.queued <= tr.queued
    ensures w == w0.(frontier := if StartsInFrontier(old(g.nodes)[id], w0.inSubtree) then w0.frontier + [id]
            else w0.frontier)
    ensures g.nodes.Keys == old(g.nodes).Keys
    ensures tr.queued == tr0.queued + if StartsInFrontier(old(g.nodes)[id], w0.inSubtree) then {id} else {}
  {
    ghost var s := g.View();
    w, tr := w0, tr0;
    InvMembers(wk, opts, s, w, tr);
    hide Inv, Progress, Reaches;
    ProgressSelf(s, tr.root);
    if !StartsInFrontier(g.nodes[id], w.inSubtree) {
      return;
    }
    hide StartsInFrontier;
    InvQueues(wk, opts, s, w, tr, id);
    w := w.(frontier := w.frontier + [id]);
    tr := tr.(queued := tr.queued + {id});
    if g.nodes[id].Attribute(ATTR_VERSION_TRUTH) == "" && id != root {
      MarkKeepsInv(wk, opts, s, id, ATTR_VERSION_TRUTH, TRUTH_OBSERVED, w, tr);
      SetAttr(g, id, ATTR_VERSION_TRUTH, TRUTH_OBSERVED);
    }
  }

  method StartFrontier(wk: Walker, opts: Options, g: Graph, root: string, w0: Walk, ghost tr0: Trace) returns (w: Walk,
                       ghost tr: Trace)
    requires Inv(wk, opts, g.View(), w0, tr0) && root == tr0.root
    modifies g`nodes
    ensures Inv(wk, opts, g.View(), w, tr) && Progress(old(g.View()), g.View(), tr0.root)
    ensures w == w0.(frontier := w.frontier) && tr == tr0.(queued := tr.queued)
    ensures g.nodes.Keys == old(g.nodes).Keys
    ensures forall id :: id in tr.queued <==> id in tr0.queued || Starts(old(g.nodes), id, w0.inSubtree)
    ensures forall id :: id in w.frontier <==> id in w0.frontier || Starts(old(g.nodes), id, w0.inSubtree)
  {
    hide Inv, Progress, StartsInFrontier, Sort, StringLess;
    ghost var s0 := g.View();
    var ids := g.NodeIds();
    SortMembers(ids, StringLess);
    ids := Sort(ids, StringLess);
    w, tr := w0, tr0;
    ProgressSelf(s0, tr.root);
    for i := 0 to |ids|
      invariant Inv(wk, opts, g.View(), w, tr) && Progress(s0, g.View(), tr.root)
      invariant w == w0.(frontier := w.frontier) && tr == tr0.(queued := tr.queued)
      invariant g.nodes.Keys == s0.nodes.Keys
      invariant forall id :: id in tr.queued <==>
                  id in tr0.queued || (id in ids[..i] && Starts(s0.nodes, id, w0.inSubtree))
      invariant forall id :: id in w.frontier <==>
                  id in w0.frontier || (id in ids[..i] && Starts(s0.nodes, id, w0.inSubtree))
    {
      ghost var s := g.View();
      assert ids[i] in ids && ids[..i + 1] == ids[..i] + [ids[i]];
      KeyedById(wk, opts, s, w, tr, ids[i]);
      ProgressEvolved(s0, s, tr.root, ids[i]);
      EvolvedStarts(s0.nodes[ids[i]], s.nodes[ids[i]], w0.inSubtree);
      w, tr := StartNode(wk, opts, g, root, ids[i], w, tr);
      ProgressTransitive(s0, s, g.View(), tr.root);
    }
    assert ids[..|ids|] == ids;
  }

  lemma KeyedById(wk: Walker, opts: Options, s: State, w: Walk, tr: Trace, id: string)
    requires Inv(wk, opts, s, w, tr) && id in s.nodes
    ensures s.nodes[id].id == id && NulFree(id)
  {
    hide Explained, Confines, Evolves, WalkContained, NamesAnswer, Accounted, Heard, NothingLost, NewAccounted,
         Counted, Indexed;
  }

  lemma InvMembers(wk: Walker, opts: Options, s: State, w: Walk, tr: Trace)
    requires Inv(wk, opts, s, w, tr)
    ensures forall x :: x in w.inSubtree ==> Reaches(s.edges, DEPENDS, tr.root, x)
    ensures forall k :: k in w.byName ==>
              w.byName[k] in s.nodes && Reaches(s.edges, DEPENDS, tr.root, w.byName[k]) &&
                  Answers(wk, s.nodes, k, w.byName[k])
    ensures forall x :: x in w.frontier ==> x in s.nodes && Reaches(s.edges, DEPENDS, tr.root, x)
    ensures Reaches(s.edges, DEPENDS, tr.root, tr.root)
  {
    ReachesSelf(s.edges, DEPENDS, tr.root);
    hide Sound, Explained, Confines, Evolves, Reaches, Heard, NothingLost, NewAccounted, Counted;
  }

  // ----- Seed phase -----

  // Nothing is owed for a declaration that is excluded, has no canonical name, or names a package
  // that sometimes has no identifier.
  lemma OwesNothing(wk: Walker, opts: Options, ecosystem: string, d: Declaration)
    requires ecosystem in wk.declarers
    requires !Included(opts, d) || wk.declarers[ecosystem].identify(d.name, "").1 == ""
             || !AlwaysIdentifies(wk.declarers[ecosystem], wk.declarers[ecosystem].identify(d.name, "").1)
    ensures forall k :: !Owes(wk, opts, ecosystem, d, k)
  {
  }

  // Otherwise exactly one package is owed.
  lemma OwesOne(wk: Walker, opts: Options, ecosystem: string, d: Declaration, k: NameKey)
    requires ecosystem in wk.declarers && Owes(wk, opts, ecosystem, d, k)
    ensures k == NameKey(ecosystem, wk.declarers[ecosystem].identify(d.name, "").1)
  {
  }

  // A declaration whose package the node already depends on, or waits for, may be heard.
  lemma HearsKnown(wk: Walker, opts: Options, s: State, w: Walk, tr: Trace, x: string, d: Declaration)
    requires Inv(wk, opts, s, w, tr) && x in s.nodes && s.nodes[x].ecosystem in wk.declarers
    requires var k := NameKey(s.nodes[x].ecosystem, wk.declarers[s.nodes[x].ecosystem].identify(d.name, "").1);
             Linked(wk, s, x, k) || Awaits(tr.owed, x, k)
    ensures Inv(wk, opts, s, w, tr.(told := tr.told + {(x, d)}))
  {
    hide Inv, Linked, Awaits, Owes;
    forall k | Owes(wk, opts, s.nodes[x].ecosystem, d, k)
      ensures Linked(wk, s, x, k) || Awaits(tr.owed, x, k)
    {
      OwesOne(wk, opts, s.nodes[x].ecosystem, d, k);
    }
    InvHears(wk, opts, s, w, tr, x, d);
  }

  lemma HearsNothingOwed(wk: Walker, opts: Options, s: State, w: Walk, tr: Trace, x: string, d: Declaration)
    requires Inv(wk, opts, s, w, tr) && x in s.nodes && s.nodes[x].ecosystem in wk.declarers
    requires var eco := s.nodes[x].ecosystem;
             !Included(opts, d) || wk.declarers[eco].identify(d.name, "").1 == ""
             || !AlwaysIdentifies(wk.declarers[eco], wk.declarers[eco].identify(d.name, "").1)
    ensures Inv(wk, opts, s, w, tr.(told := tr.told + {(x, d)}))
  {
    OwesNothing(wk, opts, s.nodes[x].ecosystem, d);
    hide Inv, Linked, Awaits, Owes;
    InvHears(wk, opts, s, w, tr, x, d);
  }

  lemma LinkedThrough(wk: Walker, s: State, t: State, root: string, x: string, k: NameKey, y: string)
    requires Answers(wk, s.nodes, k, y) && Progress(s, t, root) && Edge(x, y, DependsOn) in t.edges
    ensures Linked(wk, t, x, k)
  {
    hide Answers, Inside, EdgesEvolve;
    AnswersStays(wk, s.nodes, t.nodes, k, y);
  }

  // What one manifest entry of the root n does to the nodes: one without a canonical name, or whose
  // name the subtree has, adds none; any other is created one below the root, as a direct dependency.
  ghost predicate Seeded(wk: Walker, opts: Options, before: map<string, Node>, after: map<string, Node>,
                         byName0: map<NameKey, string>,
                         byName: map<NameKey, string>, n: Node, dd: DeclaredDep) {
    && n.ecosystem in wk.declarers
    && var k := NameKey(n.ecosystem, wk.declarers[n.ecosystem].identify(dd.name, "").1);
       var constraints := if dd.constraint != "" then [dd.constraint] else [];
       if k.canonical == "" || k in byName0 then after == before && byName == byName0
       else CreatedFor(wk, opts, before, after, byName, k, constraints, true, n.depth + 1, "", dd.constraint)
  }

  function OwnConstraints(dd: DeclaredDep): seq<string> {
    if dd.constraint != "" then [dd.constraint] else []
  }

  // A version is chosen for what the entry names exactly when that has a name and the subtree lacks it.
  ghost predicate SeedChose(wk: Walker, opts: Options, nodes: map<string, Node>, ecosystem: string, dd: DeclaredDep,
                            w0: Walk, w: Walk, tr0: Trace, tr: Trace, choice: Option<string>) {
    && ecosystem in wk.declarers
    && var k := NameKey(ecosystem, wk.declarers[ecosystem].identify(dd.name, "").1);
       match choice
       case None =>
         && (k.canonical == "" || k in w0.byName) && w.byName == w0.byName && w.frontier == w0.frontier
         && tr.queued == tr0.queued && w.expanded == w0.expanded
       case Some(v) =>
         && k.canonical != "" && k !in w0.byName && IsChoice(wk, opts, k, OwnConstraints(dd), v)
         && Adopted(wk, nodes, w0, w, tr0, tr, k, v)
  }

  // The node of that version is the only one that may come.
  ghost predicate SeedAdds(wk: Walker, before: set<string>, after: set<string>, ecosystem: string, dd: DeclaredDep,
                           choice: Option<string>) {
    && ecosystem in wk.declarers
    && var k := NameKey(ecosystem, wk.declarers[ecosystem].identify(dd.name, "").1);
       forall id :: id in after ==> id in before || (choice.Some? && Identifies(wk, k, choice.value, id))
  }

  lemma SeedMayAsk(wk: Walker, opts: Options, s: State, w: Walk, tr: Trace, dd: DeclaredDep, k: NameKey)
    requires Inv(wk, opts, s, w, tr) && tr.root in tr.before.nodes && dd in RootDeclares(s.nodes[tr.root])
    requires Names(wk, opts, s.nodes[tr.root].ecosystem, AsDeclaration(dd), k)
    ensures MayAsk(wk, opts, tr.before, tr.root, k)
  {
    InvIsSound(wk, opts, s, w, tr);
    hide Inv, Sound, MayAsk, Names;
    SameManifest(tr.before, s, tr.root);
    ManifestMayAsk(wk, opts, tr.before, tr.root, dd, k);
  }

  lemma SameManifest(s: State, t: State, root: string)
    requires Evolves(s, t) && root in s.nodes
    ensures root in t.nodes && t.nodes[root].ecosystem == s.nodes[root].ecosystem
    ensures RootDeclares(t.nodes[root]) == RootDeclares(s.nodes[root])
  {
    hide Decoded, EdgesEvolve, GoodNew;
    assert Evolved(s.nodes[root], t.nodes[root]);
  }

  // A version was presumed and identified: its node is created one below the root, unless it exists.
  method SeedChild(wk: Walker, opts: Options, g: Graph, root: string, dd: DeclaredDep, k: NameKey, version: string,
                   truth: string, candidates: nat, w0: Walk, ghost tr0: Trace)
    returns (w: Walk, ghost tr: Trace)
    requires CleanWalker(wk) && Inv(wk, opts, g.View(), w0, tr0) && tr0.pending == {} && root == tr0.root
    requires root in g.nodes && k.ecosystem in wk.declarers && MayAsk(wk, opts, tr0.before, root, k)
    requires wk.declarers[k.ecosystem].identify(k.canonical, version).0 != "" &&
             (version != "" ==> truth == TRUTH_PRESUMED) && truth != "asserted"
    requires exists r ::
               && IsPresumedFor(wk, opts, wk.declarers[k.ecosystem], k.ecosystem, k.canonical, OwnConstraints(dd), r)
               && Records(r, version, truth, candidates)
    modifies g
    ensures Inv(wk, opts, g.View(), w, tr) && Progress(old(g.View()), g.View(), root)
    ensures tr == tr0.(queued := tr.queued) && tr0.queued <= tr.queued
    ensures w.res.asserted == w0.res.asserted && Linked(wk, g.View(), root, k)
    ensures CreatedAs(wk, opts, old(g.nodes), g.nodes, w.byName, k, OwnConstraints(dd), true,
                      old(g.nodes)[root].depth + 1, "", dd.constraint, version, truth, candidates)
    ensures Adopted(wk, g.nodes, w0, w, tr0, tr, k, version)
    ensures Tallies(old(g.nodes), g.nodes, w0.res, w.res)
  {
    hide Inv, Progress, Reaches, Linked, NewChild, GoodNew, Defaulted, InSubtree, Evolved, IsPresumedFor, Records,
         CountDiscovered, Marked, CandidateText, MayAsk, Belongs, Adopted, IsChoice, CleanWalker, Tallies;
    ghost var s := g.View();
    var depth := g.nodes[root].depth + 1;
    var (id, name) := wk.declarers[k.ecosystem].identify(k.canonical, version);
    var child := NewChild(id, k.ecosystem, name, version, true, depth, truth, "", dd.constraint,
                          CandidateText(candidates));
    CleanIds(wk, k);
    ChildIsGood(wk, opts, tr0.before, root, k, OwnConstraints(dd), true, depth, "", dd.constraint, version, truth,
                candidates);
    JustRoot(s, root);
    w, tr := Adopt(wk, opts, g, w0, k, child, truth, [root], tr0);
    assert [root][0] == root;
    LabelOfChild(id, k.ecosystem, name, version, true, depth, truth, "", dd.constraint, CandidateText(candidates));
    AdoptTallies(s.nodes, g.nodes, child, truth, w0.res, w.res);
    AdoptsIdentified(wk, g.nodes, w0, w, tr0, tr, k, version, id);
  }

  // The label a created node carries.
  lemma LabelOfChild(id: string, ecosystem: string, name: string, version: string, direct: bool, depth: int,
                     truth: string, discoveredBy: string, text: string, candidates: string)
    ensures var n := NewChild(id, ecosystem, name, version, direct, depth, truth, discoveredBy, text, candidates);
            n.Attribute("depsnort.version_truth") == truth && n.id == id
  {
  }

  // Adopting a node counts it by its label when it is new.
  lemma AdoptTallies(a: map<string, Node>, b: map<string, Node>, child: Node, truth: string, r0: Result, r: Result)
    requires b.Keys == a.Keys + {child.id} && (child.id !in a ==> Evolved(child, b[child.id]))
    requires child.Attribute("depsnort.version_truth") == truth && truth != "asserted"
    requires r == Reaching(if child.id in a then r0 else CountDiscovered(r0, truth), b[child.id].depth).(
                           frontier := r0.frontier + (if b[child.id].version == "" then 1 else 0))
    ensures Tallies(a, b, r0, r)
  {
    TalliesChild(a, b, child, truth, r0, r);
    hide Evolved, Tallies;
  }

  // One manifest entry whose package the subtree lacks: presumed and created.
  method SeedNew(wk: Walker, opts: Options, g: Graph, root: string, dd: DeclaredDep, k: NameKey, w0: Walk,
                 ghost tr0: Trace)
    returns (w: Walk, ghost tr: Trace, ghost choice: string)
    requires CleanWalker(wk) && Inv(wk, opts, g.View(), w0, tr0) && tr0.pending == {} && root == tr0.root
    requires root in g.nodes && g.nodes[root].ecosystem in wk.declarers
    requires root in tr0.before.nodes && dd in RootDeclares(g.nodes[root])
    requires Names(wk, opts, g.nodes[root].ecosystem, AsDeclaration(dd), k)
    modifies g
    ensures Inv(wk, opts, g.View(), w, tr) && Progress(old(g.View()), g.View(), root)
    ensures tr == tr0.(queued := tr.queued, told := tr0.told + {(root, AsDeclaration(dd))}) && tr0.queued <= tr.queued
    ensures w.res.asserted == w0.res.asserted
    ensures CreatedFor(wk, opts, old(g.nodes), g.nodes, w.byName, k, OwnConstraints(dd), true,
                       old(g.nodes)[root].depth + 1, "", dd.constraint)
    ensures Tallies(old(g.nodes), g.nodes, w0.res, w.res)
    ensures IsChoice(wk, opts, k, OwnConstraints(dd), choice) && Adopted(wk, g.nodes, w0, w, tr0, tr, k, choice)
    ensures forall id :: id in g.nodes ==> id in old(g.nodes) || Identifies(wk, k, choice, id)
  {
    hide Inv, Progress, Reaches, Linked, Answers, AlwaysIdentifies, NewChild, Evolved, IsPresumedFor, Records,
         RootDeclares, MayAsk, Adopted, IsChoice, CleanWalker, Names, Tallies;
    ghost var s := g.View();
    NamesParts(wk, opts, g.nodes[root].ecosystem, AsDeclaration(dd), k);
    w, tr := w0, tr0;
    var d := wk.declarers[k.ecosystem];
    var constraints := if dd.constraint != "" then [dd.constraint] else [];
    var version, truth, candidates := PresumeFor(wk, opts, d, k.ecosystem, k.canonical, constraints);
    choice := version;
    ChoiceMade(wk, opts, k, constraints, version, truth, candidates);
    if d.identify(k.canonical, version).0 == "" {
      ProgressSelf(s, root);
      TalliesSame(s.nodes, s.nodes, w.res, w.res);
      assert CreatedAs(wk, opts, s.nodes, g.nodes, w.byName, k, constraints, true, g.nodes[root].depth + 1, "",
             dd.constraint, version, truth, candidates);
      SometimesUnidentified(d, k.canonical, version);
      HearsNothingOwed(wk, opts, s, w, tr, root, AsDeclaration(dd));
      AdoptsUnidentified(wk, s.nodes, w0, tr0, tr, k, version);
    } else {
      SeedMayAsk(wk, opts, s, w, tr, dd, k);
      w, tr := SeedChild(wk, opts, g, root, dd, k, version, truth, candidates, w, tr);
      ProgressManifest(s, g.View(), root);
      HearsKnown(wk, opts, g.View(), w, tr, root, AsDeclaration(dd));
    }
    ghost var ur := tr;
    tr := tr.(told := tr.told + {(root, AsDeclaration(dd))});
    AdoptedIgnoresRest(wk, g.nodes, w0, w, tr0, ur, tr, k, version);
  }

  lemma NamesParts(wk: Walker, opts: Options, ecosystem: string, d: Declaration, k: NameKey)
    requires Names(wk, opts, ecosystem, d, k)
    ensures k.ecosystem == ecosystem && ecosystem in wk.declarers
    ensures k.canonical == wk.declarers[ecosystem].identify(d.name, "").1
  {
  }

  lemma CleanIds(wk: Walker, k: NameKey)
    requires CleanWalker(wk) && k.ecosystem in wk.declarers
    ensures forall v :: NulFree(wk.declarers[k.ecosystem].identify(k.canonical, v).0)
  {
    hide NulFree;
  }

  // One manifest entry of the root: linked to a node of that name, or presumed and created.
  method SeedOne(wk: Walker, opts: Options, g: Graph, root: string, dd: DeclaredDep, w0: Walk, ghost tr0: Trace)
    returns (w: Walk, ghost tr: Trace, ghost choice: Option<string>)
    requires CleanWalker(wk) && Inv(wk, opts, g.View(), w0, tr0) && tr0.pending == {} && root == tr0.root
    requires root in g.nodes && g.nodes[root].ecosystem in wk.declarers
    requires root in tr0.before.nodes && dd in RootDeclares(g.nodes[root])
    modifies g
    ensures Inv(wk, opts, g.View(), w, tr) && Progress(old(g.View()), g.View(), root)
    ensures tr == tr0.(queued := tr.queued, told := tr0.told + {(root, AsDeclaration(dd))}) && tr0.queued <= tr.queued
    ensures w.expanded == w0.expanded && w.res.asserted == w0.res.asserted
    ensures Seeded(wk, opts, old(g.nodes), g.nodes, w0.byName, w.byName, old(g.nodes)[root], dd)
    ensures Tallies(old(g.nodes), g.nodes, w0.res, w.res)
    ensures SeedChose(wk, opts, g.nodes, old(g.nodes)[root].ecosystem, dd, w0, w, tr0, tr, choice)
    ensures SeedAdds(wk, old(g.nodes).Keys, g.nodes.Keys, old(g.nodes)[root].ecosystem, dd, choice)
  {
    hide Inv, Progress, Reaches, Linked, Answers, AlwaysIdentifies, RootDeclares, CreatedFor, IsChoice, CleanWalker,
         Tallies;
    ghost var s := g.View();
    w, tr, choice := w0, tr0, None;
    InvMembers(wk, opts, s, w, tr);
    ProgressSelf(s, root);
    TalliesSame(s.nodes, s.nodes, w.res, w.res);
    var n := g.nodes[root];
    var d := wk.declarers[n.ecosystem];
    var canonical := d.identify(dd.name, "").1;
    if canonical == "" {
      HearsNothingOwed(wk, opts, s, w, tr, root, AsDeclaration(dd));
      tr := tr.(told := tr.told + {(root, AsDeclaration(dd))});
      return;
    }
    var k := NameKey(n.ecosystem, canonical);
    if k in w.byName {
      Link(wk, opts, g, root, w.byName[k], w, tr);
      LinkedThrough(wk, s, g.View(), root, root, k, w.byName[k]);
      HearsKnown(wk, opts, g.View(), w, tr, root, AsDeclaration(dd));
      tr := tr.(told := tr.told + {(root, AsDeclaration(dd))});
      return;
    }
    ghost var version;
    w, tr, version := SeedNew(wk, opts, g, root, dd, k, w, tr);
    choice := Some(version);
  }

  lemma SometimesUnidentified(d: Declarer, canonical: string, version: string)
    requires d.identify(canonical, version).0 == ""
    ensures !AlwaysIdentifies(d, canonical)
  {
  }

  lemma JustRoot(s: State, root: string)
    requires root in s.nodes
    ensures InSubtree(s, root, [root])
  {
    ReachesSelf(s.edges, DEPENDS, root);
  }

  // What seeding leaves behind: a version chosen for each package the manifest names and the subtree
  // lacked, and nothing queued but what these versions lead to.
  ghost predicate SeedDid(wk: Walker, opts: Options, n: Node, nodes: map<string, Node>, w0: Walk, w: Walk, tr0: Trace,
                          tr: Trace, chosen: Choices) {
    && Chose(wk, nodes, w0, w, tr0, tr, chosen)
    && (forall k :: k in chosen ==> k !in w0.byName && ManifestLeads(wk, opts, n, k, chosen[k]))
    && (n.ecosystem in wk.declarers ==>
          forall dd :: dd in RootDeclares(n) ==> IsSeeded(wk, n.ecosystem, dd, w0.byName, chosen))
  }

  // An entry of the manifest names k and leads to this version.
  ghost predicate ManifestLeads(wk: Walker, opts: Options, n: Node, k: NameKey, version: string) {
    exists dd :: dd in RootDeclares(n) && Names(wk, opts, n.ecosystem, AsDeclaration(dd), k)
                 && IsChoice(wk, opts, k, OwnConstraints(dd), version)
  }

  ghost predicate IsSeeded(wk: Walker, ecosystem: string, dd: DeclaredDep, byName: map<NameKey, string>,
                           chosen: Choices)
    requires ecosystem in wk.declarers
  {
    var k := NameKey(ecosystem, wk.declarers[ecosystem].identify(dd.name, "").1);
    k.canonical == "" || k in byName || k in chosen
  }

  // The same when the first i entries have been dealt with.
  ghost predicate Seeding(wk: Walker, opts: Options, n: Node, nodes: map<string, Node>, w0: Walk, w: Walk, tr0: Trace,
                          tr: Trace, chosen: Choices, i: nat) {
    && i <= |RootDeclares(n)| && n.ecosystem in wk.declarers
    && Chose(wk, nodes, w0, w, tr0, tr, chosen)
    && (forall k :: k in chosen ==> k !in w0.byName && ManifestLeads(wk, opts, n, k, chosen[k]))
    && (forall j :: 0 <= j < i ==> IsSeeded(wk, n.ecosystem, RootDeclares(n)[j], w0.byName, chosen))
  }

  lemma SeedingSteps(wk: Walker, opts: Options, n: Node, before: set<string>, a: map<string, Node>,
                     b: map<string, Node>, w0: Walk, w: Walk,
                     v: Walk, tr0: Trace, tr: Trace, ur: Trace, chosen: Choices, i: nat, choice: Option<string>)
    returns (more: Choices)
    requires Seeding(wk, opts, n, a, w0, w, tr0, tr, chosen, i) && i < |RootDeclares(n)| && NodesEvolve(a, b)
    requires SeedChose(wk, opts, b, n.ecosystem, RootDeclares(n)[i], w, v, tr, ur, choice)
    requires CameFrom(wk, before, a.Keys, chosen) &&
             SeedAdds(wk, a.Keys, b.Keys, n.ecosystem, RootDeclares(n)[i], choice)
    ensures Seeding(wk, opts, n, b, w0, v, tr0, ur, more, i + 1) && CameFrom(wk, before, b.Keys, more)
  {
    hide NodesEvolve, RootDeclares, Adopted, IsChoice;
    ChoseStays(wk, a, b, w0, w, tr0, tr, chosen);
    var dd := RootDeclares(n)[i];
    var k := NameKey(n.ecosystem, wk.declarers[n.ecosystem].identify(dd.name, "").1);
    if choice.Some? {
      more := chosen[k := choice.value];
      ChoseOneMore(wk, b, w0, w, v, tr0, tr, ur, chosen, k, choice.value);
      ChoseKeepsNames(wk, b, w0, w, tr0, tr, chosen, k);
      CameFromOneMore(wk, before, a.Keys, b.Keys, w.byName, chosen, k, choice.value);
      assert dd in RootDeclares(n) && Names(wk, opts, n.ecosystem, AsDeclaration(dd), k);
      assert ManifestLeads(wk, opts, n, k, more[k]);
    } else {
      more := chosen;
      ChoseKeepsNames(wk, b, w0, w, tr0, tr, chosen, k);
      ChoseSameWalk(wk, b, w0, w, v, tr0, tr, ur, chosen);
    }
    hide Chose, ManifestLeads;
  }

  lemma ChoseKeepsNames(wk: Walker, nodes: map<string, Node>, w0: Walk, w: Walk, tr0: Trace, tr: Trace, chosen: Choices,
                        k: NameKey)
    requires Chose(wk, nodes, w0, w, tr0, tr, chosen)
    ensures k in w0.byName ==> k in w.byName
    ensures k in w.byName ==> k in w0.byName || k in chosen
  {
  }

  lemma ChoseSameWalk(wk: Walker, nodes: map<string, Node>, w0: Walk, w: Walk, v: Walk, tr0: Trace, tr: Trace,
                      ur: Trace, chosen: Choices)
    requires Chose(wk, nodes, w0, w, tr0, tr, chosen) && ur.queued == tr.queued
    requires v.byName == w.byName && v.frontier == w.frontier && v.expanded == w.expanded
    ensures Chose(wk, nodes, w0, v, tr0, ur, chosen)
  {
    hide IsNext, Leads, IsThere;
  }

  // Creates what the root's manifest declares and the subtree lacks.
  method Seed(wk: Walker, opts: Options, g: Graph, root: string, w0: Walk, ghost tr0: Trace)
    returns (w: Walk, ghost tr: Trace, ghost chosen: Choices)
    requires CleanWalker(wk) && Inv(wk, opts, g.View(), w0, tr0) && tr0.pending == {} && root == tr0.root &&
             root in g.nodes && root in tr0.before.nodes
    modifies g
    ensures Inv(wk, opts, g.View(), w, tr) && Progress(old(g.View()), g.View(), root)
    ensures tr == tr0.(queued := tr.queued, told := tr.told) && tr0.queued <= tr.queued && tr0.told <= tr.told
    ensures w.expanded == w0.expanded && w.res.asserted == w0.res.asserted
    ensures old(g.nodes)[root].ecosystem in wk.declarers ==>
              forall dd :: dd in RootDeclares(old(g.nodes)[root]) ==> (root, AsDeclaration(dd)) in tr.told
    ensures forall p :: p in tr.told ==> p in tr0.told || p.0 == root
    ensures Tallies(old(g.nodes), g.nodes, w0.res, w.res)
    ensures SeedDid(wk, opts, old(g.nodes)[root], g.nodes, w0, w, tr0, tr, chosen) &&
            CameFrom(wk, old(g.nodes).Keys, g.nodes.Keys, chosen)
  {
    hide Inv, Progress, CleanWalker, Decoded, Chose, ManifestLeads, IsSeeded, SeedChose, Evolves, CameFrom, SeedAdds,
         Seeding, SeedDid, Seeded, Tallies, Tells;
    ghost var s0 := g.View();
    w, tr, chosen := w0, tr0, map[];
    ProgressSelf(s0, root);
    TalliesSame(s0.nodes, s0.nodes, w.res, w.res);
    var n := g.nodes[root];
    SeedingStarts(wk, opts, n, s0.nodes, w, tr);
    if n.ecosystem !in wk.declarers {
      return;
    }
    var deps := Decode(n.Attribute(ATTR_DECLARED_DEPS));
    TellsNothing(root, deps, tr);
    for i := 0 to |deps|
      invariant Inv(wk, opts, g.View(), w, tr) && Progress(s0, g.View(), root)
      invariant root in g.nodes && g.nodes[root].ecosystem == n.ecosystem && RootDeclares(g.nodes[root]) == deps
      invariant Tells(root, deps, i, tr0, tr) && w.expanded == w0.expanded && w.res.asserted == w0.res.asserted
      invariant Tallies(s0.nodes, g.nodes, w0.res, w.res)
      invariant Seeding(wk, opts, n, g.nodes, w0, w, tr0, tr, chosen, i) &&
                CameFrom(wk, s0.nodes.Keys, g.nodes.Keys, chosen)
    {
      ghost var s, w1, tr1 := g.View(), w, tr;
      ghost var choice;
      TellsKeeps(root, deps, i, tr0, tr);
      w, tr, choice := SeedOne(wk, opts, g, root, deps[i], w, tr);
      TellsOneMore(root, deps, i, tr0, tr1, tr);
      ProgressManifest(s, g.View(), root);
      ProgressNodes(s, g.View(), root);
      ProgressNodes(s0, s, root);
      TalliesTransitive(s0.nodes, s.nodes, g.nodes, w0.res, w1.res, w.res);
      chosen := SeedingSteps(wk, opts, n, s0.nodes.Keys, s.nodes, g.nodes, w0, w1, w, tr0, tr1, tr, chosen, i, choice);
      ProgressTransitive(s0, s, g.View(), root);
    }
    SeedingEnds(wk, opts, n, g.nodes, w0, w, tr0, tr, chosen);
    TellsKeeps(root, deps, |deps|, tr0, tr);
  }

  // The first i entries have been heard, and nothing but the root's.
  ghost predicate Tells(root: string, deps: seq<DeclaredDep>, i: nat, tr0: Trace, tr: Trace) {
    && i <= |deps| && tr == tr0.(queued := tr.queued, told := tr.told)
    && tr0.queued <= tr.queued && tr0.told <= tr.told
    && (forall j :: 0 <= j < i ==> (root, AsDeclaration(deps[j])) in tr.told)
    && (forall p :: p in tr.told ==> p in tr0.told || p.0 == root)
  }

  lemma TellsKeeps(root: string, deps: seq<DeclaredDep>, i: nat, tr0: Trace, tr: Trace)
    requires Tells(root, deps, i, tr0, tr)
    ensures tr == tr0.(queued := tr.queued, told := tr.told) && tr0.queued <= tr.queued && tr0.told <= tr.told
    ensures i == |deps| ==> forall dd :: dd in deps ==> (root, AsDeclaration(dd)) in tr.told
    ensures forall p :: p in tr.told ==> p in tr0.told || p.0 == root
  {
  }

  lemma TellsNothing(root: string, deps: seq<DeclaredDep>, tr: Trace)
    ensures Tells(root, deps, 0, tr, tr)
  {
  }

  lemma TellsOneMore(root: string, deps: seq<DeclaredDep>, i: nat, tr0: Trace, tr: Trace, ur: Trace)
    requires Tells(root, deps, i, tr0, tr) && i < |deps| && tr.queued <= ur.queued
    requires ur == tr.(queued := ur.queued, told := tr.told + {(root, AsDeclaration(deps[i]))})
    ensures Tells(root, deps, i + 1, tr0, ur)
  {
  }

  lemma SeedingStarts(wk: Walker, opts: Options, n: Node, nodes: map<string, Node>, w: Walk, tr: Trace)
    ensures CameFrom(wk, nodes.Keys, nodes.Keys, map[])
    ensures if n.ecosystem in wk.declarers then Seeding(wk, opts, n, nodes, w, w, tr, tr, map[], 0)
            else SeedDid(wk, opts, n, nodes, w, w, tr, tr, map[])
  {
    ChoseNothing(wk, nodes, w, tr);
  }

  lemma SeedingEnds(wk: Walker, opts: Options, n: Node, nodes: map<string, Node>, w0: Walk, w: Walk, tr0: Trace,
                    tr: Trace, chosen: Choices)
    requires Seeding(wk, opts, n, nodes, w0, w, tr0, tr, chosen, |RootDeclares(n)|)
    ensures SeedDid(wk, opts, n, nodes, w0, w, tr0, tr, chosen)
  {
    hide RootDeclares, Chose, ManifestLeads, IsSeeded;
  }

  lemma ProgressNodes(s: State, t: State, root: string)
    requires Progress(s, t, root)
    ensures NodesEvolve(s.nodes, t.nodes)
  {
    hide NodesEvolve, EdgesEvolve, Inside;
  }

  lemma ProgressManifest(s: State, t: State, root: string)
    requires Progress(s, t, root) && root in s.nodes
    ensures root in t.nodes && t.nodes[root].ecosystem == s.nodes[root].ecosystem
    ensures RootDeclares(t.nodes[root]) == RootDeclares(s.nodes[root])
  {
    hide Evolves, Inside;
    SameManifest(s, t, root);
  }
}
