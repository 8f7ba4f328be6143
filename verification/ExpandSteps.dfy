// The walk's elementary actions on the graph, each keeping the invariant:
// marking a node, drawing an edge, inserting a node.
// And the version a set of constraints leads to.
module ExpandSteps {
  import opened Prelude
  import opened Findings
  import opened GraphTypes
  import opened Reach
  import opened GraphState
  import opened GraphStore
  import opened Presume
  import Text
  import opened ExpandTypes
  import opened ExpandRegion
  import opened ExpandLedger

  // Sets one attribute of a node; an empty value sets nothing.
  method SetAttr(g: Graph, id: string, key: string, value: string)
    requires id in g.nodes
    modifies g`nodes
    ensures g.View() == WithAttr(old(g.View()), id, key, value)
  {
    g.nodes := g.nodes[id := g.nodes[id].WithAttribute(key, value)];
  }

  // Marks a node as one whose dependencies were not read.
  method MarkFrontier(wk: Walker, opts: Options, g: Graph, id: string, ghost w: Walk, ghost tr: Trace)
    requires Inv(wk, opts, g.View(), w, tr) && id in g.nodes
    requires id in tr.cut || Excused(wk, opts, id, g.nodes[id])
    modifies g`nodes
    ensures Inv(wk, opts, g.View(), w, tr) && Progress(old(g.View()), g.View(), tr.root)
    ensures g.edges == old(g.edges) && g.nodes.Keys == old(g.nodes).Keys && Marked(g.nodes[id])
    ensures g.nodes[id].Attribute("depsnort.walk_frontier") == "true"
  {
    ghost var s := g.View();
    MarkKeepsInv(wk, opts, s, id, ATTR_FRONTIER, TRUE, w, tr);
    hide Inv, Progress, Excused;
    SetAttr(g, id, ATTR_FRONTIER, TRUE);
  }

  lemma MarkKeepsInv(wk: Walker, opts: Options, s: State, id: string, key: string, value: string, w: Walk, tr: Trace)
    requires Inv(wk, opts, s, w, tr) && id in s.nodes
    requires (key == ATTR_FRONTIER && value == TRUE) || key == ATTR_SUBTREE_UNREAD
             || (key == ATTR_VERSION_TRUTH && value == TRUTH_OBSERVED && s.nodes[id].Attribute(key) == "")
    requires key == ATTR_FRONTIER ==> id in tr.cut || Excused(wk, opts, id, s.nodes[id])
    ensures var t := WithAttr(s, id, key, value);
            && Inv(wk, opts, t, w, tr) && Progress(s, t, tr.root) && t.edges == s.edges && t.nodes.Keys == s.nodes.Keys
            && (key == ATTR_FRONTIER ==> Marked(t.nodes[id]))
  {
    hide Inv, Evolved, Sound, Evolves;
    InvIsSound(wk, opts, s, w, tr);
    MarksEvolve(s.nodes[id], key, value);
    MarkEvolves(s, id, key, value);
    OneMarkExcused(wk, opts, s, id, key, value, tr.cut);
    EvolvesParts(s, WithAttr(s, id, key, value));
    ConfinesEvolution(wk, opts, tr.before, tr.root, s, WithAttr(s, id, key, value));
    hide Confines, NodesEvolve;
    InvSameNodes(wk, opts, s, WithAttr(s, id, key, value), w, tr);
  }

  lemma OneMarkExcused(wk: Walker, opts: Options, s: State, id: string, key: string, value: string, cut: set<string>)
    requires id in s.nodes && Evolved(s.nodes[id], s.nodes[id].WithAttribute(key, value))
    requires key == ATTR_FRONTIER ==> id in cut || Excused(wk, opts, id, s.nodes[id])
    ensures MarksExcused(wk, opts, s.nodes, WithAttr(s, id, key, value).nodes, cut)
  {
    var n := s.nodes[id].WithAttribute(key, value);
    assert n.version == s.nodes[id].version && CoordOf(n) == CoordOf(s.nodes[id]);
    assert key != ATTR_FRONTIER ==> (Marked(n) <==> Marked(s.nodes[id]));
    hide IsHole, Unanswered, CoordOf, Evolved;
  }

  lemma InvIsSound(wk: Walker, opts: Options, s: State, w: Walk, tr: Trace)
    requires Inv(wk, opts, s, w, tr)
    ensures Sound(s) && Evolves(tr.before, s) && tr.root in s.nodes
    ensures forall id :: id in s.nodes ==> NulFree(id)
    ensures forall id :: id in tr.before.nodes ==> id in s.nodes
  {
    hide Explained, Confines, WalkContained, NamesAnswer, Accounted, Heard, NothingLost, NewAccounted, Counted,
         Consistent;
    EvolvesParts(tr.before, s);
  }

  // Draws a depends-on edge between two nodes, the first inside the subtree.
  method Link(wk: Walker, opts: Options, g: Graph, x: string, y: string, ghost w: Walk, ghost tr: Trace)
    requires Inv(wk, opts, g.View(), w, tr)
    requires x in g.nodes && y in g.nodes && Reaches(g.edges, DEPENDS, tr.root, x)
    requires Reaches(g.edges, DEPENDS, tr.root, y) || IsPart(wk, opts, tr.before, tr.root, y)
    modifies g
    ensures Inv(wk, opts, g.View(), w, tr) && Progress(old(g.View()), g.View(), tr.root)
    ensures g.nodes == old(g.nodes) && Edge(x, y, DependsOn) in g.edges
    ensures Reaches(g.edges, DEPENDS, tr.root, x) && Reaches(g.edges, DEPENDS, tr.root, y)
  {
    ghost var s := g.View();
    LinkKeepsInv(wk, opts, s, x, y, w, tr);
    hide Inv, Progress, Reaches, IsPart;
    g.AddEdge(x, y, DependsOn);
  }

  lemma LinkKeepsInv(wk: Walker, opts: Options, s: State, x: string, y: string, w: Walk, tr: Trace)
    requires Inv(wk, opts, s, w, tr)
    requires x in s.nodes && y in s.nodes && Reaches(s.edges, DEPENDS, tr.root, x)
    requires Reaches(s.edges, DEPENDS, tr.root, y) || IsPart(wk, opts, tr.before, tr.root, y)
    ensures var e := Edge(x, y, DependsOn);
            var t := AddEdge(s, e);
            && Inv(wk, opts, t, w, tr) && Progress(s, t, tr.root) && t.nodes == s.nodes && e in t.edges
            && Reaches(t.edges, DEPENDS, tr.root, x) && Reaches(t.edges, DEPENDS, tr.root, y)
  {
    hide Inv, Sound, AddEdge, Reaches, Evolves, IsPart, Confines;
    InvIsSound(wk, opts, s, w, tr);
    var e := Edge(x, y, DependsOn);
    var t := AddEdge(s, e);
    LinkEvolves(s, x, y);
    EvolvesParts(s, t);
    NoNewMarks(wk, opts, s.nodes, tr.cut);
    ConfinesLink(wk, opts, tr.before, tr.root, s, t, x, y);
    InvSameNodes(wk, opts, s, t, w, tr);
    ReachesMonotone(s.edges, t.edges, DEPENDS, tr.root, x);
    assert Hop(t.edges, DEPENDS, x, y);
    ReachesStep(t.edges, DEPENDS, tr.root, x, y);
  }

  // Adds a node the graph does not have.  res and uncounted say how it is counted.
  method Insert(wk: Walker, opts: Options, g: Graph, n: Node, w: Walk, res: Result, ghost uncounted: nat,
                ghost tr: Trace)
    requires Inv(wk, opts, g.View(), w, tr)
    requires n.id !in g.nodes && NulFree(n.id) && GoodNew(n) && Defaulted(n) == n && !Marked(n)
    requires Belongs(wk, opts, tr.before, tr.root, n)
    requires Counted(|tr.before.order|, |g.order| + 1, res, uncounted) && res.depthTruncated == w.res.depthTruncated
    modifies g
    ensures Inv(wk, opts, g.View(), w.(res := res), tr.(pending := tr.pending + {n.id}, uncounted := uncounted))
    ensures Progress(old(g.View()), g.View(), tr.root) && g.edges == old(g.edges) && g.nodes == old(g.nodes)[n.id := n]
    ensures |g.nodes| == |old(g.nodes)| + 1
  {
    ghost var s := g.View();
    InsertKeepsInv(wk, opts, s, n, w, res, uncounted, tr);
    hide Inv, Progress, GoodNew, Defaulted, Counted, Belongs, GraphState.AddNode;
    var _ := g.AddNode(n);
  }

  lemma InsertKeepsInv(wk: Walker, opts: Options, s: State, n: Node, w: Walk, res: Result, uncounted: nat, tr: Trace)
    requires Inv(wk, opts, s, w, tr)
    requires n.id !in s.nodes && NulFree(n.id) && GoodNew(n) && Defaulted(n) == n && !Marked(n)
    requires Belongs(wk, opts, tr.before, tr.root, n)
    requires Counted(|tr.before.order|, |s.order| + 1, res, uncounted) && res.depthTruncated == w.res.depthTruncated
    ensures var t := GraphState.AddNode(s, n);
            && Inv(wk, opts, t, w.(res := res), tr.(pending := tr.pending + {n.id}, uncounted := uncounted))
            && Progress(s, t, tr.root) && t.edges == s.edges && t.nodes == s.nodes[n.id := n] &&
               |t.nodes| == |s.nodes| + 1
  {
    hide Inv, Sound, GoodNew, Defaulted, GraphState.AddNode, Evolves, Counted, Belongs;
    InvIsSound(wk, opts, s, w, tr);
    InsertEvolves(s, n);
    hide Excused, Confines;
    var t := GraphState.AddNode(s, n);
    ConfinesNode(wk, opts, tr.before, tr.root, s, t, n);
    InvEvolves(wk, opts, s, t, w, tr, res, uncounted);
    assert t.nodes.Keys - s.nodes.Keys == {n.id};
  }

  // ----- Presuming a version -----

  // The (version, truth, candidates) the walk records for a presumption.
  ghost predicate Records(r: Presumption, version: string, truth: string, candidates: nat) {
    match r
    case NameOnly => version == "" && truth == "" && candidates == 0
    case Contested => version == "" && truth == TRUTH_CONTESTED && candidates == 0
    case Chosen(v, n) => version == v && truth == TRUTH_PRESUMED && candidates == n
  }

  // Without an index, version semantics or permission there is nothing to presume; neither is there
  // when the index cannot be read.
  ghost predicate IsPresumedFor(wk: Walker, opts: Options, d: Declarer, ecosystem: string, canonical: string,
                                constraints: seq<string>, r: Presumption) {
    if opts.noPresume || IndexFor(wk, d).None? || d.presumer.None? then r == NameOnly
    else
      var all := IndexFor(wk, d).value(ecosystem, canonical);
      if all.None? then r == NameOnly else IsPresumption(d.presumer.value, all.value, constraints, r)
  }

  method PresumeFor(wk: Walker, opts: Options, d: Declarer, ecosystem: string, canonical: string,
                    constraints: seq<string>)
    returns (version: string, truth: string, candidates: nat)
    ensures exists r :: IsPresumedFor(wk, opts, d, ecosystem, canonical, constraints, r) &&
             Records(r, version, truth, candidates)
    ensures version != "" ==> truth == TRUTH_PRESUMED
    ensures truth == "" || truth == TRUTH_PRESUMED || truth == TRUTH_CONTESTED
  {
    hide IsPresumption;
    ghost var r := NameOnly;
    var ix := IndexFor(wk, d);
    if opts.noPresume || ix.None? || d.presumer.None? {
      assert IsPresumedFor(wk, opts, d, ecosystem, canonical, constraints, r) && Records(r, "", "", 0);
      return "", "", 0;
    }
    var all := ix.value(ecosystem, canonical);
    if all.None? {
      assert IsPresumedFor(wk, opts, d, ecosystem, canonical, constraints, r) && Records(r, "", "", 0);
      return "", "", 0;
    }
    var chosen := Choose(d.presumer.value, all.value, constraints);
    r := chosen;
    assert IsPresumedFor(wk, opts, d, ecosystem, canonical, constraints, r);
    match chosen {
      case NameOnly => version, truth, candidates := "", "", 0;
      case Contested => version, truth, candidates := "", TRUTH_CONTESTED, 0;
      case Chosen(v, n) => version, truth, candidates := v, TRUTH_PRESUMED, n;
    }
    assert Records(r, version, truth, candidates);
  }

  // What is presumed is offered.
  lemma PresumedIsOffered(wk: Walker, opts: Options, k: NameKey, constraints: seq<string>, version: string,
                          truth: string, candidates: nat)
    requires k.ecosystem in wk.declarers
    requires exists r ::
               && IsPresumedFor(wk, opts, wk.declarers[k.ecosystem], k.ecosystem, k.canonical, constraints, r)
               && Records(r, version, truth, candidates)
    ensures Offers(wk, k, version)
  {
  }

  // The bare node for a declared package, labelled with how its version is known.
  function NewChild(id: string, ecosystem: string, name: string, version: string, direct: bool, depth: int,
                    truth: string, discoveredBy: string, constraint: string, candidates: string): Node {
    Node(id, Package, ecosystem, name, version, direct, depth, map[], Clean, [])
      .WithAttribute(ATTR_VERSION_TRUTH, truth)
      .WithAttribute(ATTR_DISCOVERED_BY, discoveredBy)
      .WithAttribute(ATTR_DECLARED_CONSTRAINT, constraint)
      .WithAttribute(ATTR_VERSION_CANDIDATES, candidates)
  }

  lemma NewChildIsGood(id: string, ecosystem: string, name: string, version: string, direct: bool, depth: int,
                       truth: string, discoveredBy: string, constraint: string, candidates: string)
    requires version != "" ==> truth == TRUTH_PRESUMED
    ensures var n := NewChild(id, ecosystem, name, version, direct, depth, truth, discoveredBy, constraint, candidates);
            && GoodNew(n) && Defaulted(n) == n && n.id == id && n.version == version && n.ecosystem == ecosystem
            && n.depth == depth && n.name == name && (truth != "" ==> n.VersionTruth() == truth) && !Marked(n)
  {
  }

  // A candidate count is recorded only when there were candidates.
  function CandidateText(n: nat): string {
    if n > 0 then Text.Decimal(n) else ""
  }

  // Counts one node the walk created.
  function CountDiscovered(res: Result, truth: string): Result {
    res.(discovered := res.discovered + 1,
    presumed := if truth == TRUTH_PRESUMED || truth == TRUTH_ASSERTED then res.presumed + 1 else res.presumed,
    contested := if truth == TRUTH_CONTESTED then res.contested + 1 else res.contested)
  }
}
