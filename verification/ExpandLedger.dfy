// The walk's invariants: where its members live and what its edges can lead to, what its names answer for,
// why nodes are marked, that nothing queued or declared is lost,
// and what the counters say.
module ExpandLedger {
  import opened Prelude
  import opened Findings
  import opened GraphTypes
  import opened Reach
  import opened GraphState
  import opened ExpandTypes
  import opened ExpandRegion

  // ----- Containment: everything the walk holds is reachable from its root -----

  ghost predicate Contained(es: seq<Edge>, root: string, ids: set<string>) {
    forall id :: id in ids ==> Reaches(es, DEPENDS, root, id)
  }

  ghost predicate WalkContained(es: seq<Edge>, root: string, w: Walk) {
    && Contained(es, root, w.inSubtree)
    && (forall i :: 0 <= i < |w.frontier| ==> Reaches(es, DEPENDS, root, w.frontier[i]))
    && (forall k :: k in w.byName ==> Reaches(es, DEPENDS, root, w.byName[k]))
  }

  // Every edge of fs that es lacks leaves a node reachable from the root.
  ghost predicate Inside(es: seq<Edge>, fs: seq<Edge>, root: string) {
    forall e :: e in fs && e !in es ==> Reaches(fs, DEPENDS, root, e.from)
  }

  lemma ContainedGrows(es: seq<Edge>, fs: seq<Edge>, root: string, w: Walk)
    requires EdgesEvolve(es, fs) && WalkContained(es, root, w)
    ensures WalkContained(fs, root, w)
  {
    hide Reaches;
    forall x | Reaches(es, DEPENDS, root, x)
      ensures Reaches(fs, DEPENDS, root, x)
    {
      ReachesMonotone(es, fs, DEPENDS, root, x);
    }
  }

  lemma InsideTransitive(es: seq<Edge>, fs: seq<Edge>, gs: seq<Edge>, root: string)
    requires EdgesEvolve(es, fs) && EdgesEvolve(fs, gs) && Inside(es, fs, root) && Inside(fs, gs, root)
    ensures Inside(es, gs, root)
  {
    hide Reaches;
    forall x | Reaches(fs, DEPENDS, root, x)
      ensures Reaches(gs, DEPENDS, root, x)
    {
      ReachesMonotone(fs, gs, DEPENDS, root, x);
    }
  }

  // A phase of the walk: the graph evolves, and only nodes of the root's subtree gain edges.
  ghost predicate Progress(s: State, t: State, root: string) {
    Evolves(s, t) && Inside(s.edges, t.edges, root)
  }

  lemma ProgressTransitive(s: State, t: State, u: State, root: string)
    requires Progress(s, t, root) && Progress(t, u, root)
    ensures Progress(s, u, root)
  {
    EvolvesTransitive(s, t, u);
    hide NodesEvolve;
    InsideTransitive(s.edges, t.edges, u.edges, root);
  }

  lemma ProgressSelf(s: State, root: string)
    ensures Progress(s, s, root)
  {
    EvolvesSelf(s);
  }

  lemma ProgressKeeps(s: State, t: State, root: string, x: string)
    requires Progress(s, t, root)
    ensures s.nodes.Keys <= t.nodes.Keys
    ensures Reaches(s.edges, DEPENDS, root, x) ==> Reaches(t.edges, DEPENDS, root, x)
    ensures forall e :: e in s.edges ==> e in t.edges
    ensures x in s.nodes ==>
              x in t.nodes && t.nodes[x].ecosystem == s.nodes[x].ecosystem && t.nodes[x].name == s.nodes[x].name
                             && t.nodes[x].version == s.nodes[x].version && t.nodes[x].kind == s.nodes[x].kind
                             && t.nodes[x].depth == s.nodes[x].depth
  {
    hide Reaches, GoodNew;
    if x in s.nodes {
      assert Evolved(s.nodes[x], t.nodes[x]);
    }
    if Reaches(s.edges, DEPENDS, root, x) {
      ReachesMonotone(s.edges, t.edges, DEPENDS, root, x);
    }
  }

  lemma ProgressLinked(wk: Walker, s: State, t: State, root: string, x: string, k: NameKey)
    requires Progress(s, t, root)
    ensures Linked(wk, s, x, k) ==> Linked(wk, t, x, k)
  {
    hide Linked, Inside;
    if Linked(wk, s, x, k) {
      LinkedStays(wk, s, t, x, k);
    }
  }

  lemma LinkedBy(wk: Walker, s: State, x: string, k: NameKey, y: string)
    requires Edge(x, y, DependsOn) in s.edges && Answers(wk, s.nodes, k, y)
    ensures Linked(wk, s, x, k)
  {
    hide Answers;
  }

  // ----- What a node answers for -----

  // y is a node for the package k: identified from its canonical name, or so named itself.
  ghost predicate Answers(wk: Walker, nodes: map<string, Node>, k: NameKey, y: string) {
    && y in nodes && k.ecosystem in wk.declarers
    && var d := wk.declarers[k.ecosystem];
       || (exists v :: d.identify(k.canonical, v).0 == y)
       || (nodes[y].ecosystem == k.ecosystem && d.identify(nodes[y].name, nodes[y].version).1 == k.canonical)
  }

  ghost predicate NamesAnswer(wk: Walker, nodes: map<string, Node>, byName: map<NameKey, string>) {
    forall k :: k in byName ==> Answers(wk, nodes, k, byName[k])
  }

  // x depends on a node that answers for k.
  ghost predicate Linked(wk: Walker, s: State, x: string, k: NameKey) {
    exists y :: Edge(x, y, DependsOn) in s.edges && Answers(wk, s.nodes, k, y)
  }

  lemma AnswersStays(wk: Walker, a: map<string, Node>, b: map<string, Node>, k: NameKey, y: string)
    requires NodesEvolve(a, b) && Answers(wk, a, k, y)
    ensures Answers(wk, b, k, y)
  {
    hide GoodNew;
    assert Evolved(a[y], b[y]);
  }

  lemma NamesAnswerStays(wk: Walker, a: map<string, Node>, b: map<string, Node>, byName: map<NameKey, string>)
    requires NodesEvolve(a, b) && NamesAnswer(wk, a, byName)
    ensures NamesAnswer(wk, b, byName)
  {
    hide NodesEvolve, Answers;
    forall k | k in byName
      ensures Answers(wk, b, k, byName[k])
    {
      AnswersStays(wk, a, b, k, byName[k]);
    }
  }

  lemma LinkedStays(wk: Walker, s: State, t: State, x: string, k: NameKey)
    requires Evolves(s, t) && Linked(wk, s, x, k)
    ensures Linked(wk, t, x, k)
  {
    hide NodesEvolve, Answers;
    var y :| Edge(x, y, DependsOn) in s.edges && Answers(wk, s.nodes, k, y);
    AnswersStays(wk, s.nodes, t.nodes, k, y);
  }

  // ----- What reading a node obliges the walk to -----

  // The ecosystem identifies this package whatever its version.
  ghost predicate AlwaysIdentifies(d: Declarer, canonical: string) {
    forall v :: d.identify(canonical, v).0 != ""
  }

  // A node of this ecosystem that declares d owes an edge to k.
  ghost predicate Owes(wk: Walker, opts: Options, ecosystem: string, d: Declaration, k: NameKey) {
    Names(wk, opts, ecosystem, d, k) && AlwaysIdentifies(wk.declarers[ecosystem], k.canonical)
  }

  // What nodes were heard to declare, and the edges still to be drawn: package to waiting parents.
  type Told = set<(string, Declaration)>
  type Owed = map<NameKey, seq<string>>

  // What one layer heard: node, its ecosystem, declaration.
  type Layer = set<(string, string, Declaration)>

  ghost predicate Awaits(owed: Owed, x: string, k: NameKey) {
    k in owed && x in owed[k]
  }

  // No declaration heard is lost: what a node owes it depends on, or is about to.
  ghost predicate NothingLost(wk: Walker, opts: Options, s: State, told: Told, owed: Owed) {
    forall p, k :: p in told && p.0 in s.nodes && Owes(wk, opts, s.nodes[p.0].ecosystem, p.1, k) ==>
      Linked(wk, s, p.0, k) || Awaits(owed, p.0, k)
  }

  lemma NothingLostStays(wk: Walker, opts: Options, s: State, t: State, told: Told, owed: Owed)
    requires Evolves(s, t) && NothingLost(wk, opts, s, told, owed)
    requires forall p :: p in told ==> p.0 in s.nodes
    ensures NothingLost(wk, opts, t, told, owed)
  {
    hide Owes, Linked, Awaits;
    forall p, k | p in told && p.0 in t.nodes && Owes(wk, opts, t.nodes[p.0].ecosystem, p.1, k)
      ensures Linked(wk, t, p.0, k) || Awaits(owed, p.0, k)
    {
      SameEcosystem(s.nodes, t.nodes, p.0);
      if Linked(wk, s, p.0, k) {
        LinkedStays(wk, s, t, p.0, k);
      }
    }
  }

  // The ecosystem answered for this node, and all it declared was heard.
  ghost predicate WasTold(wk: Walker, nodes: map<string, Node>, x: string, told: Told) {
    && x in nodes && nodes[x].ecosystem in wk.declarers
    && exists batch :: AnswerHeard(wk.declarers[nodes[x].ecosystem], batch, CoordOf(nodes[x]), x, told)
  }

  ghost predicate AnswerHeard(d: Declarer, batch: seq<Coord>, c: Coord, x: string, told: Told) {
    && c in batch && d.declared(batch).Some? && c in d.declared(batch).value
    && forall i :: 0 <= i < |d.declared(batch).value[c]| ==> (x, d.declared(batch).value[c][i]) in told
  }

  lemma SameEcosystem(a: map<string, Node>, b: map<string, Node>, x: string)
    requires NodesEvolve(a, b) && x in a
    ensures x in b && b[x].ecosystem == a[x].ecosystem && b[x].name == a[x].name && b[x].version == a[x].version
    ensures a[x].Attribute(ATTR_FRONTIER) != "" ==> b[x].Attribute(ATTR_FRONTIER) != ""
    ensures b[x].kind == a[x].kind
  {
    hide GoodNew;
    assert Evolved(a[x], b[x]);
  }

  // ----- Nothing queued is forgotten -----

  predicate Marked(n: Node) {
    n.Attribute(ATTR_FRONTIER) != ""
  }

  // x was read, was closed by a resolver, is marked as unread, or has no ecosystem to ask.
  ghost predicate Settled(wk: Walker, nodes: map<string, Node>, x: string, read: set<string>, closed: set<string>) {
    x in nodes && (nodes[x].ecosystem !in wk.declarers || x in read || x in closed || Marked(nodes[x]))
  }

  // Everything queued is settled, still in the frontier, or in the batch being read.
  ghost predicate Accounted(wk: Walker, nodes: map<string, Node>, w: Walk, tr: Trace) {
    && (forall x :: x in w.expanded ==> x in tr.closed || x in tr.batch || Settled(wk, nodes, x, tr.read, tr.closed))
    && (forall x :: x in w.frontier ==> x in nodes && x in tr.queued)
    && (forall x :: x in tr.batch ==> x in nodes)
    && (forall x :: x in tr.queued ==> x in w.frontier || x in tr.batch || Settled(wk, nodes, x, tr.read, tr.closed))
  }

  ghost predicate Heard(wk: Walker, nodes: map<string, Node>, tr: Trace) {
    && (forall p :: p in tr.told ==> p.0 in nodes)
    && (forall x :: x in tr.read ==> WasTold(wk, nodes, x, tr.told))
  }

  lemma SettledStays(wk: Walker, a: map<string, Node>, b: map<string, Node>, x: string, read: set<string>,
                     closed: set<string>)
    requires NodesEvolve(a, b) && Settled(wk, a, x, read, closed)
    ensures Settled(wk, b, x, read, closed)
  {
    SameEcosystem(a, b, x);
    hide NodesEvolve;
  }

  lemma AccountedStays(wk: Walker, a: map<string, Node>, b: map<string, Node>, w: Walk, tr: Trace)
    requires NodesEvolve(a, b) && Accounted(wk, a, w, tr)
    ensures Accounted(wk, b, w, tr)
  {
    assert a.Keys <= b.Keys;
    hide NodesEvolve, Settled;
    forall x | Settled(wk, a, x, tr.read, tr.closed)
      ensures Settled(wk, b, x, tr.read, tr.closed)
    {
      SettledStays(wk, a, b, x, tr.read, tr.closed);
    }
  }

  lemma HeardStays(wk: Walker, a: map<string, Node>, b: map<string, Node>, tr: Trace)
    requires NodesEvolve(a, b) && Heard(wk, a, tr)
    ensures Heard(wk, b, tr)
  {
    assert a.Keys <= b.Keys;
    hide NodesEvolve, AnswerHeard;
    forall x | x in tr.read
      ensures WasTold(wk, b, x, tr.told)
    {
      assert WasTold(wk, a, x, tr.told);
      SameEcosystem(a, b, x);
      var batch :| AnswerHeard(wk.declarers[a[x].ecosystem], batch, CoordOf(a[x]), x, tr.told);
      assert AnswerHeard(wk.declarers[b[x].ecosystem], batch, CoordOf(b[x]), x, tr.told);
    }
  }

  // ----- Why a node is marked -----

  function PlainId(c: Coord): string {
    "pkg:" + c.ecosystem + "/" + c.name + "@" + c.version
  }

  // A coordinate whose dependencies could not be read; without a better name it has its plain one.
  function UnreadId(wk: Walker, c: Coord): string {
    var id := if c.ecosystem in wk.declarers then wk.declarers[c.ecosystem].identify(c.name, c.version).0 else "";
    if id == "" then PlainId(c) else id
  }

  ghost predicate Named(wk: Walker, refs: seq<Coord>, id: string) {
    exists i :: 0 <= i < |refs| && UnreadId(wk, refs[i]) == id
  }

  // A resolver's answer that owns up to not having read id.
  ghost predicate HoleIn(wk: Walker, a: Resolution, id: string) {
    a.error.Incomplete? && Named(wk, a.error.unread, id)
  }

  ghost predicate IsHole(wk: Walker, opts: Options, id: string) {
    && opts.resolver.Some?
    && var r := opts.resolver.value;
       || (exists c :: HoleIn(wk, r.resolve(c), id))
       || (r.localRoot.Some? && exists l :: HoleIn(wk, r.localRoot.value(l), id))
  }

  // An answer that does not cover the coordinate it was asked about.
  ghost predicate Unanswered(d: Declarer, batch: seq<Coord>, c: Coord) {
    c in batch && (d.declared(batch).None? || c !in d.declared(batch).value)
  }

  ghost predicate NoAnswer(wk: Walker, n: Node) {
    n.ecosystem in wk.declarers && exists batch :: Unanswered(wk.declarers[n.ecosystem], batch, CoordOf(n))
  }

  // A node has no version to ask about, or its ecosystem did not answer, or a resolver left a hole there.
  ghost predicate Excused(wk: Walker, opts: Options, id: string, n: Node) {
    n.version == "" || NoAnswer(wk, n) || IsHole(wk, opts, id)
  }

  // Every mark that b has and a lacks has such a reason, or is on one of the nodes cut.
  ghost predicate MarksExcused(wk: Walker, opts: Options, a: map<string, Node>, b: map<string, Node>,
                               cut: set<string>) {
    forall x :: x in b && Marked(b[x]) && !(x in a && Marked(a[x])) ==> x in cut || Excused(wk, opts, x, b[x])
  }

  // The same for a whole run, whose counter says whether the depth bound cut anything.
  ghost predicate Explained(wk: Walker, opts: Options, before: map<string, Node>, nodes: map<string, Node>, res: Result,
                            cut: set<string>) {
    MarksExcused(wk, opts, before, nodes, cut) && (res.depthTruncated == 0 <==> cut == {})
  }

  lemma ExcusedStays(wk: Walker, opts: Options, a: map<string, Node>, b: map<string, Node>, x: string)
    requires NodesEvolve(a, b) && x in a && Excused(wk, opts, x, a[x])
    ensures Excused(wk, opts, x, b[x])
  {
    SameEcosystem(a, b, x);
    assert CoordOf(b[x]) == CoordOf(a[x]);
    hide NodesEvolve, IsHole, Unanswered, CoordOf;
    if a[x].version != "" && NoAnswer(wk, a[x]) {
      var batch :| Unanswered(wk.declarers[a[x].ecosystem], batch, CoordOf(a[x]));
      assert Unanswered(wk.declarers[b[x].ecosystem], batch, CoordOf(b[x]));
    }
  }

  lemma ExplainedStays(wk: Walker, opts: Options, before: map<string, Node>, a: map<string, Node>, b: map<string, Node>,
                       res: Result, cut: set<string>)
    requires NodesEvolve(a, b) && Explained(wk, opts, before, a, res, cut) && MarksExcused(wk, opts, a, b, cut)
    ensures Explained(wk, opts, before, b, res, cut)
  {
    hide Excused, NodesEvolve;
    forall x | x in b && Marked(b[x]) && !(x in before && Marked(before[x]))
      ensures x in cut || Excused(wk, opts, x, b[x])
    {
      if x in a && Marked(a[x]) && x !in cut {
        ExcusedStays(wk, opts, a, b, x);
      }
    }
  }

  lemma ExplainedIgnoresRes(wk: Walker, opts: Options, before: map<string, Node>, nodes: map<string, Node>, a: Result,
                            b: Result, cut: set<string>)
    requires Explained(wk, opts, before, nodes, a, cut) && a.depthTruncated == b.depthTruncated
    ensures Explained(wk, opts, before, nodes, b, cut)
  {
    hide MarksExcused;
  }

  lemma NoNewMarks(wk: Walker, opts: Options, nodes: map<string, Node>, cut: set<string>)
    ensures MarksExcused(wk, opts, nodes, nodes, cut)
  {
  }

  // Every node new to the graph is known: it is marked as one the walk stopped at, or has a version
  // and was queued, closed or merged by a resolver.  pending holds nodes that are about to be.
  ghost predicate NewAccounted(before: map<string, Node>, nodes: map<string, Node>, pending: set<string>,
                               known: set<string>) {
    forall x :: x in nodes && x !in before && x !in pending ==>
        Marked(nodes[x]) || (nodes[x].version != "" && x in known)
  }

  // The counters say how far the graph grew, by its insertion order, which lists each node once.  Nodes
  // merged from a resolver that then failed are in the graph but in no counter; uncounted is their
  // number.
  ghost predicate Counted(before: nat, now: nat, res: Result, uncounted: nat) {
    && now == before + res.discovered + res.asserted + uncounted
    && res.presumed + res.contested <= res.discovered
  }

  // ----- The whole invariant -----

  // What the proof remembers of a run: the graph and root it started from, which nodes were read,
  // closed by a resolver and queued, the batch being read, what was heard and what is owed for it,
  // what the current layer heard and which nodes it was to read, which nodes a resolver added, which
  // new nodes are still to be queued or marked, which nodes the depth bound cut off, and how many nodes
  // are in no counter.
  datatype Trace = Trace(
    before: State,
    root: string,
    read: set<string>,
    closed: set<string>,
    queued: set<string>,
    batch: set<string>,
    told: Told,
    owed: Owed,
    layer: Layer,
    front: set<string>,
    merged: set<string>,
    pending: set<string>,
    cut: set<string>,
    uncounted: nat)

  // A run about to start.
  ghost function Outset(s: State, root: string): Trace {
    Trace(s, root, {}, {}, {}, {}, {}, map[], {}, {}, {}, {}, {}, 0)
  }

  ghost function Known(tr: Trace): set<string> {
    tr.queued + tr.closed + tr.merged
  }

  ghost predicate Inv(wk: Walker, opts: Options, s: State, w: Walk, tr: Trace) {
    && Sound(s) && Evolves(tr.before, s) && tr.root in s.nodes
    && WalkContained(s.edges, tr.root, w)
    && NamesAnswer(wk, s.nodes, w.byName)
    && Accounted(wk, s.nodes, w, tr)
    && Heard(wk, s.nodes, tr)
    && NothingLost(wk, opts, s, tr.told, tr.owed)
    && NewAccounted(tr.before.nodes, s.nodes, tr.pending, Known(tr))
    && Counted(|tr.before.order|, |s.order|, w.res, tr.uncounted)
    && Explained(wk, opts, tr.before.nodes, s.nodes, w.res, tr.cut)
    && Confines(wk, opts, tr.before, tr.root, tr.before, s)
  }

  lemma NewAccountedStays(before: map<string, Node>, a: map<string, Node>, b: map<string, Node>, pending: set<string>,
                          known: set<string>)
    requires NodesEvolve(a, b) && NewAccounted(before, a, pending, known)
    ensures NewAccounted(before, b, pending + (b.Keys - a.Keys), known)
  {
    forall x | x in b && x !in before && x in a && x !in pending
      ensures Marked(b[x]) || (b[x].version != "" && x in known)
    {
      SameEcosystem(a, b, x);
    }
  }

  lemma EvolvesParts(s: State, t: State)
    requires Evolves(s, t)
    ensures NodesEvolve(s.nodes, t.nodes) && EdgesEvolve(s.edges, t.edges) && s.nodes.Keys <= t.nodes.Keys
  {
  }

  lemma LedgersIgnoreCounters(wk: Walker, nodes: map<string, Node>, w: Walk, tr: Trace, v: Walk, ur: Trace)
    requires Accounted(wk, nodes, w, tr) && Heard(wk, nodes, tr)
    requires v.expanded == w.expanded && v.frontier == w.frontier
    requires ur == tr.(pending := ur.pending, merged := ur.merged, owed := ur.owed, cut := ur.cut,
             uncounted := ur.uncounted)
    ensures Accounted(wk, nodes, v, ur) && Heard(wk, nodes, ur)
  {
    hide Settled, WasTold;
  }

  // Any evolution of the graph keeps the invariant, as long as its new nodes are counted and those
  // without a version are noted as awaiting their mark.
  lemma InvEvolves(wk: Walker, opts: Options, s: State, t: State, w: Walk, tr: Trace, res: Result, uncounted: nat)
    requires Inv(wk, opts, s, w, tr) && Sound(t) && Evolves(s, t)
    requires Counted(|tr.before.order|, |t.order|, res, uncounted) && res.depthTruncated == w.res.depthTruncated
    requires MarksExcused(wk, opts, s.nodes, t.nodes, tr.cut) && Confines(wk, opts, tr.before, tr.root, s, t)
    ensures Inv(wk, opts, t, w.(res := res),
                tr.(pending := tr.pending + (t.nodes.Keys - s.nodes.Keys), uncounted := uncounted))
  {
    hide Sound, Explained, Confines, Evolves, NodesEvolve, EdgesEvolve, WalkContained, NamesAnswer, NothingLost,
         NewAccounted, Counted, Accounted, WasTold;
    EvolvesParts(s, t);
    EvolvesTransitive(tr.before, s, t);
    NothingLostStays(wk, opts, s, t, tr.told, tr.owed);
    hide Heard;
    NamesAnswerStays(wk, s.nodes, t.nodes, w.byName);
    AccountedStays(wk, s.nodes, t.nodes, w, tr);
    HeardStays(wk, s.nodes, t.nodes, tr);
    LedgersIgnoreCounters(wk, t.nodes, w, tr, w.(res := res),
                          tr.(pending := tr.pending + (t.nodes.Keys - s.nodes.Keys), uncounted := uncounted));
    NewAccountedStays(tr.before.nodes, s.nodes, t.nodes, tr.pending, Known(tr));
    ConfinesTransitive(wk, opts, tr.before, tr.root, tr.before, s, t);
    ExplainedStays(wk, opts, tr.before.nodes, s.nodes, t.nodes, w.res, tr.cut);
    ExplainedIgnoresRes(wk, opts, tr.before.nodes, t.nodes, w.res, res, tr.cut);
    ContainedGrows(s.edges, t.edges, tr.root, w);
    WalkContainedIgnoresRes(t.edges, tr.root, w, res);
  }

  // An evolution that adds no nodes needs no bookkeeping at all.
  lemma InvSameNodes(wk: Walker, opts: Options, s: State, t: State, w: Walk, tr: Trace)
    requires Inv(wk, opts, s, w, tr) && Sound(t) && Evolves(s, t) && t.nodes.Keys == s.nodes.Keys && t.order == s.order
    requires MarksExcused(wk, opts, s.nodes, t.nodes, tr.cut) && Confines(wk, opts, tr.before, tr.root, s, t)
    ensures Inv(wk, opts, t, w, tr)
  {
    hide Sound, Explained, Confines, Evolves, WalkContained, NamesAnswer, NothingLost, NewAccounted, Accounted;
    assert Counted(|tr.before.order|, |t.order|, w.res, tr.uncounted);
    InvEvolves(wk, opts, s, t, w, tr, w.res, tr.uncounted);
    hide Inv, Counted;
    assert tr.pending + (t.nodes.Keys - s.nodes.Keys) == tr.pending;
  }

  lemma SameKeysSameSize(a: map<string, Node>, b: map<string, Node>)
    requires a.Keys == b.Keys
    ensures |a| == |b|
  {
    assert |a| == |a.Keys| && |b| == |b.Keys|;
  }

  // The walk takes hold of a node: it joins the subtree and answers for a name.
  lemma InvHolds(wk: Walker, opts: Options, s: State, w: Walk, tr: Trace, k: NameKey, id: string)
    requires Inv(wk, opts, s, w, tr)
    requires Answers(wk, s.nodes, k, id) && Reaches(s.edges, DEPENDS, tr.root, id)
    ensures Inv(wk, opts, s, w.(byName := w.byName[k := id], inSubtree := w.inSubtree + {id}), tr)
  {
    hide Sound, Explained, Confines, Evolves, Reaches, Answers, Accounted, Heard, NothingLost, NewAccounted, Counted;
    LedgersIgnoreCounters(wk, s.nodes, w, tr, w.(byName := w.byName[k := id], inSubtree := w.inSubtree + {id}), tr);
  }

  // A node joins the frontier.
  lemma InvQueues(wk: Walker, opts: Options, s: State, w: Walk, tr: Trace, id: string)
    requires Inv(wk, opts, s, w, tr) && id in s.nodes && Reaches(s.edges, DEPENDS, tr.root, id)
    ensures Inv(wk, opts, s, w.(frontier := w.frontier + [id]), tr.(queued := tr.queued + {id}))
  {
    hide Sound, Explained, Confines, Evolves, Reaches, NamesAnswer, WasTold, NothingLost, Counted, Settled;
  }

  // The frontier becomes the batch to read; what it already settled is dropped.
  lemma InvBatches(wk: Walker, opts: Options, s: State, w: Walk, tr: Trace, batch: set<string>)
    requires Inv(wk, opts, s, w, tr) && tr.batch == {}
    requires forall x :: x in w.frontier ==> x in w.expanded || s.nodes[x].ecosystem !in wk.declarers || x in batch
    requires forall x :: x in batch ==> x in w.frontier
    ensures Inv(wk, opts, s, w.(frontier := [], expanded := w.expanded + batch), tr.(batch := batch))
  {
    hide Sound, Explained, Confines, Evolves, Reaches, NamesAnswer, WasTold, NothingLost, NewAccounted, Counted;
  }

  // A node of the batch is settled: it was read, or is marked.
  lemma InvSettles(wk: Walker, opts: Options, s: State, w: Walk, tr: Trace, x: string, read: set<string>)
    requires Inv(wk, opts, s, w, tr)
    requires (read == tr.read + {x} && WasTold(wk, s.nodes, x, tr.told)) ||
             (read == tr.read && x in s.nodes && Marked(s.nodes[x]))
    ensures Inv(wk, opts, s, w, tr.(read := read, batch := tr.batch - {x}))
  {
    hide Sound, Explained, Confines, Evolves, Reaches, NamesAnswer, NothingLost, NewAccounted, Counted, WalkContained,
         AnswerHeard;
    assert x in s.nodes;
  }

  // A declaration is heard: what the node owes for it is already drawn, or noted.
  lemma InvHears(wk: Walker, opts: Options, s: State, w: Walk, tr: Trace, x: string, d: Declaration)
    requires Inv(wk, opts, s, w, tr) && x in s.nodes
    requires forall k :: Owes(wk, opts, s.nodes[x].ecosystem, d, k) ==> Linked(wk, s, x, k) || Awaits(tr.owed, x, k)
    ensures Inv(wk, opts, s, w, tr.(told := tr.told + {(x, d)}))
  {
    hide Sound, Explained, Confines, Evolves, Reaches, NamesAnswer, NewAccounted, Counted, WalkContained, Settled,
         Linked, Awaits, Owes;
    var told := tr.told + {(x, d)};
    forall y | y in tr.read
      ensures WasTold(wk, s.nodes, y, told)
    {
      HearingMoreIsFine(wk, s.nodes, y, tr.told, told);
    }
  }

  lemma HearingMoreIsFine(wk: Walker, nodes: map<string, Node>, x: string, told: Told, more: Told)
    requires WasTold(wk, nodes, x, told) && told <= more
    ensures WasTold(wk, nodes, x, more)
  {
    var batch :| AnswerHeard(wk.declarers[nodes[x].ecosystem], batch, CoordOf(nodes[x]), x, told);
    assert AnswerHeard(wk.declarers[nodes[x].ecosystem], batch, CoordOf(nodes[x]), x, more);
  }

  // More edges are noted as owed.
  lemma InvOwes(wk: Walker, opts: Options, s: State, w: Walk, tr: Trace, owed: Owed)
    requires Inv(wk, opts, s, w, tr)
    requires forall x, k :: Awaits(tr.owed, x, k) ==> Awaits(owed, x, k)
    ensures Inv(wk, opts, s, w, tr.(owed := owed))
  {
    hide Sound, Explained, Confines, Evolves, Reaches, NamesAnswer, NewAccounted, Counted, WalkContained, Accounted,
         Heard, Linked, Awaits, Owes;
    LedgersIgnoreCounters(wk, s.nodes, w, tr, w, tr.(owed := owed));
  }

  // The edges owed to one package are drawn, or the package cannot be identified at all.
  lemma InvPays(wk: Walker, opts: Options, s: State, w: Walk, tr: Trace, k: NameKey)
    requires Inv(wk, opts, s, w, tr) && k.ecosystem in wk.declarers
    requires !AlwaysIdentifies(wk.declarers[k.ecosystem], k.canonical) || forall x :: Awaits(tr.owed, x, k) ==>
               Linked(wk, s, x, k)
    ensures Inv(wk, opts, s, w, tr.(owed := tr.owed - {k}))
  {
    hide Sound, Explained, Confines, Evolves, Reaches, NamesAnswer, NewAccounted, Counted, WalkContained, Accounted,
         Heard, Linked, AlwaysIdentifies;
    LedgersIgnoreCounters(wk, s.nodes, w, tr, w, tr.(owed := tr.owed - {k}));
  }

  // What the layer heard is bookkeeping the invariant does not read.
  lemma InvLayer(wk: Walker, opts: Options, s: State, w: Walk, tr: Trace, layer: Layer, front: set<string>)
    requires Inv(wk, opts, s, w, tr)
    ensures Inv(wk, opts, s, w, tr.(layer := layer, front := front))
  {
    hide Sound, Explained, Confines, Evolves, NamesAnswer, NothingLost, WalkContained, NewAccounted, Counted, Settled,
         WasTold;
  }

  // A resolver closes nodes: the walk will not read them.
  lemma InvCloses(wk: Walker, opts: Options, s: State, w: Walk, tr: Trace, ids: set<string>)
    requires Inv(wk, opts, s, w, tr)
    ensures Inv(wk, opts, s, w.(expanded := w.expanded + ids), tr.(closed := tr.closed + ids))
  {
    hide Sound, Explained, Confines, Evolves, Reaches, NamesAnswer, WasTold, NothingLost, Counted;
  }

  // Reachable nodes join the subtree.
  lemma InvSubtree(wk: Walker, opts: Options, s: State, w: Walk, tr: Trace, ids: set<string>)
    requires Inv(wk, opts, s, w, tr) && Contained(s.edges, tr.root, ids)
    ensures Inv(wk, opts, s, w.(inSubtree := w.inSubtree + ids), tr)
  {
    hide Sound, Explained, Confines, Evolves, Reaches, NamesAnswer, Accounted, Heard, NothingLost, NewAccounted,
         Counted;
    LedgersIgnoreCounters(wk, s.nodes, w, tr, w.(inSubtree := w.inSubtree + ids), tr);
  }

  // A new node is dealt with: it was marked, or has a version and is known.
  lemma InvMarked(wk: Walker, opts: Options, s: State, w: Walk, tr: Trace, id: string)
    requires Inv(wk, opts, s, w, tr)
    requires id in tr.pending && id in s.nodes ==> Marked(s.nodes[id]) || (s.nodes[id].version != "" && id in Known(tr))
    ensures Inv(wk, opts, s, w, tr.(pending := tr.pending - {id}))
  {
    hide Sound, Explained, Confines, Evolves, NamesAnswer, NothingLost, Counted, Accounted, Heard, WalkContained;
    LedgersIgnoreCounters(wk, s.nodes, w, tr, w, tr.(pending := tr.pending - {id}));
  }

  // A resolver's node is known as such.
  lemma InvMerges(wk: Walker, opts: Options, s: State, w: Walk, tr: Trace, id: string)
    requires Inv(wk, opts, s, w, tr) && id in s.nodes && s.nodes[id].version != ""
    ensures Inv(wk, opts, s, w, tr.(merged := tr.merged + {id}, pending := tr.pending - {id}))
  {
    hide Sound, Explained, Confines, Evolves, NamesAnswer, NothingLost, Counted, Accounted, Heard, WalkContained;
    LedgersIgnoreCounters(wk, s.nodes, w, tr, w, tr.(merged := tr.merged + {id}, pending := tr.pending - {id}));
  }

  // A node the graph lacks was expanded only if a resolver closed it.
  lemma ExpandedUnseen(wk: Walker, opts: Options, s: State, w: Walk, tr: Trace, id: string)
    requires Inv(wk, opts, s, w, tr) && id in w.expanded && id !in s.nodes
    ensures id in tr.closed
  {
    hide Sound, Explained, Confines, Evolves, NamesAnswer, NothingLost, Counted, NewAccounted, Heard, WalkContained;
  }

  // Counters that the invariant does not read may change freely.
  lemma InvCounters(wk: Walker, opts: Options, s: State, w: Walk, tr: Trace, res: Result)
    requires Inv(wk, opts, s, w, tr)
    requires res == w.res.(linked := res.linked, frontier := res.frontier, unread := res.unread,
                           depthReached := res.depthReached)
    ensures Inv(wk, opts, s, w.(res := res), tr)
  {
    hide Sound, Explained, Confines, Evolves, NamesAnswer, NothingLost, Accounted, Heard, WalkContained, NewAccounted;
    WalkContainedIgnoresRes(s.edges, tr.root, w, res);
    ExplainedIgnoresRes(wk, opts, tr.before.nodes, s.nodes, w.res, res, tr.cut);
    LedgersIgnoreCounters(wk, s.nodes, w, tr, w.(res := res), tr);
  }

  // The depth bound cuts off a node, which may then be marked.
  lemma InvCuts(wk: Walker, opts: Options, s: State, w: Walk, tr: Trace, id: string)
    requires Inv(wk, opts, s, w, tr)
    ensures Inv(wk, opts, s, w.(res := w.res.(depthTruncated := w.res.depthTruncated + 1)), tr.(cut := tr.cut + {id}))
  {
    hide Sound, Confines, Evolves, NamesAnswer, NothingLost, Accounted, Heard, WalkContained, NewAccounted, Excused;
    var res := w.res.(depthTruncated := w.res.depthTruncated + 1);
    WalkContainedIgnoresRes(s.edges, tr.root, w, res);
    LedgersIgnoreCounters(wk, s.nodes, w, tr, w.(res := res), tr.(cut := tr.cut + {id}));
  }

  lemma WalkContainedIgnoresRes(es: seq<Edge>, root: string, w: Walk, res: Result)
    requires WalkContained(es, root, w)
    ensures WalkContained(es, root, w.(res := res))
  {
    hide Reaches;
  }
}
