// The first half of a layer: reading.
//
// The frontier is sorted by ecosystem and each ecosystem is asked once about all its nodes.  What they
// declare is linked to packages of the subtree, or gathered per package: everything that the layer's
// nodes ask of one package is known before its version is chosen.  The loops are nested three deep, so
// their state is bundled (Reading, Midway, LayerRead) and each loop has a lemma to start, to step and to
// end it.
module ExpandLayers {
  import opened Prelude
  import opened Findings
  import opened GraphTypes
  import opened Sorting
  import opened Reach
  import opened GraphState
  import opened GraphStore
  import opened Presume
  import opened ExpandTypes
  import opened ExpandRegion
  import opened ExpandLedger
  import opened ExpandSteps
  import opened ExpandSeed

  // One declared package awaiting creation, with what its parents in this layer asked of it; depth is
  // one past its deepest parent.
  datatype Pending = Pending(constraints: seq<string>, parents: seq<string>, discoveredBy: string, depth: int)

  type Queue = map<NameKey, Pending>

  function ParentsOf(queue: Queue): Owed {
    map k | k in queue :: queue[k].parents
  }

  // The queue's packages can be asked about, their parents are in the subtree, and each is one below
  // the deepest of them.
  ghost predicate QueueOk(wk: Walker, s: State, root: string, queue: Queue) {
    forall k :: k in queue ==>
        k.ecosystem in wk.declarers && queue[k].parents != [] && InSubtree(s, root, queue[k].parents)
                               && BelowParents(s, queue[k])
  }

  ghost predicate BelowParents(s: State, p: Pending) {
    && (forall x :: x in p.parents ==> x in s.nodes && s.nodes[x].depth < p.depth)
    && (p.depth <= 0 || exists x :: x in p.parents && x in s.nodes && s.nodes[x].depth + 1 == p.depth)
    && IsFoundBy(s, p)
  }

  // The coordinate recorded is that of one of those who asked.
  ghost predicate IsFoundBy(s: State, p: Pending) {
    exists x :: x in p.parents && x in s.nodes && p.discoveredBy == SourceText(s.nodes[x])
  }

  function SourceText(n: Node): string {
    n.ecosystem + "|" + n.name + "|" + n.version
  }

  lemma BelowParentsStays(s: State, t: State, root: string, p: Pending)
    requires Progress(s, t, root) && BelowParents(s, p)
    ensures BelowParents(t, p)
  {
    hide Progress;
    forall x | x in p.parents
      ensures x in t.nodes && t.nodes[x].depth == s.nodes[x].depth && SourceText(t.nodes[x]) == SourceText(s.nodes[x])
    {
      ProgressKeeps(s, t, root, x);
    }
    hide SourceText;
    assert IsFoundBy(s, p);
  }

  lemma QueueOkStays(wk: Walker, s: State, t: State, root: string, queue: Queue)
    requires QueueOk(wk, s, root, queue) && Progress(s, t, root)
    ensures QueueOk(wk, t, root, queue)
  {
    hide Progress, InSubtree, BelowParents;
    forall k | k in queue
      ensures InSubtree(t, root, queue[k].parents) && BelowParents(t, queue[k])
    {
      BelowParentsStays(s, t, root, queue[k]);
      InSubtreeStays(s, t, root, queue[k].parents);
    }
  }

  // ----- Phase 1: reading -----

  // Notes that x asked for k.
  function Ask(queue: Queue, k: NameKey, x: string, constraint: string, depth: int, discoveredBy: string): Queue {
    var p := if k in queue then queue[k] else Pending([], [], discoveredBy, 0);
    queue[k := Pending(if constraint != "" then p.constraints + [constraint]
        else p.constraints, p.parents + [x], p.discoveredBy,
                       if depth > p.depth then depth else p.depth)]
  }

  lemma AskNotes(wk: Walker, s: State, root: string, queue: Queue, k: NameKey, x: string, constraint: string,
                 depth: int, source: string)
    requires QueueOk(wk, s, root, queue) && k.ecosystem in wk.declarers
    requires x in s.nodes && Reaches(s.edges, DEPENDS, root, x) && depth == s.nodes[x].depth + 1
    requires source == SourceText(s.nodes[x])
    ensures QueueOk(wk, s, root, Ask(queue, k, x, constraint, depth, source))
    ensures Awaits(ParentsOf(Ask(queue, k, x, constraint, depth, source)), x, k)
    ensures forall y, l :: Awaits(ParentsOf(queue), y, l) ==>
              Awaits(ParentsOf(Ask(queue, k, x, constraint, depth, source)), y, l)
  {
    hide Reaches, InSubtree, BelowParents;
    AskHolds(queue, k, x, constraint, depth, source);
    AskBelow(s, queue, k, x, constraint, depth, source);
    AskInside(s, root, queue, k, x, constraint, depth, source);
    hide Ask;
  }

  lemma AskInside(s: State, root: string, queue: Queue, k: NameKey, x: string, constraint: string, depth: int,
                  source: string)
    requires k in queue ==> InSubtree(s, root, queue[k].parents)
    requires x in s.nodes && Reaches(s.edges, DEPENDS, root, x)
    ensures InSubtree(s, root, Ask(queue, k, x, constraint, depth, source)[k].parents)
  {
    hide Reaches;
  }

  lemma AskBelow(s: State, queue: Queue, k: NameKey, x: string, constraint: string, depth: int, source: string)
    requires k in queue ==> BelowParents(s, queue[k])
    requires x in s.nodes && depth == s.nodes[x].depth + 1 && source == SourceText(s.nodes[x])
    ensures BelowParents(s, Ask(queue, k, x, constraint, depth, source)[k])
  {
    var asked := Ask(queue, k, x, constraint, depth, source)[k];
    assert forall y :: y in asked.parents <==> y == x || (k in queue && y in queue[k].parents);
    if k in queue && asked.depth == queue[k].depth > 0 {
      var y :| y in queue[k].parents && y in s.nodes && s.nodes[y].depth + 1 == asked.depth;
      assert y in asked.parents;
    }
    hide SourceText;
    if k in queue {
      var y :| y in queue[k].parents && y in s.nodes && queue[k].discoveredBy == SourceText(s.nodes[y]);
      assert y in asked.parents;
    } else {
      assert x in asked.parents;
    }
  }

  // A node of the layer asked for k, with this constraint.
  ghost predicate Asked(wk: Walker, opts: Options, layer: Layer, k: NameKey, x: string, constraint: string) {
    exists e, d :: (x, e, d) in layer && d.constraint == constraint && Names(wk, opts, e, d, k)
  }

  // The queue holds exactly what the layer asked for and the subtree lacks: every parent, and every
  // constraint each of them set.
  ghost predicate Accumulated(wk: Walker, opts: Options, layer: Layer, queue: Queue, byName: map<NameKey, string>) {
    && (forall k, x, c :: Asked(wk, opts, layer, k, x, c) ==>
          k in byName || (k in queue && x in queue[k].parents && (c != "" ==> c in queue[k].constraints)))
    && (forall k :: k in queue ==> k !in byName)
    && (forall k, x :: k in queue && x in queue[k].parents ==> exists c :: Asked(wk, opts, layer, k, x, c))
    && (forall k, c :: k in queue && c in queue[k].constraints ==>
       c != "" && exists x :: Asked(wk, opts, layer, k, x, c))
  }

  // A declaration that adds nothing to the queue is heard.
  lemma AccumulatesNothing(wk: Walker, opts: Options, layer: Layer, queue: Queue, byName: map<NameKey, string>,
                           x: string, e: string, d: Declaration)
    requires Accumulated(wk, opts, layer, queue, byName)
    requires forall k :: Names(wk, opts, e, d, k) ==> k in byName
    ensures Accumulated(wk, opts, layer + {(x, e, d)}, queue, byName)
  {
    hide Names;
    AskedGrows(wk, opts, layer, x, e, d);
    hide Asked;
  }

  lemma AskedGrows(wk: Walker, opts: Options, layer: Layer, x: string, e: string, d: Declaration)
    ensures forall k, y, c :: Asked(wk, opts, layer + {(x, e, d)}, k, y, c) <==>
              Asked(wk, opts, layer, k, y, c) || (y == x && c == d.constraint && Names(wk, opts, e, d, k))
  {
    hide Names;
    var more := layer + {(x, e, d)};
    forall k, y, c | Asked(wk, opts, layer, k, y, c)
      ensures Asked(wk, opts, more, k, y, c)
    {
      var f, g :| (y, f, g) in layer && g.constraint == c && Names(wk, opts, f, g, k);
      assert (y, f, g) in more;
    }
    forall k | Names(wk, opts, e, d, k)
      ensures Asked(wk, opts, more, k, x, d.constraint)
    {
      assert (x, e, d) in more;
    }
  }

  lemma AccumulatesAsked(wk: Walker, opts: Options, layer: Layer, queue: Queue, byName: map<NameKey, string>,
                         x: string, e: string,
                         d: Declaration, k: NameKey, depth: int, source: string)
    requires Accumulated(wk, opts, layer, queue, byName)
    requires Names(wk, opts, e, d, k) && k !in byName
    requires forall l :: Names(wk, opts, e, d, l) ==> l == k
    ensures Accumulated(wk, opts, layer + {(x, e, d)}, Ask(queue, k, x, d.constraint, depth, source), byName)
  {
    hide Names;
    AskedGrows(wk, opts, layer, x, e, d);
    hide Asked;
    AskHolds(queue, k, x, d.constraint, depth, source);
    hide Ask;
    assert Asked(wk, opts, layer + {(x, e, d)}, k, x, d.constraint);
  }

  lemma NothingAsked(wk: Walker, opts: Options, byName: map<NameKey, string>)
    ensures Accumulated(wk, opts, {}, map[], byName)
  {
  }

  lemma AskHolds(queue: Queue, k: NameKey, x: string, constraint: string, depth: int, source: string)
    ensures var asked := Ask(queue, k, x, constraint, depth, source);
            && asked.Keys == queue.Keys + {k}
            && (forall l :: l in queue && l != k ==> asked[l] == queue[l])
            && (forall y :: y in asked[k].parents <==> y == x || (k in queue && y in queue[k].parents))
            && (forall c :: c in asked[k].constraints <==>
               (c == constraint && c != "") || (k in queue && c in queue[k].constraints))
  {
  }

  // Everything x declared is in the layer.
  ghost predicate HeardIn(wk: Walker, nodes: map<string, Node>, x: string, layer: Layer) {
    && x in nodes && nodes[x].ecosystem in wk.declarers
    && exists batch :: AnswerIn(wk.declarers[nodes[x].ecosystem], batch, CoordOf(nodes[x]), x, nodes[x].ecosystem,
       layer)
  }

  ghost predicate AnswerIn(d: Declarer, batch: seq<Coord>, c: Coord, x: string, e: string, layer: Layer) {
    && c in batch && d.declared(batch).Some? && c in d.declared(batch).value
    && forall i :: 0 <= i < |d.declared(batch).value[c]| ==> (x, e, d.declared(batch).value[c][i]) in layer
  }

  // What the trace calls the layer is what was heard: all that was told between tr0 and tr, and all
  // that the nodes read between them declared.
  ghost predicate HeardSince(wk: Walker, nodes: map<string, Node>, tr0: Trace, tr: Trace) {
    && tr0.layer <= tr.layer
    && (forall p :: p in tr.told && p !in tr0.told ==> p.0 in nodes && (p.0, nodes[p.0].ecosystem, p.1) in tr.layer)
    && (forall h :: h in tr.layer && h !in tr0.layer ==>
       (h.0, h.2) in tr.told && h.0 in nodes && nodes[h.0].ecosystem == h.1)
    && (forall x :: x in tr.read && x !in tr0.read ==> HeardIn(wk, nodes, x, tr.layer))
  }

  ghost predicate Gathers(wk: Walker, s0: State, s: State, tr0: Trace, tr: Trace) {
    s.nodes.Keys == s0.nodes.Keys && HeardSince(wk, s.nodes, tr0, tr)
  }

  lemma HeardSinceStays(wk: Walker, s: State, t: State, root: string, tr0: Trace, tr: Trace, ur: Trace)
    requires HeardSince(wk, s.nodes, tr0, tr) && Progress(s, t, root)
    requires ur.told == tr.told && ur.read == tr.read && ur.layer == tr.layer
    ensures HeardSince(wk, t.nodes, tr0, ur)
  {
    hide Progress, HeardIn;
    forall x | x in s.nodes
      ensures x in t.nodes && t.nodes[x].ecosystem == s.nodes[x].ecosystem
    {
      ProgressKeeps(s, t, root, x);
    }
    forall x | x in tr.read && x !in tr0.read
      ensures HeardIn(wk, t.nodes, x, tr.layer)
    {
      HeardInStays(wk, s, t, root, x, tr.layer, tr.layer);
    }
  }

  lemma GathersNothing(wk: Walker, s: State, tr: Trace)
    ensures Gathers(wk, s, s, tr, tr)
  {
  }

  lemma HeardInStays(wk: Walker, s: State, t: State, root: string, x: string, layer: Layer, more: Layer)
    requires HeardIn(wk, s.nodes, x, layer) && Progress(s, t, root) && layer <= more
    ensures HeardIn(wk, t.nodes, x, more)
  {
    hide Progress, AnswerIn;
    ProgressKeeps(s, t, root, x);
    var e, c := s.nodes[x].ecosystem, CoordOf(s.nodes[x]);
    var batch :| AnswerIn(wk.declarers[e], batch, c, x, e, layer);
    AnswerInStays(wk.declarers[e], batch, c, x, e, layer, more);
    assert CoordOf(t.nodes[x]) == c;
  }

  lemma AnswerInStays(d: Declarer, batch: seq<Coord>, c: Coord, x: string, e: string, layer: Layer, more: Layer)
    requires AnswerIn(d, batch, c, x, e, layer) && layer <= more
    ensures AnswerIn(d, batch, c, x, e, more)
  {
  }

  lemma GathersTransitive(wk: Walker, s0: State, s: State, t: State, root: string, a: Trace, b: Trace, c: Trace)
    requires Gathers(wk, s0, s, a, b) && Gathers(wk, s, t, b, c) && Progress(s, t, root)
    requires a.told <= b.told <= c.told
    ensures Gathers(wk, s0, t, a, c)
  {
    hide Progress, HeardIn;
    forall x | x in s.nodes
      ensures x in t.nodes && t.nodes[x].ecosystem == s.nodes[x].ecosystem
    {
      ProgressKeeps(s, t, root, x);
    }
    forall x | x in c.read && x !in a.read
      ensures HeardIn(wk, t.nodes, x, c.layer)
    {
      if x in b.read {
        HeardInStays(wk, s, t, root, x, b.layer, c.layer);
      }
    }
  }

  // One declaration more.
  lemma GathersOne(wk: Walker, s: State, t: State, tr: Trace, ur: Trace, x: string, d: Declaration)
    requires x in s.nodes && t.nodes == s.nodes
    requires ur == tr.(told := tr.told + {(x, d)}, owed := ur.owed, layer := tr.layer + {(x, s.nodes[x].ecosystem, d)})
    ensures Gathers(wk, s, t, tr, ur)
  {
    hide HeardIn;
  }

  // x is read when all it declared has been heard.
  lemma GathersRead(wk: Walker, s0: State, s: State, tr0: Trace, tr: Trace, x: string)
    requires Gathers(wk, s0, s, tr0, tr) && HeardIn(wk, s.nodes, x, tr.layer)
    ensures Gathers(wk, s0, s, tr0, tr.(read := tr.read + {x}, batch := tr.batch - {x}))
  {
    hide HeardIn;
  }

  // The state shared by the readers of one layer.
  ghost predicate Reading(wk: Walker, opts: Options, s: State, w: Walk, queue: Queue, order: seq<NameKey>, tr: Trace) {
    && Inv(wk, opts, s, w, tr) && tr.pending == {}
    && QueueOk(wk, s, tr.root, queue) && tr.owed == ParentsOf(queue)
    && Accumulated(wk, opts, tr.layer, queue, w.byName)
    && (forall k :: k in order <==> k in queue) && NoDuplicates(order)
    && AllMayBeAsked(wk, opts, tr.before, tr.root, queue)
  }

  ghost predicate AllMayBeAsked(wk: Walker, opts: Options, before: State, root: string, queue: Queue) {
    forall k :: k in queue ==> MayAsk(wk, opts, before, root, k)
  }

  lemma AskedOneMore(wk: Walker, opts: Options, before: State, root: string, queue: Queue, more: Queue, k: NameKey)
    requires AllMayBeAsked(wk, opts, before, root, queue) && more.Keys == queue.Keys + {k}
    requires MayAsk(wk, opts, before, root, k)
    ensures AllMayBeAsked(wk, opts, before, root, more)
  {
    hide MayAsk;
  }

  lemma OrderedOnce(order: seq<NameKey>, queue: Queue, k: NameKey)
    requires NoDuplicates(order) && (forall l :: l in order <==> l in queue)
    ensures NoDuplicates(if k in queue then order else order + [k])
  {
  }

  // What a node of the subtree declares may be asked for.
  lemma HeardMayBeAsked(wk: Walker, opts: Options, s: State, w: Walk, tr: Trace, x: string, d: Declaration, k: NameKey)
    requires Inv(wk, opts, s, w, tr) && x in s.nodes && Reaches(s.edges, DEPENDS, tr.root, x)
    requires Declares(wk, CoordOf(s.nodes[x]), d) && Names(wk, opts, s.nodes[x].ecosystem, d, k)
    ensures MayAsk(wk, opts, tr.before, tr.root, k)
  {
    hide Sound, Explained, Evolves, WalkContained, NamesAnswer, Accounted, Heard, NothingLost, NewAccounted, Counted,
         Confines, Declares, Names, Reaches, MayAsk;
    DeclaredMayAsk(wk, opts, tr.before, tr.root, s, x, d, k);
  }

  // One declaration of x: linked to a node of that name in the subtree, or put on the queue.
  method ReadOne(wk: Walker, opts: Options, g: Graph, x: string, decl: Declaration, w0: Walk, queue0: Queue,
                 order0: seq<NameKey>, ghost tr0: Trace)
    returns (w: Walk, queue: Queue, order: seq<NameKey>, ghost tr: Trace)
    requires Reading(wk, opts, g.View(), w0, queue0, order0, tr0)
    requires x in g.nodes && g.nodes[x].ecosystem in wk.declarers && Reaches(g.edges, DEPENDS, tr0.root, x)
    requires Declares(wk, CoordOf(g.nodes[x]), decl)
    modifies g
    ensures Reading(wk, opts, g.View(), w, queue, order, tr) && Progress(old(g.View()), g.View(), tr0.root)
    ensures tr == tr0.(told := tr0.told + {(x, decl)}, owed := tr.owed, layer := tr0.layer +
            {(x, g.nodes[x].ecosystem, decl)})
    ensures w == w0.(res := w0.res.(linked := w.res.linked)) && g.nodes == old(g.nodes)
    ensures Reaches(g.edges, DEPENDS, tr0.root, x)
  {
    hide Inv, Progress, Reaches, Linked, Answers, AlwaysIdentifies, QueueOk, Ask, Awaits, ParentsOf, Accumulated,
         AllMayBeAsked, MayAsk, Declares, CoordOf;
    ghost var s := g.View();
    w, queue, order, tr := w0, queue0, order0, tr0;
    InvMembers(wk, opts, s, w, tr);
    ProgressSelf(s, tr.root);
    var n := g.nodes[x];
    var d := wk.declarers[n.ecosystem];
    var canonical := d.identify(decl.name, "").1;
    ghost var layer := tr.layer + {(x, n.ecosystem, decl)};
    InvLayer(wk, opts, s, w, tr, layer, tr.front);
    tr := tr.(layer := layer);
    if (decl.optional && !opts.includeOptional) || canonical == "" {
      AccumulatesNothing(wk, opts, tr0.layer, queue, w.byName, x, n.ecosystem, decl);
      HearsNothingOwed(wk, opts, s, w, tr, x, decl);
      tr := tr.(told := tr.told + {(x, decl)}, owed := tr.owed);
      return;
    }
    var k := NameKey(n.ecosystem, canonical);
    if k in w.byName {
      AccumulatesNothing(wk, opts, tr0.layer, queue, w.byName, x, n.ecosystem, decl);
      Link(wk, opts, g, x, w.byName[k], w, tr);
      LinkedThrough(wk, s, g.View(), tr.root, x, k, w.byName[k]);
      HearsKnown(wk, opts, g.View(), w, tr, x, decl);
      tr := tr.(told := tr.told + {(x, decl)}, owed := tr.owed);
      InvCounters(wk, opts, g.View(), w, tr, w.res.(linked := w.res.linked + 1));
      w := w.(res := w.res.(linked := w.res.linked + 1));
      QueueOkStays(wk, s, g.View(), tr.root, queue);
      return;
    }
    var source := n.ecosystem + "|" + n.name + "|" + n.version;
    AskNotes(wk, s, tr.root, queue, k, x, decl.constraint, n.depth + 1, source);
    AskKeys(queue, k, x, decl.constraint, n.depth + 1, source);
    AccumulatesAsked(wk, opts, tr0.layer, queue, w.byName, x, n.ecosystem, decl, k, n.depth + 1, source);
    HeardMayBeAsked(wk, opts, s, w, tr, x, decl, k);
    AskedOneMore(wk, opts, tr.before, tr.root, queue, Ask(queue, k, x, decl.constraint, n.depth + 1, source), k);
    OrderedOnce(order, queue, k);
    hide NoDuplicates;
    order := if k in queue then order else order + [k];
    queue := Ask(queue, k, x, decl.constraint, n.depth + 1, source);
    InvOwes(wk, opts, s, w, tr, ParentsOf(queue));
    tr := tr.(owed := ParentsOf(queue));
    HearsKnown(wk, opts, s, w, tr, x, decl);
    tr := tr.(told := tr.told + {(x, decl)}, owed := tr.owed);
  }

  lemma AskKeys(queue: Queue, k: NameKey, x: string, constraint: string, depth: int, source: string)
    ensures Ask(queue, k, x, constraint, depth, source).Keys == queue.Keys + {k}
  {
  }

  // Everything a node declared.
  method ReadDeclarations(wk: Walker, opts: Options, g: Graph, x: string, decls: seq<Declaration>, w0: Walk,
                          queue0: Queue,
                          order0: seq<NameKey>, ghost tr0: Trace)
    returns (w: Walk, queue: Queue, order: seq<NameKey>, ghost tr: Trace)
    requires Reading(wk, opts, g.View(), w0, queue0, order0, tr0)
    requires x in g.nodes && g.nodes[x].ecosystem in wk.declarers && Reaches(g.edges, DEPENDS, tr0.root, x)
    requires forall i :: 0 <= i < |decls| ==> Declares(wk, CoordOf(g.nodes[x]), decls[i])
    modifies g
    ensures Reading(wk, opts, g.View(), w, queue, order, tr) && Progress(old(g.View()), g.View(), tr0.root)
    ensures tr == tr0.(told := tr.told, owed := tr.owed, layer := tr.layer) && tr0.told <= tr.told
    ensures forall i :: 0 <= i < |decls| ==> (x, decls[i]) in tr.told && (x, g.nodes[x].ecosystem, decls[i]) in tr.layer
    ensures w == w0.(res := w0.res.(linked := w.res.linked)) && g.nodes == old(g.nodes)
    ensures Gathers(wk, old(g.View()), g.View(), tr0, tr)
  {
    hide Reading, Progress, Reaches, Gathers, Declares, CoordOf;
    ghost var s0 := g.View();
    w, queue, order, tr := w0, queue0, order0, tr0;
    GathersNothing(wk, s0, tr);
    ProgressSelf(s0, tr.root);
    for i := 0 to |decls|
      invariant Reading(wk, opts, g.View(), w, queue, order, tr) && Progress(s0, g.View(), tr0.root)
      invariant g.nodes == s0.nodes && Reaches(g.edges, DEPENDS, tr0.root, x)
      invariant tr == tr0.(told := tr.told, owed := tr.owed, layer := tr.layer) && tr0.told <= tr.told
      invariant forall j :: 0 <= j < i ==> (x, decls[j]) in tr.told && (x, s0.nodes[x].ecosystem, decls[j]) in tr.layer
      invariant w == w0.(res := w0.res.(linked := w.res.linked))
      invariant Gathers(wk, s0, g.View(), tr0, tr)
    {
      ghost var s, tr1 := g.View(), tr;
      w, queue, order, tr := ReadOne(wk, opts, g, x, decls[i], w, queue, order, tr);
      GathersOne(wk, s, g.View(), tr1, tr, x, decls[i]);
      GathersTransitive(wk, s0, s, g.View(), tr0.root, tr0, tr1, tr);
      ProgressTransitive(s0, s, g.View(), tr0.root);
    }
  }

  // A node whose declarations were not read is marked and counted.
  method NotRead(wk: Walker, opts: Options, g: Graph, x: string, w0: Walk, ghost queue: Queue,
                 ghost order: seq<NameKey>, ghost tr0: Trace)
    returns (w: Walk, ghost tr: Trace)
    requires Reading(wk, opts, g.View(), w0, queue, order, tr0) && x in g.nodes && NoAnswer(wk, g.nodes[x])
    modifies g`nodes
    ensures Reading(wk, opts, g.View(), w, queue, order, tr) && Progress(old(g.View()), g.View(), tr0.root)
    ensures tr == tr0.(batch := tr0.batch - {x})
    ensures w == w0.(res := w0.res.(frontier := w0.res.frontier + 1, unread := w0.res.unread + 1))
    ensures Marked(g.nodes[x]) && g.nodes.Keys == old(g.nodes).Keys
  {
    hide Inv, Progress, QueueOk, Marked, NoAnswer;
    ghost var s := g.View();
    w, tr := w0, tr0;
    MarkFrontier(wk, opts, g, x, w, tr);
    InvSettles(wk, opts, g.View(), w, tr, x, tr.read);
    tr := tr.(read := tr.read, batch := tr.batch - {x});
    var res := w.res.(frontier := w.res.frontier + 1, unread := w.res.unread + 1);
    InvCounters(wk, opts, g.View(), w, tr, res);
    w := w.(res := res);
    QueueOkStays(wk, s, g.View(), tr0.root, queue);
  }

  // A node the ecosystem answered for is read: all its declarations are heard.
  method ReadNode(wk: Walker, opts: Options, g: Graph, x: string, ghost batch: seq<Coord>, decls: seq<Declaration>,
                  w0: Walk, queue0: Queue,
                  order0: seq<NameKey>, ghost tr0: Trace)
    returns (w: Walk, queue: Queue, order: seq<NameKey>, ghost tr: Trace)
    requires Reading(wk, opts, g.View(), w0, queue0, order0, tr0)
    requires x in g.nodes && g.nodes[x].ecosystem in wk.declarers && Reaches(g.edges, DEPENDS, tr0.root, x)
    requires var answer := wk.declarers[g.nodes[x].ecosystem].declared(batch);
             CoordOf(g.nodes[x]) in batch && answer.Some? && CoordOf(g.nodes[x]) in answer.value &&
                 answer.value[CoordOf(g.nodes[x])] == decls
    modifies g
    ensures Reading(wk, opts, g.View(), w, queue, order, tr) && Progress(old(g.View()), g.View(), tr0.root)
    ensures tr == tr0.(told := tr.told, owed := tr.owed, layer := tr.layer, read := tr0.read + {x},
            batch := tr0.batch - {x}) && tr0.told <= tr.told
    ensures w == w0.(res := w0.res.(linked := w.res.linked)) && g.nodes == old(g.nodes)
    ensures Gathers(wk, old(g.View()), g.View(), tr0, tr)
  {
    hide Reading, Progress, Reaches, Gathers;
    ghost var s0 := g.View();
    forall i | 0 <= i < |decls|
      ensures Declares(wk, CoordOf(g.nodes[x]), decls[i])
    {
      assert DeclaredIn(wk.declarers[g.nodes[x].ecosystem], batch, CoordOf(g.nodes[x]), decls[i]);
    }
    w, queue, order, tr := ReadDeclarations(wk, opts, g, x, decls, w0, queue0, order0, tr0);
    assert AnswerHeard(wk.declarers[g.nodes[x].ecosystem], batch, CoordOf(g.nodes[x]), x, tr.told);
    assert AnswerIn(wk.declarers[g.nodes[x].ecosystem], batch, CoordOf(g.nodes[x]), x, g.nodes[x].ecosystem, tr.layer);
    ReadingSettles(wk, opts, g.View(), w, queue, order, tr, x);
    GathersRead(wk, s0, g.View(), tr0, tr, x);
    tr := tr.(read := tr.read + {x}, batch := tr.batch - {x});
  }

  lemma ReadingSettles(wk: Walker, opts: Options, s: State, w: Walk, queue: Queue, order: seq<NameKey>, tr: Trace,
                       x: string)
    requires Reading(wk, opts, s, w, queue, order, tr) && WasTold(wk, s.nodes, x, tr.told)
    ensures Reading(wk, opts, s, w, queue, order, tr.(read := tr.read + {x}, batch := tr.batch - {x}))
  {
    hide Inv, QueueOk, WasTold;
    InvSettles(wk, opts, s, w, tr, x, tr.read + {x});
  }

  // The nodes of one ecosystem, all in the subtree.
  ghost predicate GroupOk(s: State, root: string, ecosystem: string, xs: seq<string>) {
    InSubtree(s, root, xs) && forall i :: 0 <= i < |xs| ==> s.nodes[xs[i]].ecosystem == ecosystem
  }

  lemma GroupOkStays(s: State, t: State, root: string, ecosystem: string, xs: seq<string>)
    requires GroupOk(s, root, ecosystem, xs) && Progress(s, t, root)
    ensures GroupOk(t, root, ecosystem, xs)
  {
    InSubtreeStays(s, t, root, xs);
    hide Progress, Reaches;
    forall i | 0 <= i < |xs|
      ensures t.nodes[xs[i]].ecosystem == ecosystem
    {
      ProgressKeeps(s, t, root, xs[i]);
    }
  }

  lemma GroupOkAt(s: State, root: string, ecosystem: string, xs: seq<string>, i: nat)
    requires GroupOk(s, root, ecosystem, xs) && i < |xs|
    ensures xs[i] in s.nodes && s.nodes[xs[i]].ecosystem == ecosystem && Reaches(s.edges, DEPENDS, root, xs[i])
  {
    hide Reaches;
  }

  function CoordsOf(nodes: map<string, Node>, xs: seq<string>): seq<Coord>
    requires forall i :: 0 <= i < |xs| ==> xs[i] in nodes
  {
    seq(|xs|, i requires 0 <= i < |xs| => CoordOf(nodes[xs[i]]))
  }

  ghost function Members(xs: seq<string>): set<string> {
    set x | x in xs
  }

  lemma MembersGrow(b: set<string>, xs: seq<string>, i: nat)
    requires i < |xs|
    ensures b - Members(xs[..i]) - {xs[i]} == b - Members(xs[..i + 1])
  {
    assert xs[..i + 1] == xs[..i] + [xs[i]];
  }

  lemma NoMembers(b: set<string>)
    ensures b - Members([]) == b
  {
  }

  lemma CoordsAt(nodes: map<string, Node>, xs: seq<string>, i: nat)
    requires forall j :: 0 <= j < |xs| ==> xs[j] in nodes
    requires i < |xs|
    ensures CoordOf(nodes[xs[i]]) in CoordsOf(nodes, xs)
  {
    assert CoordsOf(nodes, xs)[i] == CoordOf(nodes[xs[i]]);
  }

  // What reading may change in the trace, apart from the batch.
  ghost predicate ReadOn(tr0: Trace, tr: Trace) {
    && tr == tr0.(told := tr.told, owed := tr.owed, layer := tr.layer, read := tr.read, batch := tr.batch)
    && tr0.told <= tr.told && tr0.read <= tr.read <= tr0.read + tr0.front
  }

  ghost predicate AllIn(front: set<string>, xs: seq<string>) {
    forall x :: x in xs ==> x in front
  }

  lemma ReadOnTells(a: Trace, b: Trace)
    requires ReadOn(a, b)
    ensures a.told <= b.told && b.front == a.front
  {
  }

  lemma ReadOnTransitive(a: Trace, b: Trace, c: Trace)
    requires ReadOn(a, b) && ReadOn(b, c)
    ensures ReadOn(a, c)
  {
  }

  // What reading may change in the walk.
  ghost predicate OnlyCounters(w0: Walk, w: Walk) {
    w == w0.(res := w0.res.(linked := w.res.linked, frontier := w.res.frontier, unread := w.res.unread))
  }

  lemma OnlyCountersTransitive(a: Walk, b: Walk, c: Walk)
    requires OnlyCounters(a, b) && OnlyCounters(b, c)
    ensures OnlyCounters(a, c)
  {
  }

  // Reads a node the batch's answer covers, and marks one it does not: a coordinate absent from the
  // answer was not read, which is not the same as declaring nothing.
  method ReadOrMark(wk: Walker, opts: Options, g: Graph, x: string, coords: seq<Coord>,
                    answer: Option<map<Coord, seq<Declaration>>>,
                    w0: Walk, queue0: Queue, order0: seq<NameKey>, ghost tr0: Trace)
    returns (w: Walk, queue: Queue, order: seq<NameKey>, ghost tr: Trace)
    requires Reading(wk, opts, g.View(), w0, queue0, order0, tr0)
    requires x in g.nodes && g.nodes[x].ecosystem in wk.declarers && Reaches(g.edges, DEPENDS, tr0.root, x)
    requires CoordOf(g.nodes[x]) in coords && answer == wk.declarers[g.nodes[x].ecosystem].declared(coords)
    requires x in tr0.front
    modifies g
    ensures Reading(wk, opts, g.View(), w, queue, order, tr) && Progress(old(g.View()), g.View(), tr0.root)
    ensures ReadOn(tr0, tr) && tr.batch == tr0.batch - {x} && tr.root == tr0.root
    ensures if answer.Some? && CoordOf(old(g.nodes)[x]) in answer.value then x in tr.read else Marked(g.nodes[x])
    ensures OnlyCounters(w0, w) && Gathers(wk, old(g.View()), g.View(), tr0, tr)
  {
    hide Reading, Progress, Reaches, CoordOf, Marked, HeardIn;
    var key := CoordOf(g.nodes[x]);
    if answer.Some? && key in answer.value {
      w, queue, order, tr := ReadNode(wk, opts, g, x, coords, answer.value[key], w0, queue0, order0, tr0);
    } else {
      queue, order := queue0, order0;
      assert Unanswered(wk.declarers[g.nodes[x].ecosystem], coords, key);
      w, tr := NotRead(wk, opts, g, x, w0, queue, order, tr0);
    }
  }

  // The first i nodes of a group have been dealt with.
  ghost predicate Midway(wk: Walker, opts: Options, s0: State, s: State, w0: Walk, w: Walk, queue: Queue,
                         order: seq<NameKey>,
                         tr0: Trace, tr: Trace, ecosystem: string, xs: seq<string>, i: nat) {
    && i <= |xs|
    && Reading(wk, opts, s, w, queue, order, tr) && Progress(s0, s, tr0.root) && GroupOk(s, tr0.root, ecosystem, xs)
    && ReadOn(tr0, tr) && tr.batch == tr0.batch - Members(xs[..i]) && tr.root == tr0.root && AllIn(tr.front, xs)
    && OnlyCounters(w0, w) && Gathers(wk, s0, s, tr0, tr)
  }

  lemma MidwayStarts(wk: Walker, opts: Options, s: State, w: Walk, queue: Queue, order: seq<NameKey>, tr: Trace,
                     ecosystem: string, xs: seq<string>)
    requires Reading(wk, opts, s, w, queue, order, tr) && GroupOk(s, tr.root, ecosystem, xs) && AllIn(tr.front, xs)
    ensures Midway(wk, opts, s, s, w, w, queue, order, tr, tr, ecosystem, xs, 0)
    ensures forall i :: 0 <= i < |xs| ==> xs[i] in s.nodes
  {
    assert forall i :: 0 <= i < |xs| ==> xs[i] in s.nodes;
    hide Reading, Progress, Reaches, GroupOk, Members, Gathers;
    ProgressSelf(s, tr.root);
    NoMembers(tr.batch);
    NoChange(tr, w);
    GathersNothing(wk, s, tr);
    assert xs[..0] == [];
  }

  lemma MidwayAt(wk: Walker, opts: Options, s0: State, s: State, w0: Walk, w: Walk, queue: Queue, order: seq<NameKey>,
                 tr0: Trace, tr: Trace, ecosystem: string, xs: seq<string>, i: nat)
    requires Midway(wk, opts, s0, s, w0, w, queue, order, tr0, tr, ecosystem, xs, i) && i < |xs|
    requires forall j :: 0 <= j < |xs| ==> xs[j] in s0.nodes
    ensures Reading(wk, opts, s, w, queue, order, tr)
    ensures xs[i] in s.nodes && s.nodes[xs[i]].ecosystem == ecosystem && Reaches(s.edges, DEPENDS, tr.root, xs[i])
    ensures CoordOf(s.nodes[xs[i]]) in CoordsOf(s0.nodes, xs) && xs[i] in tr.front
  {
    hide Reading, Progress, Reaches, GroupOk, CoordOf, CoordsOf, Members, ReadOn, OnlyCounters, Gathers;
    GroupOkAt(s, tr.root, ecosystem, xs, i);
    SameCoord(s0, s, tr.root, xs[i]);
    CoordsAt(s0.nodes, xs, i);
  }

  lemma MidwaySteps(wk: Walker, opts: Options, s0: State, s: State, t: State, w0: Walk, w: Walk, v: Walk, queue: Queue,
                    order: seq<NameKey>,
                    queue': Queue, order': seq<NameKey>, tr0: Trace, tr: Trace, ur: Trace, ecosystem: string,
                    xs: seq<string>, i: nat)
    requires Midway(wk, opts, s0, s, w0, w, queue, order, tr0, tr, ecosystem, xs, i) && i < |xs|
    requires Reading(wk, opts, t, v, queue', order', ur) && Progress(s, t, tr.root)
    requires ReadOn(tr, ur) && ur.batch == tr.batch - {xs[i]} && ur.root == tr.root && OnlyCounters(w, v)
    requires Gathers(wk, s, t, tr, ur)
    ensures Midway(wk, opts, s0, t, w0, v, queue', order', tr0, ur, ecosystem, xs, i + 1)
  {
    hide Reading, Progress, Reaches, GroupOk, Members, ReadOn, OnlyCounters, Gathers;
    MembersGrow(tr0.batch, xs, i);
    ReadOnTells(tr0, tr);
    ReadOnTells(tr, ur);
    GathersTransitive(wk, s0, s, t, tr0.root, tr0, tr, ur);
    ProgressTransitive(s0, s, t, tr0.root);
    GroupOkStays(s, t, tr0.root, ecosystem, xs);
    ReadOnTransitive(tr0, tr, ur);
    OnlyCountersTransitive(w0, w, v);
  }

  // Asks one ecosystem about its nodes of this layer.
  method ReadGroup(wk: Walker, opts: Options, g: Graph, ecosystem: string, xs: seq<string>, w0: Walk, queue0: Queue,
                   order0: seq<NameKey>, ghost tr0: Trace)
    returns (w: Walk, queue: Queue, order: seq<NameKey>, ghost tr: Trace)
    requires Reading(wk, opts, g.View(), w0, queue0, order0, tr0)
    requires GroupOk(g.View(), tr0.root, ecosystem, xs) && ecosystem in wk.declarers && AllIn(tr0.front, xs)
    modifies g
    ensures Midway(wk, opts, old(g.View()), g.View(), w0, w, queue, order, tr0, tr, ecosystem, xs, |xs|)
  {
    hide Reading, Progress, Reaches, GroupOk, CoordOf, CoordsOf, Members, Marked, ReadOn, OnlyCounters, Midway,
         Gathers;
    ghost var s0 := g.View();
    w, queue, order, tr := w0, queue0, order0, tr0;
    MidwayStarts(wk, opts, s0, w, queue, order, tr, ecosystem, xs);
    var coords := CoordsOf(g.nodes, xs);
    var answer := wk.declarers[ecosystem].declared(coords);
    for i := 0 to |xs|
      invariant Midway(wk, opts, s0, g.View(), w0, w, queue, order, tr0, tr, ecosystem, xs, i)
    {
      ghost var s, tr1, w1, queue1, order1 := g.View(), tr, w, queue, order;
      MidwayAt(wk, opts, s0, s, w0, w, queue, order, tr0, tr, ecosystem, xs, i);
      w, queue, order, tr := ReadOrMark(wk, opts, g, xs[i], coords, answer, w, queue, order, tr);
      MidwaySteps(wk, opts, s0, s, g.View(), w0, w1, w, queue1, order1, queue, order, tr0, tr1, tr, ecosystem, xs, i);
    }
  }

  lemma NoChange(tr: Trace, w: Walk)
    ensures ReadOn(tr, tr) && OnlyCounters(w, w)
  {
  }

  lemma SameCoord(s: State, t: State, root: string, x: string)
    requires Progress(s, t, root) && x in s.nodes
    ensures x in t.nodes && CoordOf(t.nodes[x]) == CoordOf(s.nodes[x])
  {
    hide Progress;
    ProgressKeeps(s, t, root, x);
  }

  // How a frontier falls into groups: the batch holds what was not expanded before and has somebody
  // to ask, each under its own ecosystem.
  ghost predicate Grouped(wk: Walker, nodes: map<string, Node>, frontier: seq<string>, expanded0: set<string>,
                          byEco: map<string, seq<string>>, batch: set<string>) {
    && (forall x :: x in frontier ==> x in nodes)
    && (forall x :: x in frontier ==> x in expanded0 || nodes[x].ecosystem !in wk.declarers || x in batch)
    && (forall x :: x in batch ==>
          x in frontier && x !in expanded0 && nodes[x].ecosystem in byEco && x in byEco[nodes[x].ecosystem])
    && (forall e :: e in byEco ==> e in wk.declarers)
    && (forall e, x :: e in byEco && x in byEco[e] ==> x in batch && x in frontier && nodes[x].ecosystem == e)
  }

  // The same when the first i nodes of the frontier have been sorted in.
  ghost predicate Grouping(wk: Walker, nodes: map<string, Node>, frontier: seq<string>, expanded0: set<string>,
                           byEco: map<string, seq<string>>, batch: set<string>, i: nat) {
    && i <= |frontier| && (forall x :: x in frontier ==> x in nodes)
    && (forall j :: 0 <= j < i ==>
          frontier[j] in expanded0 || nodes[frontier[j]].ecosystem !in wk.declarers || frontier[j] in batch)
    && (forall x :: x in batch ==>
          x in frontier && x !in expanded0 && nodes[x].ecosystem in byEco && x in byEco[nodes[x].ecosystem])
    && (forall e :: e in byEco ==> e in wk.declarers)
    && (forall e, x :: e in byEco && x in byEco[e] ==> x in batch && x in frontier && nodes[x].ecosystem == e)
  }

  lemma GroupStarts(wk: Walker, nodes: map<string, Node>, frontier: seq<string>, expanded0: set<string>)
    requires forall x :: x in frontier ==> x in nodes
    ensures Grouping(wk, nodes, frontier, expanded0, map[], {}, 0)
  {
  }

  lemma GroupSkips(wk: Walker, nodes: map<string, Node>, frontier: seq<string>, expanded0: set<string>,
                   byEco: map<string, seq<string>>, batch: set<string>, i: nat)
    requires Grouping(wk, nodes, frontier, expanded0, byEco, batch, i) && i < |frontier|
    requires frontier[i] in expanded0 + batch || nodes[frontier[i]].ecosystem !in wk.declarers
    ensures Grouping(wk, nodes, frontier, expanded0, byEco, batch, i + 1)
  {
  }

  function Filed(byEco: map<string, seq<string>>, e: string, x: string): map<string, seq<string>> {
    byEco[e := (if e in byEco then byEco[e] else []) + [x]]
  }

  lemma GroupTakes(wk: Walker, nodes: map<string, Node>, frontier: seq<string>, expanded0: set<string>,
                   byEco: map<string, seq<string>>, batch: set<string>, i: nat)
    requires Grouping(wk, nodes, frontier, expanded0, byEco, batch, i) && i < |frontier|
    requires nodes[frontier[i]].ecosystem in wk.declarers && frontier[i] !in expanded0
    ensures Grouping(wk, nodes, frontier, expanded0, Filed(byEco, nodes[frontier[i]].ecosystem, frontier[i]),
            batch + {frontier[i]}, i + 1)
  {
    var x := frontier[i];
    var e := nodes[x].ecosystem;
    var filed := Filed(byEco, e, x);
    assert forall f :: f in filed <==> f in byEco || f == e;
    assert forall f, y :: f in filed ==> (y in filed[f] <==> (f == e && y == x) || (f in byEco && y in byEco[f]));
    hide Filed;
  }

  lemma GroupEnds(wk: Walker, nodes: map<string, Node>, frontier: seq<string>, expanded0: set<string>,
                  byEco: map<string, seq<string>>, batch: set<string>)
    requires Grouping(wk, nodes, frontier, expanded0, byEco, batch, |frontier|)
    ensures Grouped(wk, nodes, frontier, expanded0, byEco, batch)
  {
  }

  // Sorts the frontier by ecosystem, dropping what was expanded before or has nobody to ask.
  method Group(wk: Walker, nodes: map<string, Node>, frontier: seq<string>, expanded0: set<string>)
    returns (expanded: set<string>, byEco: map<string, seq<string>>, ecos: seq<string>, ghost batch: set<string>)
    requires forall x :: x in frontier ==> x in nodes
    ensures Grouped(wk, nodes, frontier, expanded0, byEco, batch)
    ensures expanded == expanded0 + batch
    ensures forall e :: e in ecos <==> e in byEco
  {
    hide Grouping, Grouped, Sort, StringLess;
    expanded, byEco, ecos, batch := expanded0, map[], [], {};
    GroupStarts(wk, nodes, frontier, expanded0);
    for i := 0 to |frontier|
      invariant expanded == expanded0 + batch
      invariant Grouping(wk, nodes, frontier, expanded0, byEco, batch, i)
      invariant forall e :: e in ecos <==> e in byEco
    {
      var x := frontier[i];
      var e := nodes[x].ecosystem;
      if x in expanded || e !in wk.declarers {
        GroupSkips(wk, nodes, frontier, expanded0, byEco, batch, i);
        continue;
      }
      GroupTakes(wk, nodes, frontier, expanded0, byEco, batch, i);
      expanded := expanded + {x};
      batch := batch + {x};
      if e !in byEco {
        ecos := ecos + [e];
      }
      byEco := byEco[e := (if e in byEco then byEco[e] else []) + [x]];
    }
    GroupEnds(wk, nodes, frontier, expanded0, byEco, batch);
    SortMembers(ecos, StringLess);
    ecos := Sort(ecos, StringLess);
  }

  // What a layer has read when the groups of the first i ecosystems are done.
  ghost predicate LayerRead(wk: Walker, opts: Options, s0: State, s: State, w0: Walk, w: Walk, queue: Queue,
                            order: seq<NameKey>,
                            tr0: Trace, tr: Trace, byEco: map<string, seq<string>>, ecos: seq<string>, i: nat) {
    && i <= |ecos|
    && Reading(wk, opts, s, w, queue, order, tr) && Progress(s0, s, tr0.root)
    && (forall e :: e in byEco ==> e in wk.declarers && GroupOk(s, tr0.root, e, byEco[e]) && AllIn(tr.front, byEco[e]))
    && (forall j :: 0 <= j < |ecos| ==> ecos[j] in byEco)
    && ReadOn(tr0, tr) && tr.root == tr0.root
    && (forall x :: x in tr.batch ==> exists j :: i <= j < |ecos| && x in byEco[ecos[j]])
    && OnlyCounters(w0, w) && Gathers(wk, s0, s, tr0, tr)
  }

  lemma LayerReadSteps(wk: Walker, opts: Options, s0: State, s: State, t: State, w0: Walk, w: Walk, v: Walk,
                       queue: Queue, order: seq<NameKey>,
                       queue': Queue, order': seq<NameKey>, tr0: Trace, tr: Trace, ur: Trace,
                       byEco: map<string, seq<string>>, ecos: seq<string>, i: nat)
    requires LayerRead(wk, opts, s0, s, w0, w, queue, order, tr0, tr, byEco, ecos, i) && i < |ecos|
    requires Midway(wk, opts, s, t, w, v, queue', order', tr, ur, ecos[i], byEco[ecos[i]], |byEco[ecos[i]]|)
    ensures LayerRead(wk, opts, s0, t, w0, v, queue', order', tr0, ur, byEco, ecos, i + 1)
  {
    hide Reading, Progress, Reaches, GroupOk, ReadOn, OnlyCounters, Gathers, Members;
    ProgressTransitive(s0, s, t, tr0.root);
    ReadOnTells(tr0, tr);
    ReadOnTells(tr, ur);
    GathersTransitive(wk, s0, s, t, tr0.root, tr0, tr, ur);
    GroupsStay(s, t, tr0.root, byEco);
    ReadOnTransitive(tr0, tr, ur);
    OnlyCountersTransitive(w0, w, v);
    var xs := byEco[ecos[i]];
    assert xs[..|xs|] == xs;
    BatchShrinks(tr.batch, ur.batch, byEco, ecos, i);
  }

  lemma GroupsStay(s: State, t: State, root: string, byEco: map<string, seq<string>>)
    requires Progress(s, t, root) && forall e :: e in byEco ==> GroupOk(s, root, e, byEco[e])
    ensures forall e :: e in byEco ==> GroupOk(t, root, e, byEco[e])
  {
    hide Progress, GroupOk;
    forall e | e in byEco
      ensures GroupOk(t, root, e, byEco[e])
    {
      GroupOkStays(s, t, root, e, byEco[e]);
    }
  }

  lemma BatchShrinks(batch: set<string>, left: set<string>, byEco: map<string, seq<string>>, ecos: seq<string>, i: nat)
    requires i < |ecos| && (forall j :: 0 <= j < |ecos| ==> ecos[j] in byEco) && left == batch - Members(byEco[ecos[i]])
    requires forall x :: x in batch ==> exists j :: i <= j < |ecos| && x in byEco[ecos[j]]
    ensures forall x :: x in left ==> exists j :: i + 1 <= j < |ecos| && x in byEco[ecos[j]]
  {
    forall x | x in left
      ensures exists j :: i + 1 <= j < |ecos| && x in byEco[ecos[j]]
    {
      assert x in batch && x !in byEco[ecos[i]];
      var j :| i <= j < |ecos| && x in byEco[ecos[j]];
      assert j != i;
    }
  }

  lemma LayerReadEnds(wk: Walker, opts: Options, s0: State, s: State, w0: Walk, w: Walk, queue: Queue,
                      order: seq<NameKey>,
                      tr0: Trace, tr: Trace, byEco: map<string, seq<string>>, ecos: seq<string>)
    requires LayerRead(wk, opts, s0, s, w0, w, queue, order, tr0, tr, byEco, ecos, |ecos|)
    ensures Reading(wk, opts, s, w, queue, order, tr) && Progress(s0, s, tr0.root) && OnlyCounters(w0, w) &&
            ReadOn(tr0, tr) && tr.batch == {}
    ensures Gathers(wk, s0, s, tr0, tr)
  {
    hide Reading, Progress, GroupOk, ReadOn, OnlyCounters, Gathers;
  }

  lemma LayerReadStarts(wk: Walker, opts: Options, s: State, frontier: seq<string>, expanded0: set<string>, w: Walk,
                        tr: Trace, byEco: map<string, seq<string>>, ecos: seq<string>)
    requires Inv(wk, opts, s, w, tr) && tr.pending == {} && tr.owed == map[] && tr.layer == {}
    requires forall x :: x in frontier ==> x in s.nodes && Reaches(s.edges, DEPENDS, tr.root, x)
    requires Grouped(wk, s.nodes, frontier, expanded0, byEco, tr.batch) && tr.front == tr.batch
    requires forall e :: e in ecos <==> e in byEco
    ensures LayerRead(wk, opts, s, s, w, w, map[], [], tr, tr, byEco, ecos, 0)
  {
    hide Inv, Reaches;
    ProgressSelf(s, tr.root);
    hide Progress;
    NoChange(tr, w);
    GathersNothing(wk, s, tr);
    hide ReadOn, OnlyCounters, Gathers;
    forall x | x in tr.batch
      ensures exists j :: 0 <= j < |ecos| && x in byEco[ecos[j]]
    {
      var e := s.nodes[x].ecosystem;
      assert e in ecos;
      var j :| 0 <= j < |ecos| && ecos[j] == e;
    }
    forall e | e in byEco
      ensures GroupOk(s, tr.root, e, byEco[e])
    {
      forall i | 0 <= i < |byEco[e]|
        ensures byEco[e][i] in s.nodes && Reaches(s.edges, DEPENDS, tr.root, byEco[e][i]) &&
                s.nodes[byEco[e][i]].ecosystem == e
      {
        assert byEco[e][i] in byEco[e];
      }
    }
    assert ParentsOf(map[]) == map[];
    NothingAsked(wk, opts, w.byName);
    hide Accumulated;
  }

  // Turns the frontier into groups to ask about.
  method StartLayer(wk: Walker, opts: Options, g: Graph, w0: Walk, ghost tr0: Trace)
    returns (w: Walk, byEco: map<string, seq<string>>, ecos: seq<string>, ghost tr: Trace)
    requires Inv(wk, opts, g.View(), w0, tr0) && tr0.pending == {} && tr0.owed == map[] && tr0.batch == {}
    ensures LayerRead(wk, opts, g.View(), g.View(), w, w, map[], [], tr, tr, byEco, ecos, 0)
    ensures tr == tr0.(batch := tr.batch, layer := {}, front := tr.batch) &&
            w == w0.(frontier := [], expanded := w.expanded)
    ensures w0.expanded <= w.expanded && FrontierExpanded(wk, g.nodes, w0.frontier, w.expanded)
    ensures forall x :: x in w.expanded ==> x in w0.expanded || x in w0.frontier
    ensures forall x :: x in tr.front ==> x in w0.frontier && x !in w0.expanded
  {
    hide Inv, Reading, Progress, Reaches, LayerRead, Midway, Grouped;
    ghost var s := g.View();
    FrontierMembers(wk, opts, s, w0, tr0);
    var expanded, groups, keys, batch := Group(wk, g.nodes, w0.frontier, w0.expanded);
    byEco, ecos := groups, keys;
    BatchesGroups(wk, opts, s, w0, tr0, byEco, batch);
    w := w0.(frontier := [], expanded := expanded);
    InvLayer(wk, opts, s, w, tr0.(batch := batch), {}, batch);
    tr := tr0.(batch := batch, layer := {}, front := batch);
    GroupedExpands(wk, g.nodes, w0.frontier, w0.expanded, byEco, batch);
    LayerReadStarts(wk, opts, s, w0.frontier, w0.expanded, w, tr, byEco, ecos);
  }

  // Whoever can be asked about in the frontier is expanded.
  ghost predicate FrontierExpanded(wk: Walker, nodes: map<string, Node>, frontier: seq<string>, expanded: set<string>) {
    forall x :: x in frontier ==> x in nodes && (nodes[x].ecosystem in wk.declarers ==> x in expanded)
  }

  lemma GroupedExpands(wk: Walker, nodes: map<string, Node>, frontier: seq<string>, expanded0: set<string>,
                       byEco: map<string, seq<string>>, batch: set<string>)
    requires Grouped(wk, nodes, frontier, expanded0, byEco, batch)
    ensures FrontierExpanded(wk, nodes, frontier, expanded0 + batch)
    ensures forall x :: x in batch ==> x in frontier && x !in expanded0
  {
  }

  lemma FrontierWasQueued(wk: Walker, opts: Options, s: State, w: Walk, tr: Trace)
    requires Inv(wk, opts, s, w, tr)
    ensures forall id :: id in w.frontier ==> id in tr.queued
  {
    hide Sound, Explained, Confines, Evolves, WalkContained, NamesAnswer, Heard, NothingLost, NewAccounted, Counted,
         Settled;
  }

  lemma FrontierMembers(wk: Walker, opts: Options, s: State, w: Walk, tr: Trace)
    requires Inv(wk, opts, s, w, tr)
    ensures forall x :: x in w.frontier ==> x in s.nodes && Reaches(s.edges, DEPENDS, tr.root, x)
  {
    hide Inv, Reaches, Answers;
    InvMembers(wk, opts, s, w, tr);
  }

  lemma BatchesGroups(wk: Walker, opts: Options, s: State, w: Walk, tr: Trace, byEco: map<string, seq<string>>,
                      batch: set<string>)
    requires Inv(wk, opts, s, w, tr) && tr.batch == {} && Grouped(wk, s.nodes, w.frontier, w.expanded, byEco, batch)
    ensures Inv(wk, opts, s, w.(frontier := [], expanded := w.expanded + batch), tr.(batch := batch))
  {
    hide Inv;
    InvBatches(wk, opts, s, w, tr, batch);
  }

  // Phase 1: reads everything in the frontier, accumulating per package all that its parents ask.
  method ReadLayer(wk: Walker, opts: Options, g: Graph, w0: Walk, ghost tr0: Trace)
    returns (w: Walk, queue: Queue, order: seq<NameKey>, ghost tr: Trace)
    requires Inv(wk, opts, g.View(), w0, tr0) && tr0.pending == {} && tr0.owed == map[] && tr0.batch == {}
    modifies g
    ensures Reading(wk, opts, g.View(), w, queue, order, tr) && Progress(old(g.View()), g.View(), tr0.root)
    ensures tr.batch == {} && ReadOn(tr0.(batch := tr.batch, layer := {}, front := tr.front), tr)
    ensures w.frontier == [] && OnlyCounters(w0.(frontier := [], expanded := w.expanded), w)
    ensures Gathers(wk, old(g.View()), g.View(), tr0.(layer := {}), tr)
    ensures w0.expanded <= w.expanded && FrontierExpanded(wk, old(g.nodes), w0.frontier, w.expanded)
    ensures forall x :: x in w.expanded ==> x in w0.expanded || x in w0.frontier
    ensures forall x :: x in tr.front ==> x in w0.frontier && x !in w0.expanded
  {
    hide Inv, Reading, Progress, Reaches, LayerRead, Midway, HeardIn, FrontierExpanded;
    ghost var s := g.View();
    var w1, byEco, ecos, tr1 := StartLayer(wk, opts, g, w0, tr0);
    w, tr, queue, order := w1, tr1, map[], [];
    for i := 0 to |ecos|
      invariant LayerRead(wk, opts, s, g.View(), w1, w, queue, order, tr1, tr, byEco, ecos, i)
    {
      ghost var s', tr', w', queue', order' := g.View(), tr, w, queue, order;
      LayerReadAt(wk, opts, s, s', w1, w, queue, order, tr1, tr, byEco, ecos, i);
      w, queue, order, tr := ReadGroup(wk, opts, g, ecos[i], byEco[ecos[i]], w, queue, order, tr);
      LayerReadSteps(wk, opts, s, s', g.View(), w1, w', w, queue', order', queue, order, tr1, tr', tr, byEco, ecos, i);
    }
    LayerReadEnds(wk, opts, s, g.View(), w1, w, queue, order, tr1, tr, byEco, ecos);
    assert tr1.root == tr0.root;
    assert OnlyCounters(w0.(frontier := [], expanded := w.expanded), w);
  }

  lemma LayerReadAt(wk: Walker, opts: Options, s0: State, s: State, w0: Walk, w: Walk, queue: Queue,
                    order: seq<NameKey>,
                    tr0: Trace, tr: Trace, byEco: map<string, seq<string>>, ecos: seq<string>, i: nat)
    requires LayerRead(wk, opts, s0, s, w0, w, queue, order, tr0, tr, byEco, ecos, i) && i < |ecos|
    ensures Reading(wk, opts, s, w, queue, order, tr) && ecos[i] in byEco && ecos[i] in wk.declarers
    ensures GroupOk(s, tr.root, ecos[i], byEco[ecos[i]]) && AllIn(tr.front, byEco[ecos[i]])
  {
    hide Reading, Progress, GroupOk, ReadOn, OnlyCounters, Gathers;
  }
}
