// What a finished walk guarantees, in the words of its design: nothing queued is forgotten, nothing declared
// is lost, one version serves all who ask, what was there is kept, the counters tell the growth, other roots
// are left alone, and no version the walk chose can fail a build.
module ExpandTheorems {
  import opened Prelude
  import opened Findings
  import opened GraphTypes
  import opened Sorting
  import opened Reach
  import opened GraphState
  import opened DeclaredDeps
  import opened ExpandTypes
  import opened ExpandRegion
  import opened ExpandLedger
  import opened ExpandSteps
  import opened ExpandSeed
  import opened ExpandLayers
  import opened ExpandCreate
  import opened ExpandChoices
  import opened ExpandLog
  import opened ExpandAsserted
  import opened ExpandResolver
  import opened Expand
  import opened Presume
  import Verdict
  import opened Evaluate

  lemma FinishedParts(wk: Walker, opts: Options, s: State, t: State, w: Walk, tr: Trace)
    requires Finished(wk, opts, s, t, w, tr)
    ensures Sound(t) && Evolves(s, t) && tr.root in t.nodes
    ensures WalkContained(t.edges, tr.root, w) && NamesAnswer(wk, t.nodes, w.byName)
    ensures Accounted(wk, t.nodes, w, tr) && Heard(wk, t.nodes, tr) && NothingLost(wk, opts, t, tr.told, map[])
    ensures NewAccounted(s.nodes, t.nodes, {}, Known(tr)) && Counted(|s.order|, |t.order|, w.res, tr.uncounted)
    ensures Explained(wk, opts, s.nodes, t.nodes, w.res, tr.cut) && Confines(wk, opts, s, tr.root, s, t)
  {
    hide Explained, Confines, Sound, Evolves, WalkContained, NamesAnswer, Accounted, Heard, NothingLost, NewAccounted,
         Counted, Pinned, RootDeclares;
  }

  // Every node the walk ever queued whose ecosystem has a declarer was read, was closed by the
  // resolver, or is marked as a frontier; and everything the lockfile pinned was queued.
  lemma NothingQueuedIsForgotten(wk: Walker, opts: Options, s: State, t: State, w: Walk, tr: Trace, x: string)
    requires Finished(wk, opts, s, t, w, tr)
    requires x in tr.queued || Pinned(s, tr.root, x)
    ensures x in t.nodes
    ensures t.nodes[x].ecosystem !in wk.declarers || x in tr.read || x in tr.closed ||
            t.nodes[x].Attribute(ATTR_FRONTIER) != ""
  {
    hide Inv, RootDeclares, Pinned;
    FinishedParts(wk, opts, s, t, w, tr);
    assert x in tr.queued;
    hide Sound, Evolves, WalkContained, NamesAnswer, Heard, NothingLost, NewAccounted, Counted;
  }

  // A node counted as read got an answer from its ecosystem, and has an edge for every declaration in
  // it that is included, names a package, and names one that can be identified.
  lemma NothingDeclaredIsLost(wk: Walker, opts: Options, s: State, t: State, w: Walk, tr: Trace, x: string)
    requires Finished(wk, opts, s, t, w, tr) && x in tr.read
    ensures x in t.nodes && t.nodes[x].ecosystem in wk.declarers
    ensures exists batch ::
              && CoordOf(t.nodes[x]) in batch && wk.declarers[t.nodes[x].ecosystem].declared(batch).Some?
              && CoordOf(t.nodes[x]) in wk.declarers[t.nodes[x].ecosystem].declared(batch).value
              && (forall d, k ::
                    d in wk.declarers[t.nodes[x].ecosystem].declared(batch).value[CoordOf(t.nodes[x])] &&
                        Owes(wk, opts, t.nodes[x].ecosystem, d, k)
                    ==> Linked(wk, t, x, k))
  {
    hide Inv, RootDeclares, Pinned, Owes, Answers, CoordOf;
    FinishedParts(wk, opts, s, t, w, tr);
    hide Sound, Evolves, WalkContained, NamesAnswer, Accounted, NewAccounted, Counted, Finished;
    assert WasTold(wk, t.nodes, x, tr.told);
    var e := t.nodes[x].ecosystem;
    var c := CoordOf(t.nodes[x]);
    var batch :| AnswerHeard(wk.declarers[e], batch, c, x, tr.told);
    var ds := wk.declarers[e].declared(batch).value[c];
    forall d, k | d in ds && Owes(wk, opts, e, d, k)
      ensures Linked(wk, t, x, k)
    {
      var i :| 0 <= i < |ds| && ds[i] == d;
      OwedIsLinked(wk, opts, t, tr, x, d, k);
    }
  }

  lemma OwedIsLinked(wk: Walker, opts: Options, t: State, tr: Trace, x: string, d: Declaration, k: NameKey)
    requires NothingLost(wk, opts, t, tr.told, map[]) && Heard(wk, t.nodes, tr)
    requires (x, d) in tr.told && x in t.nodes && Owes(wk, opts, t.nodes[x].ecosystem, d, k)
    ensures Linked(wk, t, x, k)
  {
    hide Owes, Answers, WasTold;
    var p := (x, d);
    assert p.0 == x && p.1 == d;
    assert !Awaits(map[], x, k);
  }

  // What the root's manifest declares and no lockfile pinned, the root depends on.
  lemma ManifestIsHonoured(wk: Walker, opts: Options, s: State, t: State, w: Walk, tr: Trace, dd: DeclaredDep,
                           k: NameKey)
    requires Finished(wk, opts, s, t, w, tr)
    requires tr.root in s.nodes && s.nodes[tr.root].ecosystem in wk.declarers && dd in RootDeclares(s.nodes[tr.root])
    requires Owes(wk, opts, s.nodes[tr.root].ecosystem, AsDeclaration(dd), k)
    ensures Linked(wk, t, tr.root, k)
  {
    hide Inv, RootDeclares, Pinned, Owes, Answers;
    FinishedParts(wk, opts, s, t, w, tr);
    EvolvesParts(s, t);
    SameEcosystem(s.nodes, t.nodes, tr.root);
    hide Sound, Evolves, WalkContained, NamesAnswer, Accounted, NewAccounted, Counted, Heard;
    OwedIsLinked(wk, opts, t, tr, tr.root, AsDeclaration(dd), k);
  }

  // A created node with a version is labelled as not observed; one without is marked as a frontier.
  lemma CreatedIsLabelled(wk: Walker, opts: Options, s: State, t: State, w: Walk, tr: Trace, x: string)
    requires Finished(wk, opts, s, t, w, tr) && x in t.nodes && x !in s.nodes
    ensures t.nodes[x].kind == Package
    ensures t.nodes[x].version != "" ==> t.nodes[x].VersionTruth() in {TRUTH_PRESUMED, TRUTH_ASSERTED}
    ensures t.nodes[x].version == "" ==> t.nodes[x].Attribute(ATTR_FRONTIER) != ""
  {
    hide Inv, RootDeclares, Pinned;
    FinishedParts(wk, opts, s, t, w, tr);
    hide Sound, WalkContained, NamesAnswer, Accounted, Heard, NothingLost, Counted;
    assert GoodNew(t.nodes[x]);
  }

  // A node the walk itself created was read, closed by the resolver, or is marked as a frontier, if its
  // ecosystem has a declarer: no created node is left looking like a leaf because nobody asked.
  lemma CreatedIsNoFalseLeaf(wk: Walker, opts: Options, s: State, seeded: State, resolved: State, t: State, w: Walk,
                             tr: Trace, x: string)
    requires Finished(wk, opts, s, t, w, tr) && ResolverDid(wk, opts, seeded, resolved, tr.root, tr)
    requires x in t.nodes && x !in s.nodes && !(x in resolved.nodes && x !in seeded.nodes && opts.resolver.Some?)
    ensures t.nodes[x].ecosystem !in wk.declarers || x in tr.read || x in tr.closed ||
            t.nodes[x].Attribute(ATTR_FRONTIER) != ""
  {
    hide Inv, RootDeclares, Pinned, Consulted, NewAsserted;
    FinishedParts(wk, opts, s, t, w, tr);
    hide Sound, Evolves, WalkContained, NamesAnswer, Accounted, Heard, NothingLost, Counted;
    if x in tr.queued {
      NothingQueuedIsForgotten(wk, opts, s, t, w, tr, x);
    }
  }

  // A node is marked as a frontier for a reason: it has no version, its ecosystem was asked and did not
  // answer for it, a resolver left a hole there, or the depth bound cut the walk off at it; and the bound
  // cut nothing exactly when its counter says so.
  lemma MarkHasReason(wk: Walker, opts: Options, s: State, t: State, w: Walk, tr: Trace, x: string)
    requires Finished(wk, opts, s, t, w, tr) && x in t.nodes && ExpandLedger.Marked(t.nodes[x]) &&
             !(x in s.nodes && ExpandLedger.Marked(s.nodes[x]))
    ensures t.nodes[x].version == "" || NoAnswer(wk, t.nodes[x]) || IsHole(wk, opts, x) || x in tr.cut
    ensures tr.cut <= tr.queued && (w.res.depthTruncated == 0 <==> tr.cut == {})
  {
    hide Inv, RootDeclares, Pinned, NoAnswer, IsHole;
    FinishedParts(wk, opts, s, t, w, tr);
    hide Sound, Evolves, WalkContained, NamesAnswer, Accounted, NewAccounted, Counted, Heard, NothingLost,
         ExpandLedger.Marked;
  }

  // ----- One version for all -----

  // Exactly what the layer asked of k.
  ghost predicate AreConstraints(wk: Walker, opts: Options, heard: Layer, k: NameKey, constraints: seq<string>) {
    forall c :: c in constraints <==> c != "" && exists x :: Asked(wk, opts, heard, k, x, c)
  }

  // The version that all the layer asked of k leads to.
  ghost predicate FromAll(wk: Walker, opts: Options, heard: Layer, k: NameKey, version: string) {
    exists constraints :: AreConstraints(wk, opts, heard, k, constraints) && IsChoice(wk, opts, k, constraints, version)
  }

  // It meets every constraint the layer set, and all who asked for k depend on it.
  ghost predicate ServesAll(wk: Walker, opts: Options, t: State, heard: Layer, k: NameKey, version: string) {
    && FromAll(wk, opts, heard, k, version) && k.ecosystem in wk.declarers
    && var d := wk.declarers[k.ecosystem];
       var id := d.identify(k.canonical, version).0;
       forall x, c :: Asked(wk, opts, heard, k, x, c) ==>
         && (id != "" ==> Edge(x, id, DependsOn) in t.edges)
         && (version != "" && c != "" ==>
               d.presumer.Some? && d.presumer.value.satisfies(c, version) == (true, true))
  }

  // However many nodes of a layer ask for a package the subtree lacked, it is answered once, with all
  // their constraints in hand.
  lemma OneVersionForAll(wk: Walker, opts: Options, t: State, root: string, rec: LayerRecord, k: NameKey)
    requires LayerDid(wk, opts, t, root, rec) && k !in rec.byName && exists x, c :: Asked(wk, opts, rec.heard, k, x, c)
    ensures k in rec.chosen && ServesAll(wk, opts, t, rec.heard, k, rec.chosen[k])
  {
    hide Asked, QueueOk, AllMade, IsChoice, IsThere, IsNext;
    var queue :| Answered(wk, opts, t, root, rec, queue);
    QueuedServes(wk, opts, t, root, rec, queue, k);
  }

  lemma QueuedServes(wk: Walker, opts: Options, t: State, root: string, rec: LayerRecord, queue: Queue, k: NameKey)
    requires Answered(wk, opts, t, root, rec, queue) && k in queue
    ensures k in rec.chosen && k !in rec.byName && ServesAll(wk, opts, t, rec.heard, k, rec.chosen[k])
    ensures forall x, c :: Asked(wk, opts, rec.heard, k, x, c) ==>
              x in queue[k].parents && (c != "" ==> c in queue[k].constraints)
  {
    hide Asked, QueueOk, AllMade, IsChoice;
    assert AreConstraints(wk, opts, rec.heard, k, queue[k].constraints);
    ChoiceMeetsAll(wk, opts, k, queue[k].constraints, rec.chosen[k]);
  }

  lemma ChoiceMeetsAll(wk: Walker, opts: Options, k: NameKey, constraints: seq<string>, version: string)
    requires IsChoice(wk, opts, k, constraints, version)
    ensures version != "" ==>
              && wk.declarers[k.ecosystem].presumer.Some?
              && forall c :: c in constraints ==>
                   wk.declarers[k.ecosystem].presumer.value.satisfies(c, version) == (true, true)
  {
    if version != "" {
      FittingMeetsAll(wk.declarers[k.ecosystem].presumer.value, constraints, version);
    }
  }

  // n was made for k in this layer, which the subtree lacked: the node of the version chosen for k, which
  // meets every constraint the layer set on k and has them all in its recorded text; everyone who asked
  // depends on it, one of them is recorded as discovering it, and it is one below the deepest of them.
  ghost predicate MadeInLayer(wk: Walker, opts: Options, t: State, rec: LayerRecord, k: NameKey, n: Node) {
    && k in rec.chosen && k !in rec.byName && ServesAll(wk, opts, t, rec.heard, k, rec.chosen[k])
    && n.ecosystem == k.ecosystem && n.version == rec.chosen[k]
    && n.id == wk.declarers[k.ecosystem].identify(k.canonical, n.version).0 && n.id != ""
    && n.name == wk.declarers[k.ecosystem].identify(k.canonical, n.version).1
    && (forall x, c :: Asked(wk, opts, rec.heard, k, x, c) ==>
          && x in t.nodes && t.nodes[x].depth < n.depth
          && (c != "" ==> Occurs(n.Attribute("depsnort.declared_constraint"), c)))
    && (exists x, c :: Asked(wk, opts, rec.heard, k, x, c) && x in t.nodes && Discovers(t.nodes[x], n))
    && (n.depth > 0 ==>
          exists x, c :: Asked(wk, opts, rec.heard, k, x, c) && x in t.nodes && t.nodes[x].depth + 1 == n.depth)
  }

  // n is recorded as discovered by the coordinate of m.
  predicate Discovers(m: Node, n: Node) {
    n.Attribute("depsnort.discovered_by") == m.ecosystem + "|" + m.name + "|" + m.version
  }

  lemma CreatedInSomeLayer(wk: Walker, opts: Options, s: State, t: State, root: string, run: Run, id: string)
    requires Ran(wk, opts, s, t, root, run) && id in t.nodes && id !in run.resolved.nodes
    ensures t.nodes[id].id == id
    ensures exists i, k :: 0 <= i < |run.log| && MadeInLayer(wk, opts, t, run.log[i], k, t.nodes[id])
  {
    hide LayerDid, HeardIn, MadeInLayer, Finished, InPhases, InSeed, ResolverDid, InBound, InOrder, QueuedIn;
    RanIsKeyed(wk, opts, s, t, run.w, run.tr, id);
    var i :| 0 <= i < |run.log| && id in run.log[i].created;
    var k := MadeByLayer(wk, opts, t, root, run.log[i], id);
  }

  lemma RanIsKeyed(wk: Walker, opts: Options, s: State, t: State, w: Walk, tr: Trace, id: string)
    requires Finished(wk, opts, s, t, w, tr) && id in t.nodes
    ensures t.nodes[id].id == id
  {
    hide Inv, RootDeclares, Pinned, Listed;
    KeyedById(wk, opts, t, w, tr, id);
  }

  lemma MadeByLayer(wk: Walker, opts: Options, t: State, root: string, rec: LayerRecord,
                    id: string) returns (k: NameKey)
    requires LayerDid(wk, opts, t, root, rec) && id in rec.created
    ensures id in t.nodes && MadeInLayer(wk, opts, t, rec, k, t.nodes[id])
  {
    hide MadeFor, DrawnAs, Asked, BelowParents, InSubtree, MadeInLayer, ServesAll, IsThere, IsNext;
    var queue :| Answered(wk, opts, t, root, rec, queue);
    k :| k in queue && k in rec.chosen && MadeFor(wk, opts, t.nodes[id], k, queue[k], rec.chosen[k]);
    assert BelowParents(t, queue[k]);
    QueuedServes(wk, opts, t, root, rec, queue, k);
    MadeMeetsAll(wk, opts, t, rec, k, queue[k], t.nodes[id]);
  }

  lemma MadeMeetsAll(wk: Walker, opts: Options, t: State, rec: LayerRecord, k: NameKey, p: Pending, n: Node)
    requires k in rec.chosen && k !in rec.byName && ServesAll(wk, opts, t, rec.heard, k, rec.chosen[k])
    requires MadeFor(wk, opts, n, k, p, rec.chosen[k]) && BelowParents(t, p)
    requires forall x, c :: Asked(wk, opts, rec.heard, k, x, c) ==> x in p.parents && (c != "" ==> c in p.constraints)
    requires forall x :: x in p.parents ==> exists c :: Asked(wk, opts, rec.heard, k, x, c)
    ensures MadeInLayer(wk, opts, t, rec, k, n)
  {
    hide Asked, IsPresumedFor, Records, Occurs, IsText, NewChild, Evolved, ServesAll;
    var version := rec.chosen[k];
    var truth, candidates, text :| MadeAs(wk, opts, n, k, p, version, truth, candidates, text);
    var (id, name) := wk.declarers[k.ecosystem].identify(k.canonical, version);
    SameFacts(id, k.ecosystem, name, version, p.depth, truth, p.discoveredBy, text, CandidateText(candidates), n);
  }

  lemma SameFacts(id: string, ecosystem: string, name: string, version: string, depth: int, truth: string,
                  discoveredBy: string, text: string, candidates: string, n: Node)
    requires Evolved(NewChild(id, ecosystem, name, version, false, depth, truth, discoveredBy, text, candidates), n)
    ensures n.id == id && n.ecosystem == ecosystem && n.name == name && n.version == version && n.depth == depth
    ensures n.Attribute("depsnort.declared_constraint") == text && n.Attribute("depsnort.discovered_by") == discoveredBy
  {
  }

  // No fact about an existing node is overwritten: only walk marks appear, and an absent label may be
  // spelled out as the default it already meant.
  lemma ExistingIsKept(wk: Walker, opts: Options, s: State, t: State, w: Walk, tr: Trace, x: string)
    requires Finished(wk, opts, s, t, w, tr) && x in s.nodes
    ensures x in t.nodes && t.nodes[x] == s.nodes[x].(attr := t.nodes[x].attr)
    ensures t.nodes[x].VersionTruth() == s.nodes[x].VersionTruth()
    ensures s.nodes[x].Attribute(ATTR_VERSION_TRUTH) != "" ==>
              t.nodes[x].Attribute(ATTR_VERSION_TRUTH) == s.nodes[x].Attribute(ATTR_VERSION_TRUTH)
    ensures forall key :: key !in {ATTR_VERSION_TRUTH, ATTR_FRONTIER, ATTR_SUBTREE_UNREAD} ==>
              t.nodes[x].Attribute(key) == s.nodes[x].Attribute(key)
  {
    hide Inv, RootDeclares, Pinned;
    FinishedParts(wk, opts, s, t, w, tr);
    hide Sound, WalkContained, NamesAnswer, Accounted, Heard, NothingLost, Counted;
    assert Evolved(s.nodes[x], t.nodes[x]);
  }

  // The graph grows by what was discovered and asserted, plus what the trace knows to be in no counter.
  lemma CountersTellGrowth(wk: Walker, opts: Options, s: State, t: State, w: Walk, tr: Trace)
    requires Finished(wk, opts, s, t, w, tr)
    ensures |t.nodes| == |s.nodes| + w.res.discovered + w.res.asserted + tr.uncounted
    ensures w.res.presumed + w.res.contested <= w.res.discovered
  {
    hide Inv, RootDeclares, Pinned;
    FinishedParts(wk, opts, s, t, w, tr);
    assert Listed(s) && Listed(t);
    OrderCountsNodes(s);
    OrderCountsNodes(t);
  }

  // The insertion order has one entry per node.
  lemma OrderCountsNodes(s: State)
    requires Listed(s)
    ensures |s.nodes| == |s.order|
  {
    DistinctCount(s.order);
    assert (set id | id in s.order) == s.nodes.Keys;
  }

  lemma {:induction false} DistinctCount(ids: seq<string>)
    requires NoDuplicates(ids)
    ensures |set id | id in ids| == |ids|
  {
    if ids != [] {
      var init, last := ids[..|ids| - 1], ids[|ids| - 1];
      DistinctCount(init);
      assert ids == init + [last];
      assert (set id | id in ids) == (set id | id in init) + {last};
    }
  }

  // No answer of the resolver that came with a failure named what the graph lacked when it was asked.
  ghost predicate NoneMissed(wk: Walker, s: State, root: string, r: Resolver, deps: seq<string>) {
    AreDeps(s, root, deps) && forall i: nat :: i < |deps| ==> !MissesAt(wk, r, s.nodes, deps, i)
  }

  // The counters account for every node exactly when there is no resolver, or it answered for the root as
  // a whole, or no failed answer about a direct dependency brought in a node.
  lemma GrowthIsCounted(wk: Walker, opts: Options, s: State, seeded: State, resolved: State, t: State, w: Walk,
                        tr: Trace)
    requires Finished(wk, opts, s, t, w, tr) && ResolverDid(wk, opts, seeded, resolved, tr.root, tr)
    ensures opts.resolver.None? ==> |t.nodes| == |s.nodes| + w.res.discovered + w.res.asserted
    ensures forall r, reqs, deps :: opts.resolver == Some(r) &&
                                      Consulted(wk, seeded, resolved, tr.root, r, reqs, deps, tr.uncounted,
                                                tr.closed) ==>
              (|t.nodes| == |s.nodes| + w.res.discovered + w.res.asserted <==>
                AnswersLocally(r, seeded.nodes[tr.root], reqs) || NoneMissed(wk, seeded, tr.root, r, deps))
  {
    hide Finished, Consulted, NewAsserted;
    CountersTellGrowth(wk, opts, s, t, w, tr);
    hide ResolverDid;
    forall r, reqs, deps | opts.resolver == Some(r) &&
        Consulted(wk, seeded, resolved, tr.root, r, reqs, deps, tr.uncounted, tr.closed)
      ensures tr.root in seeded.nodes &&
              (tr.uncounted == 0 <==>
                  AnswersLocally(r, seeded.nodes[tr.root], reqs) || NoneMissed(wk, seeded, tr.root, r, deps))
    {
      UncountedExactly(wk, seeded, resolved, tr.root, r, reqs, deps, tr.uncounted, tr.closed);
    }
  }

  lemma UncountedExactly(wk: Walker, s: State, t: State, root: string, r: Resolver, reqs: seq<Coord>, deps: seq<string>,
                         uncounted: nat, closed: set<string>)
    requires Consulted(wk, s, t, root, r, reqs, deps, uncounted, closed)
    ensures root in s.nodes &&
            (uncounted == 0 <==> AnswersLocally(r, s.nodes[root], reqs) || NoneMissed(wk, s, root, r, deps))
  {
    hide AnswersLocally, Held, AnswerHeld, IsRequirement, AreDeps, Missed, MissesAt, Closing, Reaches;
    if !AnswersLocally(r, s.nodes[root], reqs) {
      DepsAreNodes(s, root, deps);
      MissedExactly(wk, r, s.nodes, deps);
    }
  }

  // It happens: the root depends on a package a, and asked about it the resolver names a and a new b, and
  // fails.  b stays in the graph and in no counter.
  lemma FailedAnswerIsUncounted(root: Node, a: Node, t: State, reqs: seq<Coord>, deps: seq<string>, uncounted: nat,
                                closed: set<string>)
    requires root.id == "r" && a.id == "a" && a.kind == Package && a.ecosystem == "npm" && a.version == "1" &&
             a.attr == map[]
    requires var wk := Walker(map[], None);
             var r := Resolver(_ => "", c => Resolution(true, ResolvedGraph([c, Coord("npm", "b", "1")], []), Failed),
                               None);
             var s := AddEdge(AddNode(AddNode(EMPTY, root), a), Edge("r", "a", DependsOn));
             Consulted(wk, s, t, "r", r, reqs, deps, uncounted, closed)
    ensures uncounted == 1
  {
    var s := AddEdge(AddNode(AddNode(EMPTY, root), a), Edge("r", "a", DependsOn));
    FailedAnswerIsMissed(root, a);
    hide Held, AnswerHeld, IsRequirement, AreDeps, Missed, AddEdge, AddNode, Closing, Reaches;
    DepsAreUnique(s, "r", deps, ["a"]);
  }

  // Finished runs exist: on any sound graph whose root has nobody to ask and nothing pinned below it, a
  // run may end as it began.
  lemma FinishedIsPossible(wk: Walker, opts: Options, s: State, root: string)
    requires Sound(s) && root in s.nodes && s.nodes[root].ecosystem !in wk.declarers
    requires forall id :: !Pinned(s, root, id)
    ensures Finished(wk, opts, s, s, Walk(map[], {}, {}, [], Result(0, 0, 0, 0, 0, 0, 0, 0, 0)), Outset(s, root))
  {
    SoundIsListed(s);
    hide Sound, Inv, Pinned, RootDeclares, Listed;
    InvStarts(wk, opts, s, root, Walk(map[], {}, {}, [], Result(0, 0, 0, 0, 0, 0, 0, 0, 0)));
  }

  // ----- Containment -----

  // An edge that is new after the walk leaves a node the root reaches, unless it came with a resolver's
  // answer: the seed and presume phases give no other node an edge.
  lemma OnlyTheSubtreeGrows(opts: Options, s: State, seeded: State, resolved: State, t: State, root: string, e: Edge)
    requires InPhases(opts, s, seeded, resolved, t, root)
    requires e in t.edges && e !in s.edges
    ensures e.kind == DependsOn
    ensures Reaches(t.edges, DEPENDS, root, e.from) ||
            (opts.resolver.Some? && e in resolved.edges && e !in seeded.edges)
  {
    hide Reaches, NodesEvolve;
    EvolvesTransitive(s, seeded, resolved);
    EvolvesTransitive(s, resolved, t);
    if e in seeded.edges {
      ReachesMonotone(seeded.edges, t.edges, DEPENDS, root, e.from);
    }
  }

  // A package that shares nothing with this root's tree after the walk reaches what it reached before.
  lemma OtherRootsAreUntouched(opts: Options, s: State, seeded: State, resolved: State, t: State, root: string,
                               other: string)
    requires InPhases(opts, s, seeded, resolved, t, root) && opts.resolver.None?
    requires forall y :: Reaches(s.edges, DEPENDS, other, y) ==> !Reaches(t.edges, DEPENDS, root, y)
    ensures forall y :: Reaches(t.edges, DEPENDS, other, y) <==> Reaches(s.edges, DEPENDS, other, y)
  {
    hide Reaches, NodesEvolve, InPhases;
    StaysInside(opts, s, seeded, resolved, t, root);
    forall y | Reaches(s.edges, DEPENDS, other, y)
      ensures Reaches(t.edges, DEPENDS, other, y)
    {
      ReachesMonotone(s.edges, t.edges, DEPENDS, other, y);
    }
    forall y | Reaches(t.edges, DEPENDS, other, y)
      ensures Reaches(s.edges, DEPENDS, other, y)
    {
      OutsideStays(s.edges, t.edges, root, other, y);
    }
  }

  // Told beforehand: take any region that holds the root's tree and covers what its manifest and its nodes
  // declare, whichever published versions are presumed.  What is outside it is untouched, if other roots
  // have the same ecosystem or not.
  lemma OutsideIsUntouched(wk: Walker, opts: Options, s: State, t: State, root: string, run: Run, other: string,
                           p: Region)
    requires Ran(wk, opts, s, t, root, run) && opts.resolver.None? && Encloses(wk, opts, s, root, p)
    requires forall y :: Reaches(s.edges, DEPENDS, other, y) ==> y !in p.ids
    ensures forall y :: Reaches(t.edges, DEPENDS, other, y) <==> Reaches(s.edges, DEPENDS, other, y)
  {
    hide Finished, InSeed, ResolverDid, InLayers, InBound, InPhases, Reaches, Encloses, ClosedIn;
    FinishedParts(wk, opts, s, t, run.w, run.tr);
    hide Explained, Sound, Evolves, WalkContained, NamesAnswer, Accounted, NewAccounted, Counted, Heard, NothingLost;
    RootIsIn(wk, opts, s, root, p);
    forall y | Reaches(s.edges, DEPENDS, other, y)
      ensures !Reaches(t.edges, DEPENDS, root, y)
    {
      if Reaches(t.edges, DEPENDS, root, y) {
        StaysInRegion(t, p, root, y);
      }
    }
    OtherRootsAreUntouched(opts, s, run.seeded, run.resolved, t, root, other);
  }

  lemma StaysInside(opts: Options, s: State, seeded: State, resolved: State, t: State, root: string)
    requires InPhases(opts, s, seeded, resolved, t, root) && opts.resolver.None?
    ensures Inside(s.edges, t.edges, root) && EdgesEvolve(s.edges, t.edges)
  {
    hide Reaches, NodesEvolve;
    ProgressTransitive(s, seeded, t, root);
  }

  lemma OutsideStays(es: seq<Edge>, fs: seq<Edge>, root: string, other: string, y: string)
    requires Inside(es, fs, root) && Reaches(fs, DEPENDS, other, y)
    requires forall z :: Reaches(es, DEPENDS, other, z) ==> !Reaches(fs, DEPENDS, root, z)
    ensures Reaches(es, DEPENDS, other, y)
  {
    hide Reaches;
    ReachesSelf(es, DEPENDS, other);
    var before := set z | z in Universe(es, other) && Reaches(es, DEPENDS, other, z);
    forall u, v | u in before && Hop(fs, DEPENDS, u, v)
      ensures v in before
    {
      var k :| k in DEPENDS && Edge(u, v, k) in fs;
      assert Edge(u, v, k) in es;
      assert Hop(es, DEPENDS, u, v);
      ReachesStep(es, DEPENDS, other, u, v);
    }
    ClosedHoldsReachable(fs, DEPENDS, before, other, y);
  }

  // ----- End to end: expansion cannot gate -----

  // Findings on nodes the walk created with a version never change the exit code: it is the one the
  // other findings gave on the graph as it was.
  lemma ExpansionCannotGate(s: State, t: State, before: seq<Finding>, after: seq<Finding>, incomplete: bool,
                            policy: Verdict.Policy)
    requires Evolves(s, t)
    requires forall f :: f in before ==> f in after && (f.nodeId in s.nodes || f.nodeId !in t.nodes)
    requires forall f :: f in after && f !in before ==>
               f.nodeId in t.nodes && f.nodeId !in s.nodes && t.nodes[f.nodeId].version != ""
    ensures ExitCode(t.nodes, after, incomplete, policy) == ExitCode(s.nodes, before, incomplete, policy)
  {
    hide Evolved, ExitCode, EdgesEvolve;
    forall f | f in after && f !in before
      ensures Verdict.OnPresumedNode(t.nodes, f)
    {
      assert GoodNew(t.nodes[f.nodeId]);
    }
    ExitCodeIgnoresPresumed(t.nodes, after, before, incomplete, policy);
    SameCodeForExisting(s.nodes, t.nodes, before, incomplete, policy);
  }

  lemma SameCodeForExisting(a: map<string, Node>, b: map<string, Node>, fs: seq<Finding>, incomplete: bool,
                            policy: Verdict.Policy)
    requires NodesEvolve(a, b)
    requires forall f :: f in fs ==> f.nodeId in a || f.nodeId !in b
    ensures ExitCode(b, fs, incomplete, policy) == ExitCode(a, fs, incomplete, policy)
  {
    forall f | f in fs
      ensures Verdict.OnPresumedNode(a, f) <==> Verdict.OnPresumedNode(b, f)
    {
      if f.nodeId in a {
        assert Evolved(a[f.nodeId], b[f.nodeId]);
      }
    }
    hide NodesEvolve, Verdict.OnPresumedNode;
    assert forall f :: f in fs ==> (Blocks(a, f) <==> Blocks(b, f)) && (Gates(a, f) <==> Gates(b, f));
    hide Blocks, Gates;
  }

  // The whole walk, then the verdict.
  lemma WalkCannotGate(wk: Walker, opts: Options, s: State, t: State, w: Walk, tr: Trace, before: seq<Finding>,
                       after: seq<Finding>,
                       incomplete: bool, policy: Verdict.Policy)
    requires Finished(wk, opts, s, t, w, tr)
    requires forall f :: f in before ==> f in after && (f.nodeId in s.nodes || f.nodeId !in t.nodes)
    requires forall f :: f in after && f !in before ==>
               f.nodeId in t.nodes && f.nodeId !in s.nodes && t.nodes[f.nodeId].version != ""
    ensures ExitCode(t.nodes, after, incomplete, policy) == ExitCode(s.nodes, before, incomplete, policy)
  {
    hide Inv, RootDeclares, Pinned, ExitCode, Evolves;
    FinishedParts(wk, opts, s, t, w, tr);
    ExpansionCannotGate(s, t, before, after, incomplete, policy);
  }

  // No finding on a node can change an exit code exactly when its version is presumed or asserted: a
  // contested node, or one left without a version, still gates.
  lemma GatesExactlyWhenNotPresumed(nodes: map<string, Node>, id: string)
    requires id in nodes
    ensures nodes[id].Presumed() <==>
              forall f: Finding, policy :: f.nodeId == id ==>
                ExitCode(nodes, [f], false, policy) == ExitCode(nodes, [], false, policy)
  {
    if nodes[id].Presumed() {
      forall f: Finding, policy: Verdict.Policy | f.nodeId == id
        ensures ExitCode(nodes, [f], false, policy) == ExitCode(nodes, [], false, policy)
      {
        ExitCodeIgnoresPresumed(nodes, [f], [], false, policy);
      }
    } else {
      var f := Finding("", Info, Block, 0.0, 0.0, id, "", "", [], false);
      var policy := Verdict.Policy(false, false, []);
      assert f in [f] && Blocks(nodes, f);
      assert ExitCode(nodes, [f], false, policy) != ExitCode(nodes, [], false, policy);
    }
  }

  // A node the walk creates for constraints that admit nothing is not presumed, so it can gate.
  lemma ContestedCanGate(id: string, ecosystem: string, name: string, depth: int, constraint: string)
    ensures var n := NewChild(id, ecosystem, name, "", false, depth, TRUTH_CONTESTED, "", constraint, "");
            && GoodNew(n) && !n.Presumed()
            && exists f: Finding, policy :: f.nodeId == id &&
                ExitCode(map[id := n], [f], false, policy) != ExitCode(map[id := n], [], false, policy)
  {
    var n := NewChild(id, ecosystem, name, "", false, depth, TRUTH_CONTESTED, "", constraint, "");
    hide ExitCode;
    GatesExactlyWhenNotPresumed(map[id := n], id);
  }
}
