// One root's whole walk: seed, ask the resolver, then layer after layer until nothing is queued or the
// depth bound cuts the walk short. What each layer heard and did is kept in a log,
// so that whole runs can be spoken of.
module Expand {
  import opened Prelude
  import opened Findings
  import opened GraphTypes
  import opened Reach
  import opened GraphState
  import opened GraphStore
  import opened DeclaredDeps
  import opened ExpandTypes
  import opened ExpandRegion
  import opened ExpandLedger
  import opened ExpandSteps
  import opened ExpandTally
  import opened ExpandChoices
  import opened ExpandSeed
  import opened ExpandLayers
  import opened ExpandCreate
  import opened ExpandLog
  import opened ExpandAsserted
  import opened ExpandResolver

  // Between two phases: nothing is half done.
  ghost predicate AtRest(wk: Walker, opts: Options, s: State, w: Walk, tr: Trace) {
    Inv(wk, opts, s, w, tr) && tr.pending == {} && tr.owed == map[] && tr.batch == {}
  }

  // What phases may change in the trace of a run.
  ghost predicate Continues(tr0: Trace, tr: Trace) {
    && tr.before == tr0.before && tr.root == tr0.root
    && tr0.read <= tr.read && tr0.closed <= tr.closed && tr0.queued <= tr.queued && tr0.told <= tr.told
  }

  // ----- Setting out -----

  // Counters before anything is counted.
  const NOTHING := Result(0, 0, 0, 0, 0, 0, 0, 0, 0)

  // The packages below the root that lockfiles pinned and a registry can be asked about.
  ghost predicate Pinned(s: State, root: string, id: string) {
    && id in s.nodes && Reaches(s.edges, DEPENDS, root, id)
    && s.nodes[id].kind == Package && s.nodes[id].version != "" && RegistryQueryable(s.nodes[id])
    && s.nodes[id].VersionTruth() != TRUTH_ASSERTED
  }

  // The names of the packages below the root.
  ghost predicate AreNames(wk: Walker, s: State, root: string, byName: map<NameKey, string>) {
    forall k :: k in byName <==> exists id :: Reaches(s.edges, DEPENDS, root, id) && IsNamed(wk, s.nodes, id, k)
  }

  // Indexes the subtree by name and queues what it already holds, and nothing else.
  method SetOut(wk: Walker, opts: Options, g: Graph, root: string) returns (w: Walk, ghost tr: Trace)
    requires Sound(g.View()) && root in g.nodes
    modifies g`nodes
    ensures AtRest(wk, opts, g.View(), w, tr) && Progress(old(g.View()), g.View(), root) &&
            g.nodes.Keys == old(g.nodes).Keys
    ensures tr == Outset(old(g.View()), root).(queued := tr.queued)
    ensures forall id :: id in tr.queued <==> Pinned(old(g.View()), root, id)
    ensures forall id :: id in tr.queued <==> id in w.frontier
    ensures AreNames(wk, old(g.View()), root, w.byName) && w.expanded == {} && w.res == NOTHING
  {
    hide Sound, Inv, Progress, Reaches, NamesAnswer, Starts, RegistryQueryable, IsNamed;
    ghost var s0 := g.View();
    var inSubtree := Subtree(g.edges, root);
    var byName := IndexNames(wk, g.nodes, inSubtree);
    w := Walk(byName, inSubtree, {}, [], NOTHING);
    InvStarts(wk, opts, s0, root, w);
    tr := Outset(s0, root);
    w, tr := StartFrontier(wk, opts, g, root, w, tr);
    hide Pinned;
    forall id
      ensures Pinned(s0, root, id) <==> Starts(s0.nodes, id, inSubtree)
    {
      PinnedStarts(s0, root, id, inSubtree);
    }
  }

  lemma PinnedStarts(s: State, root: string, id: string, inSubtree: set<string>)
    requires Sound(s) && forall y :: y in inSubtree <==> Reaches(s.edges, DEPENDS, root, y)
    ensures Pinned(s, root, id) <==> Starts(s.nodes, id, inSubtree)
  {
    hide Reaches, Indexed, NulFree, RegistryQueryable;
  }

  // ----- One layer -----

  method Layer(wk: Walker, opts: Options, g: Graph, w0: Walk, ghost tr0: Trace)
    returns (w: Walk, ghost tr: Trace, ghost rec: LayerRecord)
    requires CleanWalker(wk) && AtRest(wk, opts, g.View(), w0, tr0)
    modifies g
    ensures AtRest(wk, opts, g.View(), w, tr) && Progress(old(g.View()), g.View(), tr0.root)
    ensures Continues(tr0, tr) && tr == tr0.(read := tr.read, queued := tr.queued, told := tr.told, layer := tr.layer,
            front := tr.front)
    ensures HeardSince(wk, g.nodes, tr0.(layer := {}), tr) && LayerDid(wk, opts, g.View(), tr0.root, rec)
    ensures rec.heard == tr.layer && rec.created == g.nodes.Keys - old(g.nodes).Keys
    ensures Advances(wk, g.nodes, w0, w, tr0, tr, rec) && Tallies(old(g.nodes), g.nodes, w0.res, w.res)
  {
    hide Inv, Progress, Reading, CleanWalker, DrawnAs, Gathers, HeardSince, AllMade, QueueOk, Accumulated, Chose,
         FrontierExpanded, Tallies;
    ghost var s0 := g.View();
    var queue, order;
    w, queue, order, tr := ReadLayer(wk, opts, g, w0, tr0);
    ghost var s1, w1, tr1 := g.View(), w, tr;
    ReadingKnows(wk, opts, s0, s1, w0, w, queue, order, tr0.(layer := {}), tr);
    TalliesSame(s0.nodes, s1.nodes, w0.res, w.res);
    ghost var chosen;
    w, tr, chosen := CreateLayer(wk, opts, g, queue, order, w, tr);
    ProgressTransitive(s0, s1, g.View(), tr0.root);
    ProgressNodes(s0, s1, tr0.root);
    ProgressNodes(s1, g.View(), tr0.root);
    TalliesTransitive(s0.nodes, s1.nodes, g.nodes, w0.res, w1.res, w.res);
    HeardSinceStays(wk, s1, g.View(), tr0.root, tr0.(layer := {}), tr1, tr);
    rec := LayerRecord(tr.layer, w0.byName, chosen, g.nodes.Keys - s0.nodes.Keys, w.expanded,
                       set id | id in w.frontier);
    assert Answered(wk, opts, g.View(), tr0.root, rec, queue);
    StillExpanded(wk, s0, g.View(), tr0.root, w0.frontier, w1.expanded);
    ChosenNext(wk, g.nodes, w1, w, tr1, tr, chosen, rec.next);
  }

  // A layer that starts with nothing queued queues what its choices lead to.
  lemma ChosenNext(wk: Walker, nodes: map<string, Node>, w0: Walk, w: Walk, tr0: Trace, tr: Trace, chosen: Choices,
                   next: set<string>)
    requires Chose(wk, nodes, w0, w, tr0, tr, chosen) && w0.frontier == [] && next == set id | id in w.frontier
    ensures w.expanded == w0.expanded && forall k :: k in chosen ==> IsThere(wk, nodes, k, chosen[k])
    ensures forall id :: id in next <==> IsNext(wk, nodes, w.expanded, chosen, id)
    ensures forall id :: id in tr.queued <==> id in tr0.queued || id in next
    ensures (forall k :: k in w0.byName ==> k in w.byName) && forall k :: k in w.byName ==>
              k in w0.byName || k in chosen
  {
    hide IsNext, IsThere, Leads;
  }

  lemma StillExpanded(wk: Walker, s: State, t: State, root: string, frontier: seq<string>, expanded: set<string>)
    requires FrontierExpanded(wk, s.nodes, frontier, expanded) && Progress(s, t, root)
    ensures forall x :: x in frontier && x in t.nodes && t.nodes[x].ecosystem in wk.declarers ==> x in expanded
  {
    hide Progress;
    forall x | x in frontier
      ensures x in t.nodes && t.nodes[x].ecosystem == s.nodes[x].ecosystem
    {
      ProgressKeeps(s, t, root, x);
    }
  }

  lemma ReadingKnows(wk: Walker, opts: Options, s0: State, s: State, w0: Walk, w: Walk, queue: Queue,
                     order: seq<NameKey>, tr0: Trace, tr: Trace)
    requires Reading(wk, opts, s, w, queue, order, tr) && Gathers(wk, s0, s, tr0, tr)
    requires OnlyCounters(w0.(frontier := [], expanded := w.expanded), w)
    ensures Accumulated(wk, opts, tr.layer, queue, w0.byName) && s.nodes.Keys == s0.nodes.Keys &&
            HeardSince(wk, s.nodes, tr0, tr)
  {
    hide Inv, QueueOk, Accumulated, HeardSince, AllMayBeAsked;
  }

  // ----- The depth bound -----

  // Whatever the bound left queued is marked, and counted apart.
  method MarkRest(wk: Walker, opts: Options, g: Graph, w0: Walk, ghost tr0: Trace) returns (w: Walk, ghost tr: Trace)
    requires AtRest(wk, opts, g.View(), w0, tr0)
    modifies g`nodes
    ensures AtRest(wk, opts, g.View(), w, tr) && Progress(old(g.View()), g.View(), tr.root)
    ensures g.nodes.Keys == old(g.nodes).Keys && forall id :: id in w0.frontier ==> id in g.nodes && Marked(g.nodes[id])
    ensures w == w0.(frontier := [],
            res := w0.res.(frontier := w0.res.frontier + |w0.frontier|, depthTruncated := w0.res.depthTruncated +
                |w0.frontier|))
    ensures tr == tr0.(cut := tr.cut) && forall id :: id in tr.cut <==> id in tr0.cut || id in w0.frontier
  {
    hide Inv, Progress, Marked, Reaches, Answers, Excused;
    ghost var s0 := g.View();
    w, tr := w0, tr0;
    ProgressSelf(s0, tr.root);
    InvMembers(wk, opts, s0, w0, tr);
    for i := 0 to |w0.frontier|
      invariant Inv(wk, opts, g.View(), w, tr) && Progress(s0, g.View(), tr.root) && g.nodes.Keys == s0.nodes.Keys
      invariant tr == tr0.(cut := tr.cut) && forall id :: id in tr.cut <==> id in tr0.cut || id in w0.frontier[..i]
      invariant forall j :: 0 <= j < i ==> w0.frontier[j] in g.nodes && Marked(g.nodes[w0.frontier[j]])
      invariant w == w0.(res := w0.res.(frontier := w0.res.frontier + i, depthTruncated := w0.res.depthTruncated + i))
    {
      ghost var s := g.View();
      assert w0.frontier[i] in w0.frontier && w0.frontier[..i + 1] == w0.frontier[..i] + [w0.frontier[i]];
      InvCuts(wk, opts, s, w, tr, w0.frontier[i]);
      w := w.(res := w.res.(depthTruncated := w.res.depthTruncated + 1));
      tr := tr.(cut := tr.cut + {w0.frontier[i]});
      MarkFrontier(wk, opts, g, w0.frontier[i], w, tr);
      forall j | 0 <= j < i
        ensures w0.frontier[j] in g.nodes && Marked(g.nodes[w0.frontier[j]])
      {
        MarkStays(s, g.View(), tr.root, w0.frontier[j]);
      }
      ProgressTransitive(s0, s, g.View(), tr.root);
      var res := w.res.(frontier := w.res.frontier + 1);
      InvCounters(wk, opts, g.View(), w, tr, res);
      w := w.(res := res);
    }
    assert w0.frontier[..|w0.frontier|] == w0.frontier;
    InvDrains(wk, opts, g.View(), w, tr);
    w := w.(frontier := []);
  }

  lemma MarkStays(s: State, t: State, root: string, id: string)
    requires Progress(s, t, root) && id in s.nodes && Marked(s.nodes[id])
    ensures id in t.nodes && Marked(t.nodes[id])
  {
    ProgressEvolved(s, t, root, id);
  }

  lemma InvDrains(wk: Walker, opts: Options, s: State, w: Walk, tr: Trace)
    requires Inv(wk, opts, s, w, tr) && tr.batch == {}
    requires forall i :: 0 <= i < |w.frontier| ==> w.frontier[i] in s.nodes && Marked(s.nodes[w.frontier[i]])
    ensures Inv(wk, opts, s, w.(frontier := []), tr)
  {
    hide Sound, Explained, Confines, Evolves, Reaches, NamesAnswer, WasTold, NothingLost, NewAccounted, Counted,
         Marked;
  }

  // ----- The resolver -----

  // The question for the root as a whole, seeded with its direct dependencies, and whether it has an
  // answer.
  function LocalQuestion(n: Node, reqs: seq<Coord>): LocalRoot {
    LocalRoot(CoordOf(n), reqs, n.attr)
  }

  predicate AnswersLocally(r: Resolver, n: Node, reqs: seq<Coord>) {
    r.localRoot.Some? && reqs != [] && r.localRoot.value(LocalQuestion(n, reqs)).found
  }

  // What consulting the resolver leaves behind.  Where it answered for the root as a whole, all of that
  // answer is in the graph and everything below the root is closed.  Else all its answers for the
  // dependencies worth asking about are; those are closed that it answered for without failing, naming
  // what the graph lacked; and what failed answers added is in no counter.
  ghost predicate Consulted(wk: Walker, s: State, t: State, root: string, r: Resolver, reqs: seq<Coord>,
                            deps: seq<string>, uncounted: nat, closed: set<string>) {
    && root in s.nodes && (forall c :: c in reqs <==> IsRequirement(s, root, c))
    && if AnswersLocally(r, s.nodes[root], reqs) then
         && uncounted == 0 && Held(wk, t, r.localRoot.value(LocalQuestion(s.nodes[root], reqs)).graph)
         && forall y :: y in closed <==> Reaches(t.edges, DEPENDS, root, y)
       else
         && AreDeps(s, root, deps) && uncounted == Missed(wk, r, s.nodes, deps)
         && (forall y :: y in deps ==> AnswerHeld(wk, t, r, s.nodes[y]))
         && forall y :: y in closed <==> Closing(wk, r, s.nodes, deps, |deps|, y)
  }

  // The asserted tier: the whole build list at once when the resolver can, else per dependency.
  method Resolve(wk: Walker, opts: Options, g: Graph, root: string, r: Resolver, w0: Walk,
                 ghost tr0: Trace) returns (w: Walk, ghost tr: Trace)
    requires CleanWalker(wk) && CleanResolver(r) && AtRest(wk, opts, g.View(), w0, tr0) && root == tr0.root &&
             root in g.nodes
    requires opts.resolver == Some(r) && tr0.closed == {} && tr0.uncounted == 0
    modifies g
    ensures AtRest(wk, opts, g.View(), w, tr) && Evolves(old(g.View()), g.View())
    ensures Continues(tr0, tr) && OnlyClosed(w0, w, tr0, tr)
    ensures MergedSince(wk, tr0, tr, old(g.nodes), g.nodes) && Tallies(old(g.nodes), g.nodes, w0.res, w.res)
    ensures exists reqs, deps :: Consulted(wk, old(g.View()), g.View(), root, r, reqs, deps, tr.uncounted, tr.closed)
  {
    hide Inv, Evolves, CleanWalker, CleanResolver, IsRequirement, Closing, Hop, Reaches, MergedSince, Folded,
         AnswerHeld, WorthAsking, Held, CoordOf, AreDeps, Missed, KeysAfter;
    var handled;
    ghost var reqs, deps;
    ghost var s0 := g.View();
    handled, w, tr, reqs := AssertLocalRoot(wk, opts, g, root, r, w0, tr0);
    if !handled {
      w, tr, deps := AssertDirectSubtrees(wk, opts, g, root, r, w, tr);
    } else {
      deps := [];
      var n := s0.nodes[root];
      FoldedIsHeld(wk, s0, g.View(), r.localRoot.value(LocalRoot(CoordOf(n), reqs, n.attr)), n.depth,
                   r.nameFor(n.ecosystem), w.res.unread - w0.res.unread);
    }
    assert Consulted(wk, s0, g.View(), root, r, reqs, deps, tr.uncounted, tr.closed);
    ResolverTallies(wk, s0.nodes, g.nodes, w0, w, tr0, tr);
  }

  // What a resolver adds is neither presumed nor contested.
  lemma ResolverTallies(wk: Walker, a: map<string, Node>, b: map<string, Node>, w0: Walk, w: Walk, tr0: Trace,
                        tr: Trace)
    requires OnlyClosed(w0, w, tr0, tr) && MergedSince(wk, tr0, tr, a, b)
    ensures Tallies(a, b, w0.res, w.res)
  {
    assert forall id :: id in b && id !in a ==> IsResolved(wk, id, b[id]);
    hide MergedId, CoordOf;
    TalliesOthers(a, b, w0.res, w.res);
  }

  // ----- The walk -----

  // What a finished walk answers for, node by node and declaration by declaration.
  ghost predicate Finished(wk: Walker, opts: Options, s: State, t: State, w: Walk, tr: Trace) {
    && AtRest(wk, opts, t, w, tr) && Listed(s) && tr.before == s && w.frontier == [] && tr.cut <= tr.queued
    && (forall id :: Pinned(s, tr.root, id) ==> id in tr.queued)
    && (tr.root in s.nodes && s.nodes[tr.root].ecosystem in wk.declarers ==>
          forall dd :: dd in RootDeclares(s.nodes[tr.root]) ==> (tr.root, AsDeclaration(dd)) in tr.told)
  }

  // The graph before, after seeding, after the resolver, and at the end: every phase but the
  // resolver's stays inside the root's subtree.
  ghost predicate InPhases(opts: Options, s: State, seeded: State, resolved: State, t: State, root: string) {
    && Progress(s, seeded, root) && Evolves(seeded, resolved) && Progress(resolved, t, root)
    && (opts.resolver.None? ==> resolved == seeded)
  }

  // What the resolver closed and merged.
  ghost predicate ResolverDid(wk: Walker, opts: Options, seeded: State, resolved: State, root: string, tr: Trace) {
    match opts.resolver
    case None => tr.closed == {} && tr.merged == {} && tr.uncounted == 0
    case Some(r) =>
      && tr.merged == resolved.nodes.Keys - seeded.nodes.Keys && NewAsserted(wk, seeded.nodes, resolved.nodes)
      && exists reqs, deps :: Consulted(wk, seeded, resolved, root, r, reqs, deps, tr.uncounted, tr.closed)
  }

  // What happened before the layers: what lockfiles pinned was queued; a version was chosen for each
  // package that the manifest names and the subtree lacked, and what these lead to was queued.
  datatype SeedRecord = SeedRecord(byName: map<NameKey, string>, chosen: Choices)

  ghost predicate InSeed(wk: Walker, opts: Options, s: State, seeded: State, root: string, seed: SeedRecord,
                         from: Departure, closed: set<string>) {
    && root in s.nodes && AreNames(wk, s, root, seed.byName)
    && (forall k :: k in seed.chosen ==> k !in seed.byName && ManifestLeads(wk, opts, s.nodes[root], k, seed.chosen[k]))
    && (s.nodes[root].ecosystem in wk.declarers ==>
          forall dd :: dd in RootDeclares(s.nodes[root]) ==>
              IsSeeded(wk, s.nodes[root].ecosystem, dd, seed.byName, seed.chosen))
    && (forall k :: k in seed.chosen ==> IsThere(wk, seeded.nodes, k, seed.chosen[k]))
    && (forall id :: id in from.queued <==> Pinned(s, root, id) || IsNext(wk, seeded.nodes, {}, seed.chosen, id))
    && (forall k :: k in seed.byName ==> k in from.byName)
    && (forall k, id :: k in seed.chosen && Identifies(wk, k, seed.chosen[k], id) ==> k in from.byName)
    && CameFrom(wk, s.nodes.Keys, seeded.nodes.Keys, seed.chosen)
    && (closed == {} ==> forall k :: k in from.byName ==> k in seed.byName || k in seed.chosen)
    && from.expanded == closed
  }

  // The depth bound cuts only what the last layer queued, when there were as many as it allows.
  ghost predicate InBound(opts: Options, tr: Trace, from: Departure, log: seq<LayerRecord>) {
    && |log| <= DepthBound(opts) && tr.cut <= FrontierAt(from, log, |log|)
    && (tr.cut != {} ==> |log| == DepthBound(opts))
  }

  function DepthBound(opts: Options): nat {
    if opts.maxDepth <= 0 then DEFAULT_MAX_DEPTH else opts.maxDepth
  }

  lemma SoundIsListed(s: State)
    requires Sound(s)
    ensures Listed(s)
  {
  }

  // Layer after layer, until nothing is queued or the bound is reached; then the bound is accounted for.
  method WalkLayers(wk: Walker, opts: Options, g: Graph, maxDepth: nat, w0: Walk, ghost tr0: Trace)
    returns (w: Walk, ghost tr: Trace, ghost log: seq<LayerRecord>)
    requires CleanWalker(wk) && AtRest(wk, opts, g.View(), w0, tr0)
    requires tr0.read == {} && tr0.cut == {} && forall p :: p in tr0.told ==> p.0 == tr0.root
    requires forall id :: id in tr0.queued <==> id in w0.frontier
    modifies g
    ensures AtRest(wk, opts, g.View(), w, tr) && Progress(old(g.View()), g.View(), tr0.root) && w.frontier == []
    ensures Continues(tr0, tr) && tr.closed == tr0.closed && tr.merged == tr0.merged && tr.uncounted == tr0.uncounted
    ensures var from := Departure(tr0.queued, w0.byName, w0.expanded);
            && InLayers(wk, opts, old(g.View()), g.View(), tr, from, log)
            && tr.cut <= FrontierAt(from, log, |log|) && tr.cut <= tr.queued
    ensures |log| <= maxDepth && (tr.cut != {} ==> |log| == maxDepth)
    ensures Tallies(old(g.nodes), g.nodes, w0.res, w.res)
  {
    hide Inv, Progress, CleanWalker, InLayers, HeardSince, LayerDid, Marked, StandsAt, Advances, FrontierAt, Tallies;
    ghost var s0 := g.View();
    ghost var from := Departure(tr0.queued, w0.byName, w0.expanded);
    w, tr, log := w0, tr0, [];
    LayersStart(wk, opts, s0, w, tr);
    ProgressSelf(s0, tr.root);
    TalliesSame(s0.nodes, s0.nodes, w.res, w.res);
    var depth := 0;
    while depth < maxDepth && w.frontier != []
      invariant AtRest(wk, opts, g.View(), w, tr) && Progress(s0, g.View(), tr0.root)
      invariant Continues(tr0, tr) && tr.closed == tr0.closed && tr.merged == tr0.merged &&
                tr.uncounted == tr0.uncounted
      invariant InLayers(wk, opts, s0, g.View(), tr, from, log) && StandsAt(from, log, w, tr.queued)
      invariant |log| == depth <= maxDepth && tr.cut == {} && Tallies(s0.nodes, g.nodes, w0.res, w.res)
      decreases maxDepth - depth
    {
      ghost var s, w1, before := g.View(), w, tr;
      ghost var rec;
      QueuedAreNodes(wk, opts, s, w, tr);
      w, tr, rec := Layer(wk, opts, g, w, tr);
      LayersGrow(wk, opts, s0, s, g.View(), w1, w, before, tr, from, log, rec);
      LayerTallies(s0, s, g.View(), tr0.root, w0.res, w1.res, w.res);
      ProgressTransitive(s0, s, g.View(), tr0.root);
      log := log + [rec];
      depth := depth + 1;
    }
    ghost var s, w1, walked := g.View(), w, tr;
    FrontierWasQueued(wk, opts, s, w, tr);
    QueuedAreNodes(wk, opts, s, w, tr);
    w, tr := MarkRest(wk, opts, g, w, tr);
    LayersKeep(wk, opts, s0, s, g.View(), walked, tr, from, log);
    StandsFrontier(from, log, w1, walked.queued);
    TalliesSame(s.nodes, g.nodes, w1.res, w.res);
    LayerTallies(s0, s, g.View(), tr0.root, w0.res, w1.res, w.res);
    ProgressTransitive(s0, s, g.View(), tr0.root);
  }

  lemma LayerTallies(s0: State, s: State, t: State, root: string, r0: Result, r1: Result, r: Result)
    requires Progress(s0, s, root) && Progress(s, t, root)
    requires Tallies(s0.nodes, s.nodes, r0, r1) && Tallies(s.nodes, t.nodes, r1, r)
    ensures Tallies(s0.nodes, t.nodes, r0, r)
  {
    ProgressNodes(s0, s, root);
    ProgressNodes(s, t, root);
    hide Progress, Tallies, NodesEvolve;
    TalliesTransitive(s0.nodes, s.nodes, t.nodes, r0, r1, r);
  }

  lemma StandsFrontier(from: Departure, log: seq<LayerRecord>, w: Walk, queued: set<string>)
    requires StandsAt(from, log, w, queued)
    ensures forall id :: id in w.frontier <==> id in FrontierAt(from, log, |log|)
  {
    hide KnownBefore, QueuedIn;
  }

  // Everything a run leaves behind beside the graph.
  datatype Run = Run(
    w: Walk,
    tr: Trace,
    seeded: State,
    resolved: State,
    seed: SeedRecord,
    from: Departure,
    log: seq<LayerRecord>)

  // A run from s to t, phase by phase.
  ghost predicate Ran(wk: Walker, opts: Options, s: State, t: State, root: string, run: Run) {
    && run.tr.root == root && Finished(wk, opts, s, t, run.w, run.tr)
    && InPhases(opts, s, run.seeded, run.resolved, t, root)
    && InSeed(wk, opts, s, run.seeded, root, run.seed, run.from, run.tr.closed)
    && ResolverDid(wk, opts, run.seeded, run.resolved, root, run.tr)
    && InLayers(wk, opts, run.resolved, t, run.tr, run.from, run.log)
    && InBound(opts, run.tr, run.from, run.log)
    && Tallies(s.nodes, t.nodes, NOTHING, run.w.res)
  }

  // Everything before the layers: setting out, seeding, and consulting the resolver.
  method BeforeLayers(wk: Walker, opts: Options, g: Graph, root: string)
    returns (w: Walk, ghost tr: Trace, ghost seeded: State, ghost seed: SeedRecord)
    requires CleanWalker(wk) && Sound(g.View()) && root in g.nodes
    requires opts.resolver.Some? ==> CleanResolver(opts.resolver.value)
    modifies g
    ensures AtRest(wk, opts, g.View(), w, tr) && Progress(old(g.View()), seeded, root) && Evolves(seeded, g.View())
    ensures opts.resolver.None? ==> g.View() == seeded
    ensures tr.before == old(g.View()) && tr.root == root && tr.read == {} && tr.cut == {}
    ensures forall p :: p in tr.told ==> p.0 == root
    ensures old(g.nodes)[root].ecosystem in wk.declarers ==>
              forall dd :: dd in RootDeclares(old(g.nodes)[root]) ==> (root, AsDeclaration(dd)) in tr.told
    ensures forall id :: Pinned(old(g.View()), root, id) ==> id in tr.queued
    ensures forall id :: id in tr.queued <==> id in w.frontier
    ensures InSeed(wk, opts, old(g.View()), seeded, root, seed, Departure(tr.queued, w.byName, w.expanded), tr.closed)
    ensures ResolverDid(wk, opts, seeded, g.View(), root, tr)
    ensures Tallies(old(g.nodes), g.nodes, NOTHING, w.res)
  {
    hide Consulted, Inv, Progress, Evolves, Sound, CleanWalker, CleanResolver, Pinned, RootDeclares, InSeed, SeedDid,
         AreNames, OnlyClosed, NewAsserted, Tallies;
    ghost var s0 := g.View();
    w, tr := SetOut(wk, opts, g, root);
    ghost var s1, w1, tr1 := g.View(), w, tr;
    TalliesSame(s0.nodes, s1.nodes, NOTHING, w.res);
    RootKept(s0, s1, root);
    ghost var chosen;
    w, tr, chosen := Seed(wk, opts, g, root, w, tr);
    ghost var w2, tr2 := w, tr;
    seeded := g.View();
    LayerTallies(s0, s1, seeded, root, NOTHING, w1.res, w.res);
    ProgressTransitive(s0, s1, seeded, root);
    RootKept(s1, seeded, root);
    EvolvesSelf(seeded);
    NothingClosed(w, tr);
    if opts.resolver.Some? {
      w, tr := Resolve(wk, opts, g, root, opts.resolver.value, w, tr);
      EvolvedTallies(s0, seeded, g.View(), root, NOTHING, w2.res, w.res);
    } else {
      NobodyMerged(wk, seeded.nodes);
    }
    OnlyClosedKeeps(w2, w, tr2, tr);
    SeedPhase(wk, opts, s0, s1, seeded, root, w1, w2, w, tr1, tr2, tr, chosen);
    seed := SeedRecord(w1.byName, chosen);
  }

  lemma EvolvedTallies(s0: State, s: State, t: State, root: string, r0: Result, r1: Result, r: Result)
    requires Progress(s0, s, root) && Evolves(s, t)
    requires Tallies(s0.nodes, s.nodes, r0, r1) && Tallies(s.nodes, t.nodes, r1, r)
    ensures Tallies(s0.nodes, t.nodes, r0, r)
  {
    ProgressNodes(s0, s, root);
    EvolvesNodes(s, t);
    hide Progress, Evolves, Tallies, NodesEvolve;
    TalliesTransitive(s0.nodes, s.nodes, t.nodes, r0, r1, r);
  }

  lemma NobodyMerged(wk: Walker, nodes: map<string, Node>)
    ensures NewAsserted(wk, nodes, nodes)
  {
  }

  lemma OnlyClosedKeeps(w0: Walk, w: Walk, tr0: Trace, tr: Trace)
    requires OnlyClosed(w0, w, tr0, tr)
    ensures tr == tr0.(closed := tr.closed, merged := tr.merged, uncounted := tr.uncounted) && w.frontier == w0.frontier
  {
  }

  method ExpandRoot(wk: Walker, opts: Options, g: Graph, root: string) returns (res: Result, ghost run: Run)
    requires CleanWalker(wk) && Sound(g.View()) && root in g.nodes
    requires opts.resolver.Some? ==> CleanResolver(opts.resolver.value)
    modifies g
    ensures Ran(wk, opts, old(g.View()), g.View(), root, run) && res == run.w.res
  {
    hide Listed, Consulted, Inv, Progress, Evolves, Sound, CleanWalker, CleanResolver, Pinned, RootDeclares, InLayers,
         InSeed, NewAsserted, FrontierAt, Tallies;
    SoundIsListed(g.View());
    var maxDepth := if opts.maxDepth <= 0 then DEFAULT_MAX_DEPTH else opts.maxDepth;
    var w;
    ghost var tr, seeded, seed, log;
    w, tr, seeded, seed := BeforeLayers(wk, opts, g, root);
    ghost var resolved, from := g.View(), Departure(tr.queued, w.byName, w.expanded);
    ghost var s0, w0 := old(g.View()), w;
    w, tr, log := WalkLayers(wk, opts, g, maxDepth, w, tr);
    RunTallies(s0, seeded, resolved, g.View(), root, NOTHING, w0.res, w.res);
    res := w.res;
    run := Run(w, tr, seeded, resolved, seed, from, log);
  }

  lemma RunTallies(s0: State, seeded: State, s: State, t: State, root: string, r0: Result, r1: Result, r: Result)
    requires Progress(s0, seeded, root) && Evolves(seeded, s) && Progress(s, t, root)
    requires Tallies(s0.nodes, s.nodes, r0, r1) && Tallies(s.nodes, t.nodes, r1, r)
    ensures Tallies(s0.nodes, t.nodes, r0, r)
  {
    ProgressNodes(s0, seeded, root);
    EvolvesNodes(seeded, s);
    ProgressNodes(s, t, root);
    NodesEvolveTransitive(s0.nodes, seeded.nodes, s.nodes);
    hide Progress, Evolves, Tallies, NodesEvolve;
    TalliesTransitive(s0.nodes, s.nodes, t.nodes, r0, r1, r);
  }

  // The two phases before the resolver, put together.
  lemma SeedPhase(wk: Walker, opts: Options, s: State, s1: State, seeded: State, root: string, w1: Walk, w2: Walk,
                  w3: Walk, tr1: Trace, tr2: Trace, tr3: Trace, chosen: Choices)
    requires root in s.nodes && Progress(s, s1, root) && AreNames(wk, s, root, w1.byName) && w1.expanded == {}
    requires forall id :: id in tr1.queued <==> Pinned(s, root, id)
    requires forall id :: id in tr1.queued <==> id in w1.frontier
    requires root in s1.nodes && SeedDid(wk, opts, s1.nodes[root], seeded.nodes, w1, w2, tr1, tr2, chosen)
    requires CameFrom(wk, s1.nodes.Keys, seeded.nodes.Keys, chosen) && s1.nodes.Keys == s.nodes.Keys
    requires OnlyClosed(w2, w3, tr2, tr3) && tr2.closed == {}
    ensures InSeed(wk, opts, s, seeded, root, SeedRecord(w1.byName, chosen),
            Departure(tr3.queued, w3.byName, w3.expanded),
                   tr3.closed)
    ensures forall id :: id in tr3.queued <==> id in w3.frontier
  {
    hide Progress, AreNames, Pinned, IsNext, Leads, IsThere, RootDeclares, IsSeeded, ManifestLeads;
    RootKept(s, s1, root);
    SameManifestLeads(wk, opts, s.nodes[root], s1.nodes[root]);
  }

  lemma SameManifestLeads(wk: Walker, opts: Options, m: Node, n: Node)
    requires n.ecosystem == m.ecosystem && RootDeclares(n) == RootDeclares(m)
    ensures forall k, v :: ManifestLeads(wk, opts, n, k, v) <==> ManifestLeads(wk, opts, m, k, v)
  {
    hide RootDeclares, Names, IsChoice;
  }

  lemma RootKept(s: State, t: State, root: string)
    requires Progress(s, t, root) && root in s.nodes
    ensures root in t.nodes && t.nodes[root].ecosystem == s.nodes[root].ecosystem &&
            RootDeclares(t.nodes[root]) == RootDeclares(s.nodes[root])
  {
    hide Decoded;
    ProgressEvolved(s, t, root, root);
  }
}
