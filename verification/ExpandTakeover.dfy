// Asserted nodes: when the walk queues one and reads beneath it, and when it never does. It keeps away from
// those it holds by name and from those a resolver closed. It comes upon the others by identifier: when a
// package it lacks by name is presumed, and the version chosen is one that the graph has already, for
// another root or from an answer that closed nothing, the node is queued however it is labelled. What a
// read node leads to is told at the end.
module ExpandTakeover {
  import opened Prelude
  import opened Findings
  import opened GraphTypes
  import opened Reach
  import opened GraphState
  import opened DeclaredDeps
  import opened ExpandTypes
  import opened ExpandRegion
  import opened ExpandLedger
  import opened ExpandSteps
  import opened ExpandChoices
  import opened ExpandSeed
  import opened ExpandLayers
  import opened ExpandCreate
  import opened ExpandAsserted
  import opened ExpandResolver
  import opened ExpandLog
  import opened Expand
  import opened ExpandTheorems

  // ----- When an asserted node is queued -----

  // A package that was not held by name had a version chosen for it, this version is the node x, and x
  // was not expanded.
  ghost predicate LacksAndLeads(wk: Walker, nodes: map<string, Node>, byName: map<NameKey, string>, chosen: Choices,
                                expanded: set<string>, x: string) {
    x !in expanded && exists k :: k in chosen && k !in byName && Leads(wk, nodes, k, chosen[k], x)
  }

  ghost predicate IsTakenOver(wk: Walker, t: State, run: Run, x: string) {
    || LacksAndLeads(wk, t.nodes, run.seed.byName, run.seed.chosen, {}, x)
    || exists i :: 0 <= i < |run.log| &&
                   LacksAndLeads(wk, t.nodes, run.log[i].byName, run.log[i].chosen, run.log[i].expanded, x)
  }

  // An asserted node is queued exactly when the manifest or a layer asked for a package that was not held
  // by name, what was presumed for that package is this node, and it was not expanded.
  lemma AssertedIsQueuedExactly(wk: Walker, opts: Options, s: State, t: State, root: string, run: Run, x: string)
    requires Ran(wk, opts, s, t, root, run) && x in t.nodes && t.nodes[x].VersionTruth() == TRUTH_ASSERTED
    ensures x in run.tr.queued <==> IsTakenOver(wk, t, run, x)
  {
    hide Finished, InPhases, ResolverDid, InBound, LacksAndLeads;
    NotPinned(wk, opts, s, t, root, run, x);
    SeedQueues(wk, opts, s, t, root, run, x);
    LayersQueue(wk, opts, s, t, root, run, x);
  }

  lemma NotPinned(wk: Walker, opts: Options, s: State, t: State, root: string, run: Run, x: string)
    requires Ran(wk, opts, s, t, root, run) && x in t.nodes && t.nodes[x].VersionTruth() == TRUTH_ASSERTED
    ensures !Pinned(s, root, x)
  {
    hide InPhases, InSeed, ResolverDid, InLayers, InBound, Inv, RootDeclares;
    FinishedParts(wk, opts, s, t, run.w, run.tr);
    hide Explained, Confines, Sound, WalkContained, NamesAnswer, Accounted, NewAccounted, Counted, Heard, NothingLost,
         Reaches;
    if x in s.nodes {
      EvolvesNodes(s, t);
      hide Evolves;
      SameTruth(s.nodes, t.nodes, x);
    }
  }

  lemma SeedQueues(wk: Walker, opts: Options, s: State, t: State, root: string, run: Run, x: string)
    requires Ran(wk, opts, s, t, root, run) && !Pinned(s, root, x)
    ensures x in run.from.queued <==> LacksAndLeads(wk, t.nodes, run.seed.byName, run.seed.chosen, {}, x)
  {
    hide Finished, ResolverDid, InLayers, InBound, Pinned, AreNames, IsSeeded, ManifestLeads, IsThere, Leads;
    SeededEvolves(wk, opts, s, t, root, run);
    hide InPhases;
    NextStays(wk, run.seeded.nodes, t.nodes, {}, run.seed.chosen);
    hide NodesEvolve;
    assert IsNext(wk, t.nodes, {}, run.seed.chosen, x) <==>
             LacksAndLeads(wk, t.nodes, run.seed.byName, run.seed.chosen, {}, x);
  }

  lemma SeededEvolves(wk: Walker, opts: Options, s: State, t: State, root: string, run: Run)
    requires Ran(wk, opts, s, t, root, run)
    ensures NodesEvolve(run.seeded.nodes, t.nodes) && NodesEvolve(run.resolved.nodes, t.nodes)
  {
    hide Finished, InSeed, ResolverDid, InLayers, InBound, NodesEvolve, EdgesEvolve, Inside;
    NodesEvolveTransitive(run.seeded.nodes, run.resolved.nodes, t.nodes);
  }

  lemma LayersQueue(wk: Walker, opts: Options, s: State, t: State, root: string, run: Run, x: string)
    requires Ran(wk, opts, s, t, root, run)
    ensures x in run.tr.queued <==>
              || x in run.from.queued
              || exists i :: 0 <= i < |run.log| &&
                   LacksAndLeads(wk, t.nodes, run.log[i].byName, run.log[i].chosen, run.log[i].expanded, x)
  {
    hide Finished, InPhases, InSeed, ResolverDid, InBound, InOrder, LayerDid, LacksAndLeads, HeardIn, HeardAt;
    forall i | 0 <= i < |run.log|
      ensures x in run.log[i].next <==>
                LacksAndLeads(wk, t.nodes, run.log[i].byName, run.log[i].chosen, run.log[i].expanded, x)
    {
      LayerQueues(wk, opts, t, root, run.log[i], x);
    }
  }

  lemma LayerQueues(wk: Walker, opts: Options, t: State, root: string, rec: LayerRecord, x: string)
    requires LayerDid(wk, opts, t, root, rec)
    ensures x in rec.next <==> LacksAndLeads(wk, t.nodes, rec.byName, rec.chosen, rec.expanded, x)
  {
    hide QueueOk, AllMade, DrawnAs, IsThere, Leads, Asked;
    var queue: Queue :| Answered(wk, opts, t, root, rec, queue);
  }

  // ----- When it never is -----

  // k is a canonical name.
  ghost predicate IsCanonical(wk: Walker, k: NameKey) {
    k.ecosystem in wk.declarers && exists n :: wk.declarers[k.ecosystem].identify(n, "").1 == k.canonical
  }

  // Only a package's own canonical name is identified as its node.
  ghost predicate IsFaithful(wk: Walker, nodes: map<string, Node>) {
    forall k, v :: IsCanonical(wk, k) && wk.declarers[k.ecosystem].identify(k.canonical, v).0 in nodes &&
                   wk.declarers[k.ecosystem].identify(k.canonical, v).0 != "" ==>
      IsNamed(wk, nodes, wk.declarers[k.ecosystem].identify(k.canonical, v).0, k)
  }

  // With such identifiers, an asserted node whose own name is held from the start is never read; and
  // neither is one that was not queued before the layers, when its name is held by then or it was closed.
  lemma HeldIsNeverRead(wk: Walker, opts: Options, s: State, t: State, root: string, run: Run, x: string, k: NameKey)
    requires Ran(wk, opts, s, t, root, run) && IsFaithful(wk, t.nodes)
    requires IsNamed(wk, t.nodes, x, k) && t.nodes[x].VersionTruth() == TRUTH_ASSERTED
    requires k in run.seed.byName || (x !in run.from.queued && (k in run.from.byName || x in run.tr.closed))
    ensures x !in run.tr.queued && x !in run.tr.read
  {
    hide Finished, InPhases, InSeed, InLayers, ResolverDid, InBound, IsFaithful, IsNamed;
    NamedIsNode(wk, t.nodes, x, k);
    NotPinned(wk, opts, s, t, root, run, x);
    SeedQueues(wk, opts, s, t, root, run, x);
    LayersQueue(wk, opts, s, t, root, run, x);
    NotSeeded(wk, opts, s, t, root, run, x, k);
    forall i | 0 <= i < |run.log|
      ensures !LacksAndLeads(wk, t.nodes, run.log[i].byName, run.log[i].chosen, run.log[i].expanded, x)
    {
      NotLayered(wk, opts, s, t, root, run, x, k, i);
    }
    hide LacksAndLeads;
    ReadWasQueued(wk, opts, s, t, root, run);
  }

  // Whatever a resolver closed is never read, queued or not, however packages are identified.
  lemma ClosedIsNeverRead(wk: Walker, opts: Options, s: State, t: State, root: string, run: Run, x: string)
    requires Ran(wk, opts, s, t, root, run) && x in run.tr.closed
    ensures x !in run.tr.read
  {
    hide Finished, InPhases, ResolverDid, InBound, Pinned, AreNames, IsNext, IsThere, LayerDid, HeardIn, KnownBefore,
         FrontierAt, Expands;
  }

  lemma NamedIsNode(wk: Walker, nodes: map<string, Node>, x: string, k: NameKey)
    requires IsNamed(wk, nodes, x, k)
    ensures x in nodes
  {
  }

  lemma ReadWasQueued(wk: Walker, opts: Options, s: State, t: State, root: string, run: Run)
    requires Ran(wk, opts, s, t, root, run)
    ensures run.tr.read <= run.tr.queued
  {
    hide Finished, InPhases, InSeed, ResolverDid, InBound, InOrder, QueuedIn, LayerDid, ReadAt;
  }

  // A choice for a package that was not held by name does not lead to x, whose name was.
  lemma OtherNamesLeadElsewhere(wk: Walker, nodes: map<string, Node>, x: string, k: NameKey, l: NameKey,
                                version: string)
    requires IsFaithful(wk, nodes) && IsNamed(wk, nodes, x, k) && IsCanonical(wk, l) && l != k
    ensures !Leads(wk, nodes, l, version, x)
  {
    hide IsCanonical;
  }

  lemma NotSeeded(wk: Walker, opts: Options, s: State, t: State, root: string, run: Run, x: string, k: NameKey)
    requires Ran(wk, opts, s, t, root, run) && IsFaithful(wk, t.nodes) && IsNamed(wk, t.nodes, x, k)
    ensures k in run.seed.byName ==> !LacksAndLeads(wk, t.nodes, run.seed.byName, run.seed.chosen, {}, x)
  {
    hide Finished, InPhases, InLayers, ResolverDid, InBound, IsFaithful, IsNamed, Leads, IsNext, Pinned, AreNames;
    if k in run.seed.byName && LacksAndLeads(wk, t.nodes, run.seed.byName, run.seed.chosen, {}, x) {
      var l :| l in run.seed.chosen && l !in run.seed.byName && Leads(wk, t.nodes, l, run.seed.chosen[l], x);
      assert ManifestLeads(wk, opts, s.nodes[root], l, run.seed.chosen[l]);
      ManifestIsCanonical(wk, opts, s.nodes[root], l, run.seed.chosen[l]);
      OtherNamesLeadElsewhere(wk, t.nodes, x, k, l, run.seed.chosen[l]);
    }
  }

  lemma ManifestIsCanonical(wk: Walker, opts: Options, n: Node, k: NameKey, version: string)
    requires ManifestLeads(wk, opts, n, k, version)
    ensures IsCanonical(wk, k)
  {
    hide RootDeclares, IsChoice;
  }

  lemma NotLayered(wk: Walker, opts: Options, s: State, t: State, root: string, run: Run, x: string, k: NameKey, i: nat)
    requires Ran(wk, opts, s, t, root, run) && IsFaithful(wk, t.nodes) && IsNamed(wk, t.nodes, x, k) && i < |run.log|
    requires k in run.seed.byName || k in run.from.byName || x in run.tr.closed
    ensures !LacksAndLeads(wk, t.nodes, run.log[i].byName, run.log[i].chosen, run.log[i].expanded, x)
  {
    hide Finished, InPhases, ResolverDid, InBound, IsFaithful, IsNamed, Leads, QueuedIn, LayerDid, HeardIn, IsNext,
         Pinned, AreNames, KnownBefore, Expands;
    var rec := run.log[i];
    if LacksAndLeads(wk, t.nodes, rec.byName, rec.chosen, rec.expanded, x) {
      assert x !in run.tr.closed && k in rec.byName;
      var l :| l in rec.chosen && l !in rec.byName && Leads(wk, t.nodes, l, rec.chosen[l], x);
      ChosenIsCanonical(wk, opts, t, root, rec, l);
      OtherNamesLeadElsewhere(wk, t.nodes, x, k, l, rec.chosen[l]);
    }
  }

  lemma ChosenIsCanonical(wk: Walker, opts: Options, t: State, root: string, rec: LayerRecord, k: NameKey)
    requires LayerDid(wk, opts, t, root, rec) && k in rec.chosen
    ensures IsCanonical(wk, k)
  {
    hide AllMade, DrawnAs, IsThere, Leads, IsNext, BelowParents, InSubtree;
    var queue: Queue :| Answered(wk, opts, t, root, rec, queue);
    assert queue[k].parents[0] in queue[k].parents;
    var c :| Asked(wk, opts, rec.heard, k, queue[k].parents[0], c);
  }

  // ----- What a read node that is not held by name leads to -----

  // Everything an answer about n says holds d.
  ghost predicate AlwaysDeclares(wk: Walker, n: Node, d: Declaration) {
    n.ecosystem in wk.declarers && forall batch :: AlwaysIn(wk.declarers[n.ecosystem], batch, CoordOf(n), d)
  }

  predicate AlwaysIn(dr: Declarer, batch: seq<Coord>, c: Coord, d: Declaration) {
    c in batch ==> dr.declared(batch).Some? && c in dr.declared(batch).value && d in dr.declared(batch).value[c]
  }

  // What a read node declares and was not held by name at the departure had a version chosen for it, by
  // the time its layer was done.
  lemma LackedIsChosen(wk: Walker, opts: Options, s: State, t: State, root: string, run: Run, a: string, d: Declaration,
                       k: NameKey) returns (i: nat, r: nat)
    requires Ran(wk, opts, s, t, root, run) && a in run.tr.read && a in t.nodes && AlwaysDeclares(wk, t.nodes[a], d)
    requires Names(wk, opts, t.nodes[a].ecosystem, d, k) && k !in run.from.byName
    ensures i <= r && ReadAt(wk, t.nodes, a, run.from, run.log, r) && k in run.log[i].chosen
  {
    hide Finished, InPhases, InSeed, ResolverDid, InBound, LayerDid, AlwaysDeclares, Names, QueuedIn, Expands, HeardIn;
    r :| ReadAt(wk, t.nodes, a, run.from, run.log, r);
    i := r;
    HeardAsks(wk, opts, t.nodes, a, run.log[i].heard, d, k);
    LayerAnswers(wk, opts, t, root, run.log[i], k, a, d.constraint);
    if k in run.log[i].byName {
      assert KnownBefore(run.from, run.log, i, k);
      var j :| 0 <= j < i && k in run.log[j].chosen;
      i := j;
    }
  }

  lemma HeardAsks(wk: Walker, opts: Options, nodes: map<string, Node>, a: string, heard: Layer, d: Declaration,
                  k: NameKey)
    requires HeardIn(wk, nodes, a, heard) && AlwaysDeclares(wk, nodes[a], d) &&
             Names(wk, opts, nodes[a].ecosystem, d, k)
    ensures Asked(wk, opts, heard, k, a, d.constraint)
  {
    hide Names, CoordOf;
    var e, c := nodes[a].ecosystem, CoordOf(nodes[a]);
    var batch :| AnswerIn(wk.declarers[e], batch, c, a, e, heard);
    assert AlwaysIn(wk.declarers[e], batch, c, d);
    var ds := wk.declarers[e].declared(batch).value[c];
    var i :| 0 <= i < |ds| && ds[i] == d;
    assert (a, e, d) in heard;
  }

  lemma LayerAnswers(wk: Walker, opts: Options, t: State, root: string, rec: LayerRecord, k: NameKey, x: string,
                     c: string)
    requires LayerDid(wk, opts, t, root, rec) && Asked(wk, opts, rec.heard, k, x, c)
    ensures k in rec.byName || k in rec.chosen
  {
    hide Asked, QueueOk, AllMade, DrawnAs, IsThere, IsNext;
    var queue: Queue :| Answered(wk, opts, t, root, rec, queue);
  }

  // Whatever the constraints, this is the node of k, with this version.
  ghost predicate AlwaysLeads(wk: Walker, opts: Options, nodes: map<string, Node>, k: NameKey, x: string) {
    forall constraints, v :: IsChoice(wk, opts, k, constraints, v) ==> Leads(wk, nodes, k, v, x)
  }

  // Then the node that is presumed for it is queued, however it is labelled, unless a resolver closed it.
  lemma LackedIsQueued(wk: Walker, opts: Options, s: State, t: State, root: string, run: Run, a: string, d: Declaration,
                       k: NameKey, x: string)
    requires Ran(wk, opts, s, t, root, run) && a in run.tr.read && a in t.nodes && AlwaysDeclares(wk, t.nodes[a], d)
    requires Names(wk, opts, t.nodes[a].ecosystem, d, k) && k !in run.from.byName &&
             AlwaysLeads(wk, opts, t.nodes, k, x)
    ensures x in run.tr.queued || x in run.tr.closed
  {
    hide Finished, InPhases, ResolverDid, InBound, AlwaysDeclares, Names, AlwaysLeads, LayerDid, QueuedIn, ReadAt,
         IsNext, Pinned, AreNames, KnownBefore, Expands, IsThere;
    var i, r := LackedIsChosen(wk, opts, s, t, root, run, a, d, k);
    assert 0 <= r < |run.log| by {
      ReadInLog(wk, t.nodes, a, run.from, run.log, r);
    }
    var rec := run.log[i];
    ChosenLeads(wk, opts, t, root, rec, k, x);
    if x !in rec.expanded {
      NextIsQueued(run.from, run.log, i, x);
    }
  }

  lemma ReadInLog(wk: Walker, nodes: map<string, Node>, x: string, from: Departure, log: seq<LayerRecord>, i: int)
    requires ReadAt(wk, nodes, x, from, log, i)
    ensures 0 <= i < |log| && x in FrontierAt(from, log, i) && x !in from.expanded
  {
  }

  // And where what declares it was queued before the layers, it is read, if its ecosystem always answers
  // and the walk may go two layers deep.
  lemma LackedIsRead(wk: Walker, opts: Options, s: State, t: State, root: string, run: Run, a: string, d: Declaration,
                     k: NameKey, x: string)
    requires Ran(wk, opts, s, t, root, run) && a in run.tr.read && a in t.nodes && AlwaysDeclares(wk, t.nodes[a], d)
    requires Names(wk, opts, t.nodes[a].ecosystem, d, k) && k !in run.from.byName &&
             AlwaysLeads(wk, opts, t.nodes, k, x)
    requires a in run.from.queued && DepthBound(opts) > 1 && x in t.nodes && t.nodes[x].ecosystem in wk.declarers
    requires !(x in s.nodes && Marked(s.nodes[x])) && !NoAnswer(wk, t.nodes[x]) && !IsHole(wk, opts, x)
    ensures x in run.tr.read || x in run.tr.closed
  {
    hide InPhases, InSeed, ResolverDid, InLayers, InBound, Finished, NoAnswer, IsHole, Marked, AlwaysDeclares, Names,
         AlwaysLeads;
    LackedIsQueued(wk, opts, s, t, root, run, a, d, k, x);
    NothingQueuedIsForgottenOrClosed(wk, opts, s, t, run.w, run.tr, x);
    if x !in run.tr.read && x !in run.tr.closed {
      MarkHasReason(wk, opts, s, t, run.w, run.tr, x);
      HasDeclarer(wk, t.nodes[a], d);
      LackedIsNotCut(wk, opts, s, t, root, run, a, d, k, x);
      LeadsHasVersion(wk, opts, s, t, root, run, a, d, k, x);
    }
  }

  lemma NothingQueuedIsForgottenOrClosed(wk: Walker, opts: Options, s: State, t: State, w: Walk, tr: Trace, x: string)
    requires Finished(wk, opts, s, t, w, tr) && (x in tr.queued || x in tr.closed)
    ensures x in tr.closed ||
            (x in t.nodes && (t.nodes[x].ecosystem !in wk.declarers || x in tr.read || Marked(t.nodes[x])))
  {
    hide Finished, Marked;
    if x in tr.queued {
      NothingQueuedIsForgotten(wk, opts, s, t, w, tr, x);
      if x in t.nodes {
        MarkedByAttribute(t.nodes[x]);
      }
    }
  }

  lemma LeadsHasVersion(wk: Walker, opts: Options, s: State, t: State, root: string, run: Run, a: string,
                        d: Declaration, k: NameKey, x: string)
    requires Ran(wk, opts, s, t, root, run) && a in run.tr.read && a in t.nodes && AlwaysDeclares(wk, t.nodes[a], d)
    requires Names(wk, opts, t.nodes[a].ecosystem, d, k) && k !in run.from.byName &&
             AlwaysLeads(wk, opts, t.nodes, k, x)
    ensures x in t.nodes && t.nodes[x].version != ""
  {
    hide Finished, InPhases, InSeed, ResolverDid, InBound, AlwaysDeclares, Names, LayerDid, ReadAt, InOrder, QueuedIn,
         AlwaysLeads;
    var i, r := LackedIsChosen(wk, opts, s, t, root, run, a, d, k);
    ReadInLog(wk, t.nodes, a, run.from, run.log, r);
    ChosenLeads(wk, opts, t, root, run.log[i], k, x);
  }

  // What was queued before the layers is read in the first, and what that one queues the bound does not
  // cut when it lets in another.
  lemma LackedIsNotCut(wk: Walker, opts: Options, s: State, t: State, root: string, run: Run, a: string, d: Declaration,
                       k: NameKey, x: string)
    requires Ran(wk, opts, s, t, root, run) && a in run.tr.read && a in t.nodes && AlwaysDeclares(wk, t.nodes[a], d)
    requires Names(wk, opts, t.nodes[a].ecosystem, d, k) && k !in run.from.byName &&
             AlwaysLeads(wk, opts, t.nodes, k, x)
    requires a in run.from.queued && DepthBound(opts) > 1 && x in t.nodes && t.nodes[x].ecosystem in wk.declarers
    requires t.nodes[a].ecosystem in wk.declarers
    ensures x !in run.tr.cut
  {
    hide Finished, InPhases, InSeed, ResolverDid, AlwaysDeclares, Names, AlwaysLeads, LayerDid, ReadAt, QueuedIn,
         KnownBefore;
    var n := |run.log|;
    var i, r := LackedIsChosen(wk, opts, s, t, root, run, a, d, k);
    ReadInLog(wk, t.nodes, a, run.from, run.log, r);
    FirstIsReadFirst(wk, opts, t, root, run, a, r);
    ChosenLeads(wk, opts, t, root, run.log[0], k, x);
    if n > 1 {
      assert Expands(wk, t.nodes, FrontierAt(run.from, run.log, 1), run.log[1].expanded);
      assert run.log[0].expanded <= run.log[n - 1].expanded && run.log[1].expanded <= run.log[n - 1].expanded;
      if x in run.tr.cut {
        NextIsUnexpanded(wk, opts, t, root, run.log[n - 1], x);
      }
    }
  }

  lemma FirstIsReadFirst(wk: Walker, opts: Options, t: State, root: string, run: Run, a: string, r: nat)
    requires InLayers(wk, opts, run.resolved, t, run.tr, run.from, run.log) && run.tr.root == root
    requires r < |run.log| && a in FrontierAt(run.from, run.log, r) && a in run.from.queued
    requires a in t.nodes && t.nodes[a].ecosystem in wk.declarers
    ensures r == 0
  {
    hide LayerDid, QueuedIn, KnownBefore, ReadAt;
    if r > 0 {
      assert Expands(wk, t.nodes, FrontierAt(run.from, run.log, 0), run.log[0].expanded);
      assert run.log[0].expanded <= run.log[r - 1].expanded;
      NextIsUnexpanded(wk, opts, t, root, run.log[r - 1], a);
    }
  }

  lemma NextIsQueued(from: Departure, log: seq<LayerRecord>, i: nat, x: string)
    requires i < |log| && x in log[i].next
    ensures QueuedIn(from, log, x)
  {
  }

  lemma ChosenLeads(wk: Walker, opts: Options, t: State, root: string, rec: LayerRecord, k: NameKey, x: string)
    requires LayerDid(wk, opts, t, root, rec) && k in rec.chosen && AlwaysLeads(wk, opts, t.nodes, k, x)
    ensures x in t.nodes && t.nodes[x].version != "" && (x !in rec.expanded ==> x in rec.next)
  {
    hide Asked, QueueOk, AllMade, IsThere, Leads, IsChoice;
    var queue: Queue :| Answered(wk, opts, t, root, rec, queue);
    assert IsChoice(wk, opts, k, queue[k].constraints, rec.chosen[k]);
    assert Leads(wk, t.nodes, k, rec.chosen[k], x);
    LeadsToNode(wk, t.nodes, k, rec.chosen[k], x);
  }

  lemma LeadsToNode(wk: Walker, nodes: map<string, Node>, k: NameKey, version: string, x: string)
    requires Leads(wk, nodes, k, version, x)
    ensures x in nodes && nodes[x].version != ""
  {
  }

  lemma HasDeclarer(wk: Walker, n: Node, d: Declaration)
    requires AlwaysDeclares(wk, n, d)
    ensures n.ecosystem in wk.declarers
  {
  }

  // What lockfiles pinned is read when its ecosystem always answers, unless a resolver closed it.
  lemma PinnedIsRead(wk: Walker, opts: Options, s: State, t: State, root: string, run: Run, a: string)
    requires Ran(wk, opts, s, t, root, run) && Pinned(s, root, a) && s.nodes[a].ecosystem in wk.declarers
    requires !Marked(s.nodes[a]) && !NoAnswer(wk, s.nodes[a]) && !IsHole(wk, opts, a)
    ensures a in t.nodes && CoordOf(t.nodes[a]) == CoordOf(s.nodes[a])
    ensures a in run.tr.read || a in run.tr.closed
  {
    hide InPhases, InSeed, ResolverDid, InLayers, InBound, Finished, NoAnswer, IsHole, Marked;
    NothingQueuedIsForgotten(wk, opts, s, t, run.w, run.tr, a);
    SameAsked(wk, opts, s, t, root, run, a);
    if a !in run.tr.read && a !in run.tr.closed {
      assert Marked(t.nodes[a]) by {
        MarkedByAttribute(t.nodes[a]);
      }
      MarkHasReason(wk, opts, s, t, run.w, run.tr, a);
      NotCut(wk, opts, s, t, root, run, a);
    }
  }

  lemma MarkedByAttribute(n: Node)
    ensures Marked(n) <==> n.Attribute(ATTR_FRONTIER) != ""
  {
  }

  lemma SameAsked(wk: Walker, opts: Options, s: State, t: State, root: string, run: Run, a: string)
    requires Ran(wk, opts, s, t, root, run) && a in s.nodes
    ensures a in t.nodes && CoordOf(t.nodes[a]) == CoordOf(s.nodes[a]) && t.nodes[a].ecosystem == s.nodes[a].ecosystem
    ensures t.nodes[a].version == s.nodes[a].version && (NoAnswer(wk, t.nodes[a]) <==> NoAnswer(wk, s.nodes[a]))
  {
    hide InPhases, InSeed, ResolverDid, InLayers, InBound, Inv, RootDeclares, Pinned, Unanswered;
    FinishedParts(wk, opts, s, t, run.w, run.tr);
    hide Explained, Confines, Sound, WalkContained, NamesAnswer, Accounted, NewAccounted, Counted, Heard, NothingLost,
         Finished;
    EvolvesNodes(s, t);
    hide Evolves;
    SameEcosystem(s.nodes, t.nodes, a);
    assert CoordOf(t.nodes[a]) == CoordOf(s.nodes[a]);
    hide NodesEvolve, CoordOf;
  }

  // What lockfiles pinned is not what the depth bound cuts.
  lemma NotCut(wk: Walker, opts: Options, s: State, t: State, root: string, run: Run, a: string)
    requires Ran(wk, opts, s, t, root, run) && Pinned(s, root, a) && a in t.nodes &&
             t.nodes[a].ecosystem in wk.declarers
    ensures a !in run.tr.cut
  {
    hide Finished, InPhases, ResolverDid, Pinned, IsNext, HeardIn, QueuedIn, KnownBefore, AreNames, LayerDid;
    if a in run.tr.cut {
      var n := |run.log|;
      assert n > 0;
      assert a in FrontierAt(run.from, run.log, 0);
      assert Expands(wk, t.nodes, FrontierAt(run.from, run.log, 0), run.log[0].expanded);
      assert a in run.log[0].expanded && run.log[0].expanded <= run.log[n - 1].expanded;
      NextIsUnexpanded(wk, opts, t, root, run.log[n - 1], a);
    }
  }

  lemma NextIsUnexpanded(wk: Walker, opts: Options, t: State, root: string, rec: LayerRecord, x: string)
    requires LayerDid(wk, opts, t, root, rec) && x in rec.next
    ensures x !in rec.expanded
  {
    hide Answered, IsThere, Leads;
  }
}
