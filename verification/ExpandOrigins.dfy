// Which origins the walk takes to a registry or a resolver, told in the attribute texts that a lockfile
// adapter writes. A package marked as a fork, a path or a URL has no registry coordinate: asking by its name
// would be answered for another package that happens to share it. So it is neither queued nor handed to the
// resolver, unless what is presumed for some package is identified as it; only the question for a root as a
// whole names it.
module ExpandOrigins {
  import opened Prelude
  import opened GraphTypes
  import opened Sorting
  import opened Reach
  import opened GraphState
  import opened ExpandTypes
  import opened ExpandLedger
  import opened ExpandSeed
  import opened ExpandLayers
  import opened ExpandLog
  import opened ExpandAsserted
  import opened ExpandResolver
  import opened Expand
  import opened ExpandTheorems
  import opened ExpandTakeover

  // Beside what the seed's and the layers' choices are identified as, a run queues exactly the versioned
  // packages below the root that carry no source class, or one of these two, and that no resolver
  // asserted.
  lemma QueuedExactly(wk: Walker, opts: Options, s: State, t: State, root: string, run: Run, x: string)
    requires Ran(wk, opts, s, t, root, run)
    ensures x in run.tr.queued <==>
              || IsTakenOver(wk, t, run, x)
              || (&& x in s.nodes && Reaches(s.edges, {DependsOn}, root, x)
                  && s.nodes[x].kind == Package && s.nodes[x].version != ""
                  && s.nodes[x].Attribute("depsnort.source_class") in {"", "registry", "unknown"}
                  && s.nodes[x].Attribute("depsnort.version_truth") != "asserted")
  {
    hide Finished, InPhases, InSeed, ResolverDid, InLayers, InBound, LacksAndLeads, Reaches;
    RanQueues(wk, opts, s, t, root, run, x);
    if x in s.nodes {
      AsksByText(s.nodes[x]);
    }
    hide Ran, IsTakenOver, RegistryQueryable;
  }

  // What a registry may be asked about, and what is no resolver's claim.
  lemma AsksByText(n: Node)
    ensures RegistryQueryable(n) <==> n.Attribute("depsnort.source_class") in {"", "registry", "unknown"}
    ensures n.VersionTruth() != TRUTH_ASSERTED <==> n.Attribute("depsnort.version_truth") != "asserted"
  {
  }

  lemma RanQueues(wk: Walker, opts: Options, s: State, t: State, root: string, run: Run, x: string)
    requires Ran(wk, opts, s, t, root, run)
    ensures x in run.tr.queued <==> Pinned(s, root, x) || IsTakenOver(wk, t, run, x)
  {
    hide Finished, InPhases, ResolverDid, InBound, LacksAndLeads, Pinned, Reaches;
    LayersQueue(wk, opts, s, t, root, run, x);
    if !Pinned(s, root, x) {
      SeedQueues(wk, opts, s, t, root, run, x);
    }
    hide InLayers;
  }

  // So a node marked as coming from anywhere else is queued only when a choice is identified as it.
  lemma ForksAreNotQueued(wk: Walker, opts: Options, s: State, t: State, root: string, run: Run, x: string)
    requires Ran(wk, opts, s, t, root, run) && x in s.nodes
    requires s.nodes[x].Attribute("depsnort.source_class") !in {"", "registry", "unknown"}
    ensures x in run.tr.queued <==> IsTakenOver(wk, t, run, x)
    ensures x in run.tr.read ==> IsTakenOver(wk, t, run, x)
  {
    QueuedExactly(wk, opts, s, t, root, run, x);
    ReadWasQueued(wk, opts, s, t, root, run);
    hide Ran, IsTakenOver;
  }

  // Handed to the resolver one by one are exactly the direct dependencies of that kind, in the graph as
  // seeding left it.
  lemma AskedExactly(wk: Walker, opts: Options, s: State, t: State, root: string, run: Run, r: Resolver,
                     reqs: seq<Coord>, deps: seq<string>, y: string)
    requires Ran(wk, opts, s, t, root, run) && opts.resolver == Some(r)
    requires Consulted(wk, run.seeded, run.resolved, root, r, reqs, deps, run.tr.uncounted, run.tr.closed)
    requires root in run.seeded.nodes && !AnswersLocally(r, run.seeded.nodes[root], reqs)
    ensures y in deps <==>
              && Edge(root, y, DependsOn) in run.seeded.edges && y in run.seeded.nodes
              && run.seeded.nodes[y].kind == Package && run.seeded.nodes[y].version != ""
              && run.seeded.nodes[y].Attribute("depsnort.source_class") in {"", "registry", "unknown"}
              && run.seeded.nodes[y].Attribute("depsnort.version_truth") != "asserted"
    ensures y in deps && y in s.nodes ==> s.nodes[y].Attribute("depsnort.source_class") in {"", "registry", "unknown"}
  {
    hide AnswersLocally, Missed, AnswerHeld, Closing, AreDeps;
    DepsInText(run.seeded, root, deps, y);
    RanSeeds(wk, opts, s, t, root, run);
    hide Ran;
    if y in s.nodes {
      SameClass(s.nodes, run.seeded.nodes, y);
    }
    hide NodesEvolve;
  }

  lemma RanSeeds(wk: Walker, opts: Options, s: State, t: State, root: string, run: Run)
    requires Ran(wk, opts, s, t, root, run)
    ensures NodesEvolve(s.nodes, run.seeded.nodes)
  {
    hide Finished, InSeed, ResolverDid, InLayers, InBound, NodesEvolve, EdgesEvolve, Inside;
  }

  lemma DepsInText(s: State, root: string, deps: seq<string>, y: string)
    requires AreDeps(s, root, deps)
    ensures y in deps <==>
              && Edge(root, y, DependsOn) in s.edges && y in s.nodes
              && s.nodes[y].kind == Package && s.nodes[y].version != ""
              && s.nodes[y].Attribute("depsnort.source_class") in {"", "registry", "unknown"}
              && s.nodes[y].Attribute("depsnort.version_truth") != "asserted"
  {
    hide Increasing;
    assert Hop(s.edges, DEPENDS, root, y) <==> Edge(root, y, DependsOn) in s.edges;
    if y in s.nodes {
      AsksByText(s.nodes[y]);
    }
    hide RegistryQueryable, Hop;
  }

  lemma SameClass(a: map<string, Node>, b: map<string, Node>, y: string)
    requires NodesEvolve(a, b) && y in a
    ensures y in b && b[y].Attribute("depsnort.source_class") == a[y].Attribute("depsnort.source_class")
  {
    hide GoodNew;
    assert Evolved(a[y], b[y]);
  }

  // Asked about one node, the resolver is only consulted when a version is known and its origin is one of
  // these; else nothing is asked and nothing changes.
  lemma ForksAreNotResolved(wk: Walker, s: State, t: State, x: string, r: Resolver, out: AssertResult, failed: bool)
    requires IsAsserted(wk, s, t, x, r, out, failed)
    ensures s.nodes[x].version == "" ||
            s.nodes[x].Attribute("depsnort.source_class") !in {"", "registry", "unknown"} ==>
              t == s && out == AssertResult(0, false, 0) && !failed
    ensures s.nodes[x].version != "" && s.nodes[x].Attribute("depsnort.source_class") in {"", "registry", "unknown"} ==>
              (out.resolved <==> r.resolve(CoordOf(s.nodes[x])).found)
  {
    hide Folded, CoordOf;
    AsksByText(s.nodes[x]);
  }

  // The question for the root as a whole looks at no origins: it names exactly the direct dependencies with a
  // name and a version, a fork like any other.
  lemma ForksAreRequired(s: State, root: string, c: Coord)
    ensures IsRequirement(s, root, c) <==>
              exists y ::
                && Edge(root, y, DependsOn) in s.edges && y in s.nodes && s.nodes[y].kind == Package
                && s.nodes[y].name != "" && s.nodes[y].version != ""
                && c == Coord(s.nodes[y].ecosystem, s.nodes[y].name, s.nodes[y].version)
  {
    assert forall y :: Hop(s.edges, DEPENDS, root, y) <==> Edge(root, y, DependsOn) in s.edges;
    hide Hop;
  }

  // Without a depth of its own a run has at most eight layers.
  lemma EightLayersByDefault(wk: Walker, opts: Options, s: State, t: State, root: string, run: Run)
    requires Ran(wk, opts, s, t, root, run)
    ensures |run.log| <= if opts.maxDepth <= 0 then 8 else opts.maxDepth
    ensures run.tr.cut != {} ==> |run.log| == if opts.maxDepth <= 0 then 8 else opts.maxDepth
  {
    hide Finished, InPhases, InSeed, ResolverDid, InLayers;
  }
}
