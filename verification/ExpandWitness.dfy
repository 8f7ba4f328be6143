// Small graphs on which the walk reads beneath an asserted node, and one with two roots of one ecosystem
// that it keeps apart.
module ExpandWitness {
  import opened Prelude
  import opened Findings
  import opened GraphTypes
  import opened Reach
  import opened GraphState
  import opened GraphStore
  import GraphLaws
  import opened DeclaredDeps
  import opened Presume
  import opened ExpandTypes
  import opened ExpandRegion
  import opened ExpandLedger
  import opened ExpandSteps
  import ExpandTally
  import opened ExpandChoices
  import opened ExpandSeed
  import opened ExpandLayers
  import opened ExpandAsserted
  import opened ExpandResolver
  import opened ExpandLog
  import opened Expand
  import opened ExpandTheorems
  import opened ExpandTakeover

  // ----- An ecosystem in which a declares z, and everything has the one version 1 -----

  function Identify(n: string, v: string): (string, string) {
    (if '\0' in n + v then "?" else n + "@" + v, n)
  }

  const NEEDS_Z := Declaration("z", "", false)

  function Declared(batch: seq<Coord>): Option<map<Coord, seq<Declaration>>> {
    Some(map c | c in batch :: if c.name == "a" then [NEEDS_Z] else [])
  }

  const TAKES_ANY := Presumer((c, v) => (true, true), (a, b) => 0, false)
  const NPM := Declarer(Identify, Declared, Some(TAKES_ANY), Some((e, n) => Some(["1"])))
  const WALKER := Walker(map["npm" := NPM], None)

  const Z := NameKey("npm", "z")

  lemma Ids()
    ensures Identify("a", "1") == ("a@1", "a") && Identify("b", "1") == ("b@1", "b") &&
            Identify("z", "1") == ("z@1", "z")
    ensures Identify("z", "") == ("z@", "z")
  {
    assert "a" + "1" == "a1" && "a" + "@" + "1" == "a@1";
    assert "b" + "1" == "b1" && "b" + "@" + "1" == "b@1";
    assert "z" + "1" == "z1" && "z" + "@" + "1" == "z@1";
    assert "z" + "" == "z" && "z" + "@" + "" == "z@";
  }

  lemma WalkerIsClean()
    ensures CleanWalker(WALKER)
  {
    forall n: string, v: string
      ensures NulFree(Identify(n, v).0)
    {
    }
  }

  lemma AlwaysAnswers(n: Node)
    ensures !NoAnswer(WALKER, n) && (n.ecosystem == "npm" && n.name == "a" ==> AlwaysDeclares(WALKER, n, NEEDS_Z))
  {
  }

  // Whoever asks for z is led to its version 1.
  lemma LeadsToZ(opts: Options, nodes: map<string, Node>)
    requires !opts.noPresume && "z@1" in nodes && nodes["z@1"].version != ""
    ensures AlwaysLeads(WALKER, opts, nodes, Z, "z@1")
  {
    Ids();
    hide Identify;
    forall constraints, v | IsChoice(WALKER, opts, Z, constraints, v)
      ensures v == "1"
    {
      FittingMembers(TAKES_ANY, constraints, ["1"]);
      FittingMeetsAll(TAKES_ANY, constraints, "1");
    }
  }

  // ----- The project r, which depends on a -----

  function Package1(id: string, name: string, attr: map<string, string>): Node {
    Node(id, Package, "npm", name, "1", false, 1, attr, Clean, [])
  }

  function Project(id: string): Node {
    Node(id, Package, "npm", "", "", false, 0, map[], Clean, [])
  }

  // Below r there is a and nothing else.
  ghost predicate HasProject(s: State) {
    && "r" in s.nodes && s.nodes["r"] == Project("r") && "a@1" in s.nodes &&
       s.nodes["a@1"] == Package1("a@1", "a", map[])
    && Edge("r", "a@1", DependsOn) in s.edges
    && forall x, y :: x in {"r", "a@1"} && Hop(s.edges, DEPENDS, x, y) ==> y in {"r", "a@1"}
  }

  // The walk may presume versions and go two layers deep, and no resolver owns up to holes.
  ghost predicate Usual(opts: Options) {
    !opts.noPresume && DepthBound(opts) > 1 && forall id :: !IsHole(WALKER, opts, id)
  }

  lemma BelowProject(s: State, y: string)
    requires HasProject(s)
    ensures Reaches(s.edges, DEPENDS, "r", y) <==> y in {"r", "a@1"}
  {
    ReachesSelf(s.edges, DEPENDS, "r");
    if Reaches(s.edges, DEPENDS, "r", y) {
      ClosedHoldsReachable(s.edges, DEPENDS, {"r", "a@1"}, "r", y);
    }
    assert Hop(s.edges, DEPENDS, "r", "a@1");
    ReachesStep(s.edges, DEPENDS, "r", "r", "a@1");
  }

  lemma NothingDeclared()
    ensures RootDeclares(Project("r")) == []
  {
    assert Decoded("") == FromLines([""]);
  }

  lemma AIsPinned(s: State)
    requires HasProject(s)
    ensures Pinned(s, "r", "a@1") && !Marked(s.nodes["a@1"])
  {
    BelowProject(s, "a@1");
    hide Reaches;
  }

  // z is not held by name when the layers start.
  lemma ZIsLacked(opts: Options, s: State, t: State, run: Run)
    requires Ran(WALKER, opts, s, t, "r", run) && HasProject(s) && run.tr.closed == {}
    ensures Z !in run.from.byName && run.seed.chosen == map[] && run.seeded.nodes.Keys <= s.nodes.Keys
  {
    hide Finished, InPhases, InLayers, ResolverDid, InBound, Pinned, RootDeclares, IsNext, IsThere, Reaches,
         HasProject;
    NothingDeclared();
    assert s.nodes["r"] == Project("r") by {
      ProjectIsRoot(s);
    }
    forall k
      ensures k !in run.seed.chosen
    {
      NothingLeads(opts, k, if k in run.seed.chosen then run.seed.chosen[k] else "");
    }
    ZIsNoName(s);
  }

  lemma NothingLeads(opts: Options, k: NameKey, version: string)
    ensures !ManifestLeads(WALKER, opts, Project("r"), k, version)
  {
    NothingDeclared();
    hide RootDeclares;
  }

  lemma ProjectIsRoot(s: State)
    requires HasProject(s)
    ensures "r" in s.nodes && s.nodes["r"] == Project("r")
  {
  }

  lemma ZIsNoName(s: State)
    requires HasProject(s)
    ensures forall id :: Reaches(s.edges, DEPENDS, "r", id) ==> !IsNamed(WALKER, s.nodes, id, Z)
  {
    forall id | Reaches(s.edges, DEPENDS, "r", id)
      ensures !IsNamed(WALKER, s.nodes, id, Z)
    {
      BelowProject(s, id);
    }
    hide Reaches;
  }

  // When the resolver closed nothing and the graph holds z, what a declares is read beneath, whoever
  // labelled it.
  lemma ReadsBeneath(opts: Options, s: State, t: State, run: Run)
    requires Ran(WALKER, opts, s, t, "r", run) && HasProject(s) && Usual(opts) && run.tr.closed == {}
    requires "z@1" in t.nodes && t.nodes["z@1"].ecosystem == "npm" && t.nodes["z@1"].version != ""
    requires "z@1" in s.nodes ==> !Marked(s.nodes["z@1"])
    ensures "a@1" in run.tr.read && "z@1" in run.tr.queued && "z@1" in run.tr.read
  {
    hide Ran, HasProject, IsHole, Marked, NoAnswer, AlwaysDeclares, AlwaysLeads, RootDeclares, Identify;
    ZIsLacked(opts, s, t, run);
    AIsPinned(s);
    assert "a@1" in s.nodes && s.nodes["a@1"] == Package1("a@1", "a", map[]) by {
      AIsThere(s);
    }
    AlwaysAnswers(s.nodes["a@1"]);
    PinnedIsRead(WALKER, opts, s, t, "r", run, "a@1");
    AlwaysAnswers(t.nodes["a@1"]);
    AlwaysAnswers(t.nodes["z@1"]);
    LeadsToZ(opts, t.nodes);
    ADeclaresZ(opts);
    PinnedIsQueued(opts, s, t, run, "a@1");
    LackedIsQueued(WALKER, opts, s, t, "r", run, "a@1", NEEDS_Z, Z, "z@1");
    LackedIsRead(WALKER, opts, s, t, "r", run, "a@1", NEEDS_Z, Z, "z@1");
  }

  lemma AIsThere(s: State)
    requires HasProject(s)
    ensures "a@1" in s.nodes && s.nodes["a@1"] == Package1("a@1", "a", map[])
  {
  }

  lemma ADeclaresZ(opts: Options)
    ensures Names(WALKER, opts, "npm", NEEDS_Z, Z)
  {
  }

  lemma PinnedIsQueued(opts: Options, s: State, t: State, run: Run, x: string)
    requires Ran(WALKER, opts, s, t, "r", run) && Pinned(s, "r", x)
    ensures x in run.from.queued
  {
    hide Finished, InPhases, InLayers, ResolverDid, InBound, Pinned, RootDeclares, IsNext, IsThere, AreNames;
  }

  // ----- Three ways to come upon an asserted node -----

  const ASSERTED := map[ATTR_VERSION_TRUTH := TRUTH_ASSERTED]

  const ALONE := AddEdge(AddNode(AddNode(EMPTY, Project("r")), Package1("a@1", "a", map[])),
                         Edge("r", "a@1", DependsOn))

  // Another project q depends on z@1, which a resolver asserted for it.
  const BESIDE := AddEdge(AddNode(AddNode(ALONE, Project("q")), Package1("z@1", "z", ASSERTED)),
                          Edge("q", "z@1", DependsOn))

  lemma AloneIs()
    ensures ALONE.nodes == map["r" := Project("r"), "a@1" := Package1("a@1", "a", map[])]
    ensures ALONE.edges == [Edge("r", "a@1", DependsOn)] && ALONE.edgeSeen == {EdgeKey(Edge("r", "a@1", DependsOn))}
    ensures ALONE.roots == []
  {
    hide EdgeKey;
  }

  lemma AloneHasProject()
    ensures HasProject(ALONE) && "z@1" !in ALONE.nodes
  {
    AloneIs();
    assert ALONE.edges[0] in ALONE.edges;
  }

  lemma BesideIs()
    ensures BESIDE.nodes == map["r" := Project("r"), "a@1" := Package1("a@1", "a", map[]), "q" := Project("q"),
                                "z@1" := Package1("z@1", "z", ASSERTED)]
    ensures BESIDE.edges == [Edge("r", "a@1", DependsOn), Edge("q", "z@1", DependsOn)]
  {
    AloneIs();
    var e, f := Edge("r", "a@1", DependsOn), Edge("q", "z@1", DependsOn);
    if EdgeKey(e) == EdgeKey(f) {
      EdgeKeyIdentifies(e, f);
    }
    hide EdgeKey;
  }

  lemma BesideHasProject()
    ensures HasProject(BESIDE) && "z@1" in BESIDE.nodes && BESIDE.nodes["z@1"] == Package1("z@1", "z", ASSERTED)
  {
    BesideIs();
    assert BESIDE.edges[0] in BESIDE.edges;
  }

  // What a walk leaves alone in a node that was there.
  lemma NodeStays(opts: Options, s: State, t: State, run: Run, x: string)
    requires Ran(WALKER, opts, s, t, "r", run) && x in s.nodes
    ensures x in t.nodes && t.nodes[x].ecosystem == s.nodes[x].ecosystem && t.nodes[x].version == s.nodes[x].version
    ensures t.nodes[x].VersionTruth() == s.nodes[x].VersionTruth()
  {
    SameAsked(WALKER, opts, s, t, "r", run, x);
    hide InPhases, InSeed, ResolverDid, InLayers, InBound, Inv, RootDeclares, Pinned;
    FinishedParts(WALKER, opts, s, t, run.w, run.tr);
    hide Explained, Confines, Sound, WalkContained, NamesAnswer, Accounted, NewAccounted, Counted, Heard, NothingLost,
         Finished;
    EvolvesNodes(s, t);
    hide Evolves;
    SameTruth(s.nodes, t.nodes, x);
  }

  // First way: the node was asserted for another root.
  lemma TakenFromAnotherRoot(opts: Options, t: State, run: Run)
    requires Ran(WALKER, opts, BESIDE, t, "r", run) && opts.resolver.None? && !opts.noPresume && DepthBound(opts) > 1
    ensures "z@1" in t.nodes && t.nodes["z@1"].VersionTruth() == TRUTH_ASSERTED
    ensures "z@1" in run.tr.queued && "z@1" in run.tr.read
  {
    BesideHasProject();
    hide Ran, HasProject, IsHole, EdgeKey;
    NodeStays(opts, BESIDE, t, run, "z@1");
    NobodyCloses(opts, BESIDE, t, run);
    NobodyLeavesHoles(opts);
    ReadsBeneath(opts, BESIDE, t, run);
  }

  lemma NobodyCloses(opts: Options, s: State, t: State, run: Run)
    requires Ran(WALKER, opts, s, t, "r", run) && opts.resolver.None?
    ensures run.tr.closed == {}
  {
    hide Finished, InPhases, InSeed, InLayers, InBound;
  }

  lemma NobodyLeavesHoles(opts: Options)
    requires opts.resolver.None?
    ensures forall id :: !IsHole(WALKER, opts, id)
  {
  }

  // A resolver that answers about a, and about nothing else: a depends on z@1.
  const ANSWER := ResolvedGraph([Coord("npm", "a", "1"), Coord("npm", "z", "1")], [(0, 1)])

  function Answering(error: ResolveError): Resolver {
    Resolver((e: string) => "",
             (c: Coord) => if c.name == "a" then Resolution(true, ANSWER, error)
                           else Resolution(false, ResolvedGraph([], []), NoError),
             None)
  }

  lemma AnsweringLeavesNoHoles(opts: Options, error: ResolveError)
    requires opts.resolver == Some(Answering(error)) && !error.Incomplete?
    ensures forall id :: !IsHole(WALKER, opts, id)
  {
    hide UnreadId;
  }

  lemma AnswerNamesZ()
    ensures NamesIn(WALKER, ANSWER) == {"z@1"}
    ensures MergedId(WALKER, ANSWER.nodes[0]) == "a@1" && MergedId(WALKER, ANSWER.nodes[1]) == "z@1"
  {
    Ids();
    hide Identify;
    assert MergedId(WALKER, ANSWER.nodes[1]) == "z@1";
  }

  // The answer about a is in the graph before the layers start.
  lemma AnswerIsTaken(opts: Options, s: State, t: State, run: Run, error: ResolveError)
    requires Ran(WALKER, opts, s, t, "r", run) && HasProject(s) && opts.resolver == Some(Answering(error))
    ensures "z@1" in run.resolved.nodes && Edge("a@1", "z@1", DependsOn) in run.resolved.edges
    ensures "r" in run.seeded.nodes
  {
    hide Finished, InSeed, InLayers, InBound, HasProject, AreDeps, Missed, Closing, NewAsserted, IsRequirement,
         Reaches, Held, Answering, ExpandTally.Tallies, ClosesAt, CoordOf;
    AStaysWorthAsking(opts, s, run);
    var r := opts.resolver.value;
    AnsweringParts(error);
    var reqs, deps :| Consulted(WALKER, run.seeded, run.resolved, "r", r, reqs, deps, run.tr.uncounted, run.tr.closed);
    AIsAsked(run.seeded, deps);
    assert AnswerHeld(WALKER, run.resolved, r, run.seeded.nodes["a@1"]);
    HeldAnswer(run.resolved);
  }

  lemma AnsweringParts(error: ResolveError)
    ensures Answering(error).localRoot.None? &&
            Answering(error).resolve(Coord("npm", "a", "1")) == Resolution(true, ANSWER, error)
  {
  }

  lemma AIsAsked(s: State, deps: seq<string>)
    requires AreDeps(s, "r", deps) && Edge("r", "a@1", DependsOn) in s.edges
    requires "a@1" in s.nodes && WorthAsking(s.nodes["a@1"])
    ensures "a@1" in deps
  {
    hide WorthAsking;
    assert Hop(s.edges, DEPENDS, "r", "a@1");
  }

  lemma HeldAnswer(s: State)
    requires Held(WALKER, s, ANSWER)
    ensures "z@1" in s.nodes && Edge("a@1", "z@1", DependsOn) in s.edges
  {
    AnswerNamesZ();
    hide MergedId;
    assert MergedEdge(WALKER, ANSWER, 0, Edge("a@1", "z@1", DependsOn));
  }

  lemma AStaysWorthAsking(opts: Options, s: State, run: Run)
    requires Progress(s, run.seeded, "r") && HasProject(s)
    ensures "r" in run.seeded.nodes && "a@1" in run.seeded.nodes && WorthAsking(run.seeded.nodes["a@1"])
    ensures CoordOf(run.seeded.nodes["a@1"]) == Coord("npm", "a", "1")
    ensures Edge("r", "a@1", DependsOn) in run.seeded.edges
  {
    assert Evolved(s.nodes["a@1"], run.seeded.nodes["a@1"]);
    hide GoodNew, Inside;
  }

  // Nothing is closed by an answer that failed, or that names only what the graph has.
  lemma AnswerClosesNothing(opts: Options, s: State, t: State, run: Run, error: ResolveError)
    requires Ran(WALKER, opts, s, t, "r", run) && opts.resolver == Some(Answering(error))
    requires error.Failed? || "z@1" in s.nodes
    ensures run.tr.closed == {}
  {
    hide Finished, InSeed, InLayers, InBound, AreDeps, Missed, Closing, NewAsserted, IsRequirement, Reaches, Answering,
         NodesEvolve, EdgesEvolve, Inside, AnswerHeld;
    assert s.nodes.Keys <= run.seeded.nodes.Keys by {
      ProgressKeeps(s, run.seeded, "r", "r");
    }
    var r := opts.resolver.value;
    AnsweringParts(error);
    var reqs, deps :| Consulted(WALKER, run.seeded, run.resolved, "r", r, reqs, deps, run.tr.uncounted, run.tr.closed);
    DepsAreNodes(run.seeded, "r", deps);
    assert forall y :: y in deps ==> y in run.seeded.nodes;
    forall y
      ensures !Closing(WALKER, r, run.seeded.nodes, deps, |deps|, y)
    {
      NeverCloses(error, run.seeded.nodes, deps, y);
    }
  }

  lemma NeverCloses(error: ResolveError, nodes: map<string, Node>, deps: seq<string>, y: string)
    requires (error.Failed? || "z@1" in nodes) && forall x :: x in deps ==> x in nodes
    ensures !Closing(WALKER, Answering(error), nodes, deps, |deps|, y)
  {
    hide NamesIn, KeysAfter;
    AnswerNamesZ();
    var r := Answering(error);
    forall j: nat | j < |deps|
      ensures !ClosesAt(WALKER, r, nodes, deps, j)
    {
      KeysStay(r, nodes, deps[..j]);
      assert Brings(WALKER, r, nodes[deps[j]]) <= {"z@1"};
    }
    hide ClosesAt;
  }

  lemma {:induction false} KeysStay(r: Resolver, nodes: map<string, Node>, deps: seq<string>)
    requires forall x :: x in deps ==> x in nodes
    ensures nodes.Keys <= KeysAfter(WALKER, r, nodes, deps)
  {
    hide Brings;
    if deps != [] {
      KeysStay(r, nodes, deps[..|deps| - 1]);
    }
  }

  // Second way: the resolver answered and failed. What it named stays below the root, but is not closed.
  lemma TakenFromFailedAnswer(opts: Options, t: State, run: Run)
    requires Ran(WALKER, opts, ALONE, t, "r", run) && opts.resolver == Some(Answering(Failed))
    requires !opts.noPresume && DepthBound(opts) > 1
    ensures Reaches(run.resolved.edges, DEPENDS, "r", "z@1")
    ensures "z@1" in t.nodes && t.nodes["z@1"].VersionTruth() == TRUTH_ASSERTED
    ensures "z@1" in run.tr.queued && "z@1" in run.tr.read
  {
    AloneHasProject();
    hide Ran, HasProject, IsHole, EdgeKey, Reaches;
    AnswerIsTaken(opts, ALONE, t, run, Failed);
    AnswerIsBelow(opts, ALONE, t, run, Failed);
    AnswerClosesNothing(opts, ALONE, t, run, Failed);
    AnsweringLeavesNoHoles(opts, Failed);
    ZIsLacked(opts, ALONE, t, run);
    NewlyResolved(opts, ALONE, t, run, Answering(Failed));
    ReadsBeneath(opts, ALONE, t, run);
  }

  lemma AnswerIsBelow(opts: Options, s: State, t: State, run: Run, error: ResolveError)
    requires Ran(WALKER, opts, s, t, "r", run) && HasProject(s) && opts.resolver == Some(Answering(error))
    ensures Reaches(run.resolved.edges, DEPENDS, "r", "z@1")
  {
    AnswerIsTaken(opts, s, t, run, error);
    hide Finished, InSeed, InLayers, InBound, ResolverDid, Reaches, Answering, NodesEvolve;
    assert Edge("r", "a@1", DependsOn) in s.edges by {
      AStaysWorthAsking(opts, s, run);
    }
    ReachesSelf(run.resolved.edges, DEPENDS, "r");
    assert Hop(run.resolved.edges, DEPENDS, "r", "a@1") && Hop(run.resolved.edges, DEPENDS, "a@1", "z@1");
    ReachesStep(run.resolved.edges, DEPENDS, "r", "r", "a@1");
    ReachesStep(run.resolved.edges, DEPENDS, "r", "a@1", "z@1");
  }

  // What the resolver brought is asserted, and identified by its coordinate, to the end.
  lemma NewlyResolved(opts: Options, s: State, t: State, run: Run, r: Resolver)
    requires Ran(WALKER, opts, s, t, "r", run) && opts.resolver == Some(r)
    requires "z@1" in run.resolved.nodes && "z@1" !in run.seeded.nodes
    ensures "z@1" in t.nodes && IsResolved(WALKER, "z@1", t.nodes["z@1"])
    ensures t.nodes["z@1"].ecosystem == "npm" && t.nodes["z@1"].version != ""
  {
    hide Finished, InSeed, InLayers, InBound, Consulted, NodesEvolve, EdgesEvolve, Inside, MergedId, CoordOf;
    assert IsResolved(WALKER, "z@1", run.resolved.nodes["z@1"]);
    SameTruth(run.resolved.nodes, t.nodes, "z@1");
    ResolvedIsNpm(t.nodes["z@1"]);
  }

  lemma ResolvedIsNpm(n: Node)
    requires IsResolved(WALKER, "z@1", n)
    ensures n.ecosystem == "npm" && n.version != ""
  {
    assert PlainId(CoordOf(n))[0] == 'p' && "z@1"[0] == 'z';
  }

  // Third way: the resolver answered in full, but everything it named was in the graph already.
  lemma TakenFromKnownAnswer(opts: Options, t: State, run: Run)
    requires Ran(WALKER, opts, BESIDE, t, "r", run) && opts.resolver == Some(Answering(NoError))
    requires !opts.noPresume && DepthBound(opts) > 1
    ensures Reaches(run.resolved.edges, DEPENDS, "r", "z@1")
    ensures "z@1" in t.nodes && t.nodes["z@1"].VersionTruth() == TRUTH_ASSERTED
    ensures "z@1" in run.tr.queued && "z@1" in run.tr.read
  {
    BesideHasProject();
    hide Ran, HasProject, IsHole, EdgeKey, Reaches;
    AnswerIsBelow(opts, BESIDE, t, run, NoError);
    NodeStays(opts, BESIDE, t, run, "z@1");
    AnswerClosesNothing(opts, BESIDE, t, run, NoError);
    AnsweringLeavesNoHoles(opts, NoError);
    ReadsBeneath(opts, BESIDE, t, run);
  }

  // ----- Such runs exist -----

  lemma SoundAdd(s: State, n: Node)
    requires Sound(s) && NulFree(n.id)
    ensures Sound(AddNode(s, n))
  {
    hide Consistent;
    GraphLaws.AddNodeKeeps(s, n);
  }

  lemma SoundLink(s: State, e: Edge)
    requires Sound(s)
    ensures Sound(AddEdge(s, e))
  {
    hide Consistent, EdgeKey;
    GraphLaws.AddEdgeKeeps(s, e);
  }

  lemma AloneIsSound()
    ensures Sound(ALONE)
  {
    hide AddNode, AddEdge, Sound;
    assert Sound(EMPTY) by {
      EmptyIsSound();
    }
    SoundAdd(EMPTY, Project("r"));
    SoundAdd(AddNode(EMPTY, Project("r")), Package1("a@1", "a", map[]));
    SoundLink(AddNode(AddNode(EMPTY, Project("r")), Package1("a@1", "a", map[])), Edge("r", "a@1", DependsOn));
  }

  lemma EmptyIsSound()
    ensures Sound(EMPTY)
  {
  }

  lemma BesideIsSound()
    ensures Sound(BESIDE)
  {
    AloneIsSound();
    hide AddNode, AddEdge, Sound;
    SoundAdd(ALONE, Project("q"));
    SoundAdd(AddNode(ALONE, Project("q")), Package1("z@1", "z", ASSERTED));
    SoundLink(AddNode(AddNode(ALONE, Project("q")), Package1("z@1", "z", ASSERTED)), Edge("q", "z@1", DependsOn));
  }

  method BuildAlone() returns (g: Graph)
    ensures fresh(g) && g.View() == ALONE
  {
    hide AddNode, AddEdge;
    g := new Graph();
    var _ := g.AddNode(Project("r"));
    var _ := g.AddNode(Package1("a@1", "a", map[]));
    g.AddEdge("r", "a@1", DependsOn);
  }

  // Beside another project, without a resolver: the walk from r reads what was asserted for q.
  method WalkBeside() returns (g: Graph, res: Result, ghost run: Run)
    ensures fresh(g) && Ran(WALKER, Options(0, false, false, None), BESIDE, g.View(), "r", run)
    ensures "z@1" in run.tr.read && "z@1" in g.nodes && g.nodes["z@1"].VersionTruth() == TRUTH_ASSERTED
  {
    hide AddNode, AddEdge, Ran, Sound, CleanWalker;
    g := BuildAlone();
    var _ := g.AddNode(Project("q"));
    var _ := g.AddNode(Package1("z@1", "z", ASSERTED));
    g.AddEdge("q", "z@1", DependsOn);
    assert g.View() == BESIDE;
    BesideIsSound();
    BesideHasProject();
    WalkerIsClean();
    var opts := Options(0, false, false, None);
    res, run := ExpandRoot(WALKER, opts, g, "r");
    TakenFromAnotherRoot(opts, g.View(), run);
  }

  // Alone, with a resolver that answers and fails: the walk reads what it just asserted.
  method WalkPastFailure() returns (g: Graph, res: Result, ghost run: Run)
    ensures fresh(g) && Ran(WALKER, Options(0, false, false, Some(Answering(Failed))), ALONE, g.View(), "r", run)
    ensures "z@1" in run.tr.read && "z@1" in g.nodes && g.nodes["z@1"].VersionTruth() == TRUTH_ASSERTED
  {
    hide AddNode, AddEdge, Ran, Sound, CleanWalker, CleanResolver, Answering;
    g := BuildAlone();
    AloneIsSound();
    AloneHasProject();
    WalkerIsClean();
    AnsweringIsClean(Failed);
    var opts := Options(0, false, false, Some(Answering(Failed)));
    assert "r" in g.nodes by {
      AloneIs();
    }
    res, run := ExpandRoot(WALKER, opts, g, "r");
    TakenFromFailedAnswer(opts, g.View(), run);
  }

  lemma AnsweringIsClean(error: ResolveError)
    ensures CleanResolver(Answering(error))
  {
  }

  // ----- Two roots of one ecosystem -----

  // Another project q depends on b@1.
  const TWO := AddEdge(AddNode(AddNode(ALONE, Project("q")), Package1("b@1", "b", map[])),
                       Edge("q", "b@1", DependsOn))

  // Around r: a, and z in whichever version it is presumed.
  const AROUND := Region(iset{"r", "a@1", "z@1", "z@"},
                         iset{Coord("npm", "", ""), Coord("npm", "a", "1"), Coord("npm", "z", "1"),
                              Coord("npm", "z", "")})

  lemma TwoIs()
    ensures TWO.nodes == map["r" := Project("r"), "a@1" := Package1("a@1", "a", map[]), "q" := Project("q"),
                             "b@1" := Package1("b@1", "b", map[])]
    ensures TWO.edges == [Edge("r", "a@1", DependsOn), Edge("q", "b@1", DependsOn)]
  {
    AloneIs();
    var e, f := Edge("r", "a@1", DependsOn), Edge("q", "b@1", DependsOn);
    if EdgeKey(e) == EdgeKey(f) {
      EdgeKeyIdentifies(e, f);
    }
    hide EdgeKey;
  }

  lemma AroundEncloses(opts: Options)
    ensures Encloses(WALKER, opts, TWO, "r", AROUND)
  {
    TwoIs();
    NothingDeclared();
    ZIsCovered();
    hide RootDeclares, Covers, Identify, EdgeKey;
    forall c, d, k | c in AROUND.coords && Declares(WALKER, c, d) && Names(WALKER, opts, c.ecosystem, d, k)
      ensures Covers(WALKER, AROUND, k)
    {
      OnlyZIsDeclared(opts, c, d, k);
    }
  }

  lemma OnlyZIsDeclared(opts: Options, c: Coord, d: Declaration, k: NameKey)
    requires Declares(WALKER, c, d) && Names(WALKER, opts, c.ecosystem, d, k)
    ensures k == Z
  {
  }

  lemma ZIsCovered()
    ensures Covers(WALKER, AROUND, Z)
  {
    Ids();
    hide Identify;
  }

  // The tree of q, all of one ecosystem with the tree of r and identified like it, is what it was.
  lemma TwoRootsStayApart(opts: Options, t: State, run: Run)
    requires Ran(WALKER, opts, TWO, t, "r", run) && opts.resolver.None?
    ensures Identify("b", "1").0 == "b@1"
    ensures forall y :: Reaches(t.edges, DEPENDS, "q", y) <==> y in {"q", "b@1"}
  {
    Ids();
    AroundEncloses(opts);
    hide Ran, Encloses, Identify, Reaches, EdgeKey;
    forall y
      ensures Reaches(TWO.edges, DEPENDS, "q", y) <==> y in {"q", "b@1"}
    {
      BelowOther(y);
    }
    OutsideIsUntouched(WALKER, opts, TWO, t, "r", run, "q", AROUND);
  }

  lemma BelowOther(y: string)
    ensures Reaches(TWO.edges, DEPENDS, "q", y) <==> y in {"q", "b@1"}
  {
    TwoIs();
    var es := TWO.edges;
    assert es[1] in es;
    ReachesSelf(es, DEPENDS, "q");
    if Reaches(es, DEPENDS, "q", y) {
      ClosedHoldsReachable(es, DEPENDS, {"q", "b@1"}, "q", y);
    }
    assert Hop(es, DEPENDS, "q", "b@1");
    ReachesStep(es, DEPENDS, "q", "q", "b@1");
  }
}
