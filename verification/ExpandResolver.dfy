// The asserted tier: asking a resolver for whole subtrees before anything is presumed, for the root as a
// whole where it can, else for each direct dependency; and which added nodes end up in no counter.
module ExpandResolver {
  import opened Prelude
  import opened Findings
  import opened GraphTypes
  import opened Sorting
  import opened Reach
  import opened GraphState
  import opened GraphStore
  import opened ExpandTypes
  import opened ExpandRegion
  import opened ExpandLedger
  import opened ExpandSteps
  import opened ExpandSeed
  import opened ExpandAsserted

  ghost predicate CleanResolver(r: Resolver) {
    && (forall c :: CleanGraph(r.resolve(c).graph))
    && (r.localRoot.Some? ==> forall l :: CleanGraph(r.localRoot.value(l).graph))
  }

  // What the resolver's own answers own up to.
  ghost predicate OwnHoles(wk: Walker, opts: Options, a: Resolution) {
    a.error.Incomplete? ==> AreHoles(wk, opts, a.error.unread)
  }

  lemma ResolvedHoles(wk: Walker, opts: Options, r: Resolver, c: Coord)
    requires opts.resolver == Some(r)
    ensures OwnHoles(wk, opts, r.resolve(c))
  {
    hide UnreadId;
    var a := r.resolve(c);
    if a.error.Incomplete? {
      forall i | 0 <= i < |a.error.unread|
        ensures IsHole(wk, opts, UnreadId(wk, a.error.unread[i]))
      {
        assert HoleIn(wk, r.resolve(c), UnreadId(wk, a.error.unread[i]));
      }
    }
  }

  lemma LocalHoles(wk: Walker, opts: Options, r: Resolver, l: LocalRoot)
    requires opts.resolver == Some(r) && r.localRoot.Some?
    ensures OwnHoles(wk, opts, r.localRoot.value(l))
  {
    hide UnreadId;
    var a := r.localRoot.value(l);
    if a.error.Incomplete? {
      forall i | 0 <= i < |a.error.unread|
        ensures IsHole(wk, opts, UnreadId(wk, a.error.unread[i]))
      {
        assert HoleIn(wk, r.localRoot.value(l), UnreadId(wk, a.error.unread[i]));
      }
    }
  }

  // ----- One coordinate -----

  // What one call learned.
  datatype AssertResult = AssertResult(asserted: nat, resolved: bool, unread: nat)

  // t is s with an answer folded in, and the holes it owns up to marked.
  ghost predicate Folded(wk: Walker, s: State, t: State, a: Resolution, rootDepth: int, assertedBy: string,
                         unread: nat) {
    exists mid :: Merged(wk, s, mid, a.graph, rootDepth, assertedBy) && HolesOf(wk, mid, t, a.error, unread)
  }

  ghost predicate HolesOf(wk: Walker, mid: State, t: State, error: ResolveError, unread: nat) {
    if error.Incomplete? then HolesMarked(wk, mid, t, error.unread) &&
        unread == CountPresent(wk, mid.nodes, error.unread)
    else t == mid && unread == 0
  }

  lemma FoldedIsAsserted(wk: Walker, s: State, t: State, a: Resolution, rootDepth: int, assertedBy: string, unread: nat)
    requires Folded(wk, s, t, a, rootDepth, assertedBy, unread)
    ensures NewAsserted(wk, s.nodes, t.nodes)
  {
    hide Merged, CountPresent, Named;
    var mid :| Merged(wk, s, mid, a.graph, rootDepth, assertedBy) && HolesOf(wk, mid, t, a.error, unread);
    forall y | y in t.nodes && y !in s.nodes
      ensures IsResolved(wk, y, t.nodes[y])
    {
      MergedIsAsserted(wk, s, mid, a.graph, rootDepth, assertedBy, y);
    }
  }

  lemma FoldedIsHeld(wk: Walker, s: State, t: State, a: Resolution, rootDepth: int, assertedBy: string, unread: nat)
    requires Folded(wk, s, t, a, rootDepth, assertedBy, unread)
    ensures Held(wk, t, a.graph)
  {
    hide Merged, MergedId, MergedEdge, WithHole, CountPresent;
    var mid :| Merged(wk, s, mid, a.graph, rootDepth, assertedBy) && HolesOf(wk, mid, t, a.error, unread);
    MergedIsHeld(wk, s, mid, a.graph, rootDepth, assertedBy);
  }

  predicate Askable(n: Node) {
    n.version != "" && RegistryQueryable(n)
  }

  // Only a versioned node with a registry origin is asked about; without an answer nothing changes.
  ghost predicate IsAsserted(wk: Walker, s: State, t: State, x: string, r: Resolver, out: AssertResult, failed: bool) {
    && x in s.nodes
    && var n := s.nodes[x];
       var a := r.resolve(CoordOf(n));
       if !Askable(n) then t == s && out == AssertResult(0, false, 0) && !failed
       else if !a.found then t == s && out == AssertResult(0, false, 0) && failed == (a.error != NoError)
       else out.resolved && failed == (a.error == Failed) && |t.nodes| == |s.nodes| + out.asserted
            && Folded(wk, s, t, a, n.depth, r.nameFor(n.ecosystem), out.unread)
  }

  // Folds one answer in.
  method Fold(wk: Walker, opts: Options, g: Graph, a: Resolution, rootDepth: int, assertedBy: string, w: Walk,
              ghost tr0: Trace)
    returns (asserted: nat, unread: nat, ghost tr: Trace)
    requires CleanWalker(wk) && CleanGraph(a.graph) && Inv(wk, opts, g.View(), w, tr0) && tr0.pending == {}
    requires OwnHoles(wk, opts, a) && opts.resolver.Some?
    modifies g
    ensures Inv(wk, opts, g.View(), w, tr) && Evolves(old(g.View()), g.View())
    ensures Folded(wk, old(g.View()), g.View(), a, rootDepth, assertedBy, unread)
    ensures Grew(tr0, tr, old(g.nodes), g.nodes, asserted) && NewAsserted(wk, old(g.nodes), g.nodes)
  {
    hide Inv, Evolves, CleanWalker, CleanGraph, Merged, HolesMarked, CountPresent, AreHoles;
    ghost var s0 := g.View();
    asserted, tr := MergeResolved(wk, opts, g, rootDepth, a.graph, assertedBy, w, tr0);
    ghost var mid := g.View();
    unread := 0;
    if a.error.Incomplete? {
      unread := MarkUnread(wk, opts, g, a.error.unread, w, tr);
      EvolvesTransitive(s0, mid, g.View());
      HolesKeepSize(wk, mid, g.View(), a.error.unread);
    }
    assert HolesOf(wk, mid, g.View(), a.error, unread);
    FoldedIsAsserted(wk, s0, g.View(), a, rootDepth, assertedBy, unread);
  }

  // Whatever is new is asserted, and identified by its own coordinate.
  ghost predicate NewAsserted(wk: Walker, a: map<string, Node>, b: map<string, Node>) {
    forall y :: y in b && y !in a ==> IsResolved(wk, y, b[y])
  }

  lemma HolesKeepSize(wk: Walker, s: State, t: State, refs: seq<Coord>)
    requires HolesMarked(wk, s, t, refs)
    ensures |t.nodes| == |s.nodes| && t.nodes.Keys == s.nodes.Keys
  {
    SameKeysSameSize(s.nodes, t.nodes);
  }

  method AssertRoot(wk: Walker, opts: Options, g: Graph, x: string, r: Resolver, w: Walk, ghost tr0: Trace)
    returns (out: AssertResult, failed: bool, ghost tr: Trace)
    requires CleanWalker(wk) && CleanResolver(r) && Inv(wk, opts, g.View(), w, tr0) && tr0.pending == {} && x in g.nodes
    requires opts.resolver == Some(r)
    modifies g
    ensures Inv(wk, opts, g.View(), w, tr) && Evolves(old(g.View()), g.View())
    ensures IsAsserted(wk, old(g.View()), g.View(), x, r, out, failed)
    ensures Grew(tr0, tr, old(g.nodes), g.nodes, out.asserted) && (!out.resolved ==> out.asserted == 0)
    ensures NewAsserted(wk, old(g.nodes), g.nodes)
  {
    hide Inv, Evolves, CleanWalker, CleanGraph, Folded, CoordOf, OwnHoles;
    out, failed, tr := AssertResult(0, false, 0), false, tr0;
    EvolvesSelf(g.View());
    GrewNot(tr0, g.nodes);
    var n := g.nodes[x];
    if n.version == "" {
      return;
    }
    if !RegistryQueryable(n) {
      return;
    }
    var a := r.resolve(CoordOf(n));
    if !a.found {
      failed := a.error != NoError;
      return;
    }
    var asserted, unread;
    ResolvedHoles(wk, opts, r, CoordOf(n));
    asserted, unread, tr := Fold(wk, opts, g, a, n.depth, r.nameFor(n.ecosystem), w, tr0);
    out := AssertResult(asserted, true, unread);
    failed := a.error == Failed;
  }

  // Merged nodes are moved from no counter to the asserted one.
  lemma InvRecount(wk: Walker, opts: Options, s: State, w: Walk, tr: Trace, n: nat, unread: nat)
    requires Inv(wk, opts, s, w, tr) && n <= tr.uncounted
    ensures Inv(wk, opts, s, w.(res := w.res.(asserted := w.res.asserted + n, unread := w.res.unread + unread)),
                tr.(uncounted := tr.uncounted - n))
  {
    hide Sound, Explained, Confines, Evolves, NamesAnswer, NothingLost, Accounted, Heard, WalkContained, NewAccounted;
    var res := w.res.(asserted := w.res.asserted + n, unread := w.res.unread + unread);
    WalkContainedIgnoresRes(s.edges, tr.root, w, res);
    LedgersIgnoreCounters(wk, s.nodes, w, tr, w.(res := res), tr.(uncounted := tr.uncounted - n));
    NamesAnswerIgnoresRes(wk, s.nodes, w, res);
    ExplainedIgnoresRes(wk, opts, tr.before.nodes, s.nodes, w.res, res, tr.cut);
  }

  lemma NamesAnswerIgnoresRes(wk: Walker, nodes: map<string, Node>, w: Walk, res: Result)
    requires NamesAnswer(wk, nodes, w.byName)
    ensures NamesAnswer(wk, nodes, w.(res := res).byName)
  {
    hide Answers;
  }

  // ----- Direct dependencies -----

  // The targets of a node's declared edges, in graph edge order.
  method DirectDepIds(es: seq<Edge>, id: string) returns (out: seq<string>)
    ensures out == Targets(Sort(es, EdgeLess), DEPENDS, id)
    ensures forall y :: y in out <==> Hop(es, DEPENDS, id, y)
  {
    hide Sort, EdgeLess, Hop;
    var sorted := Sort(es, EdgeLess);
    out := [];
    for i := 0 to |sorted|
      invariant out == Targets(sorted[..i], DEPENDS, id)
    {
      assert sorted[..i + 1][..i] == sorted[..i];
      if sorted[i].kind == DependsOn && sorted[i].from == id {
        out := out + [sorted[i].to];
      }
    }
    assert sorted[..|sorted|] == sorted;
    DirectMembers(es, id);
  }

  lemma DirectMembers(es: seq<Edge>, id: string)
    ensures forall y :: y in Targets(Sort(es, EdgeLess), DEPENDS, id) <==> Hop(es, DEPENDS, id, y)
  {
    hide Targets, Sort, EdgeLess;
    EdgesSorted(es);
    forall y
      ensures y in Targets(Sort(es, EdgeLess), DEPENDS, id) <==> Hop(es, DEPENDS, id, y)
    {
      TargetsAreHops(Sort(es, EdgeLess), DEPENDS, id, y);
    }
  }

  // A direct dependency worth asking about: a versioned registry package nobody resolved yet.
  predicate WorthAsking(n: Node) {
    n.kind == Package && Askable(n) && n.VersionTruth() != TRUTH_ASSERTED
  }

  // The direct dependencies worth asking about, each once, in identifier order.
  method DepsToAssert(g: Graph, root: string) returns (deps: seq<string>)
    ensures NoDuplicates(deps) && AreDeps(g.View(), root, deps)
  {
    hide Hop, WorthAsking, Targets, Sort, EdgeLess, StringLess;
    var ids := DirectDepIds(g.edges, root);
    var seen: set<string> := {};
    deps := [];
    for i := 0 to |ids|
      invariant forall y :: y in seen <==> y in ids[..i]
      invariant NoDuplicates(deps)
      invariant forall y :: y in deps <==> y in ids[..i] && y in g.nodes && WorthAsking(g.nodes[y])
    {
      assert ids[..i + 1] == ids[..i] + [ids[i]];
      if ids[i] in seen {
        continue;
      }
      seen := seen + {ids[i]};
      if ids[i] !in g.nodes || !WorthAsking(g.nodes[ids[i]]) {
        continue;
      }
      deps := deps + [ids[i]];
    }
    assert ids[..|ids|] == ids;
    SortMembers(deps, StringLess);
    StringOrder();
    SortStrictlyIncreasing(deps, StringLess);
    deps := Sort(deps, StringLess);
  }

  ghost predicate AreDeps(s: State, root: string, deps: seq<string>) {
    Increasing(deps) && forall y :: y in deps <==>
        Hop(s.edges, DEPENDS, root, y) && y in s.nodes && WorthAsking(s.nodes[y])
  }

  lemma {:induction false} IncreasingIsUnique(a: seq<string>, b: seq<string>)
    requires Increasing(a) && Increasing(b) && forall y :: y in a <==> y in b
    ensures a == b
  {
    hide StringLess;
    StringOrder();
    assert (a == [] || a[0] in a) && (b == [] || b[0] in b);
    if a != [] && b != [] {
      var m, n := |a| - 1, |b| - 1;
      assert a[m] in b && b[n] in a;
      assert a[m] == b[n];
      forall y
        ensures y in a[..m] <==> y in b[..n]
      {
        assert y in a <==> y in a[..m] || y == a[m];
        assert y in b <==> y in b[..n] || y == b[n];
      }
      IncreasingIsUnique(a[..m], b[..n]);
      assert a == a[..m] + [a[m]] && b == b[..n] + [b[n]];
    }
  }

  lemma DepsAreNodes(s: State, root: string, deps: seq<string>)
    requires AreDeps(s, root, deps)
    ensures forall i :: 0 <= i < |deps| ==> deps[i] in s.nodes
  {
    hide Increasing, Hop, WorthAsking;
    assert forall i :: 0 <= i < |deps| ==> deps[i] in deps;
  }

  // There is one such list.
  lemma DepsAreUnique(s: State, root: string, a: seq<string>, b: seq<string>)
    requires AreDeps(s, root, a) && AreDeps(s, root, b)
    ensures a == b
  {
    hide Increasing, Hop, WorthAsking;
    IncreasingIsUnique(a, b);
  }

  // ----- What a failing resolver adds and nobody counts -----

  // The resolver failed on this node, and answered all the same.
  predicate FailsOn(r: Resolver, n: Node) {
    r.resolve(CoordOf(n)).found && r.resolve(CoordOf(n)).error == Failed
  }

  // The identifiers that asking about this node brings into the graph.
  ghost function Brings(wk: Walker, r: Resolver, n: Node): set<string> {
    if r.resolve(CoordOf(n)).found then NamesIn(wk, r.resolve(CoordOf(n)).graph) else {}
  }

  // The identifiers in the graph when these dependencies have been asked about, one after another.
  ghost function KeysAfter(wk: Walker, r: Resolver, nodes: map<string, Node>, deps: seq<string>): set<string>
    requires forall y :: y in deps ==> y in nodes
  {
    if deps == [] then nodes.Keys
    else KeysAfter(wk, r, nodes, deps[..|deps| - 1]) + Brings(wk, r, nodes[deps[|deps| - 1]])
  }

  // How many nodes that adds to the graph and to no counter.
  ghost function Missed(wk: Walker, r: Resolver, nodes: map<string, Node>, deps: seq<string>): nat
    requires forall y :: y in deps ==> y in nodes
  {
    if deps == [] then 0
    else
      var before, n := deps[..|deps| - 1], nodes[deps[|deps| - 1]];
      Missed(wk, r, nodes, before) + if FailsOn(r, n) then |Brings(wk, r, n) - KeysAfter(wk, r, nodes, before)| else 0
  }

  // The resolver failed on the i-th dependency and named what the graph then lacked.
  ghost predicate MissesAt(wk: Walker, r: Resolver, nodes: map<string, Node>, deps: seq<string>, i: nat)
    requires i < |deps| && forall y :: y in deps ==> y in nodes
  {
    FailsOn(r, nodes[deps[i]]) && !(Brings(wk, r, nodes[deps[i]]) <= KeysAfter(wk, r, nodes, deps[..i]))
  }

  // The resolver answered about the i-th dependency without failing, and named what the graph then
  // lacked: this is what closes it.
  ghost predicate ClosesAt(wk: Walker, r: Resolver, nodes: map<string, Node>, deps: seq<string>, i: nat)
    requires i < |deps| && forall y :: y in deps ==> y in nodes
  {
    !FailsOn(r, nodes[deps[i]]) && !(Brings(wk, r, nodes[deps[i]]) <= KeysAfter(wk, r, nodes, deps[..i]))
  }

  ghost predicate Closing(wk: Walker, r: Resolver, nodes: map<string, Node>, deps: seq<string>, i: nat, y: string)
    requires i <= |deps| && forall y :: y in deps ==> y in nodes
  {
    exists j: nat :: j < i && deps[j] == y && ClosesAt(wk, r, nodes, deps, j)
  }

  lemma ClosingGrows(wk: Walker, r: Resolver, nodes: map<string, Node>, deps: seq<string>, i: nat)
    requires i < |deps| && forall y :: y in deps ==> y in nodes
    ensures forall y :: Closing(wk, r, nodes, deps, i + 1, y) <==>
              Closing(wk, r, nodes, deps, i, y) || (y == deps[i] && ClosesAt(wk, r, nodes, deps, i))
  {
    hide ClosesAt;
    forall y
      ensures Closing(wk, r, nodes, deps, i + 1, y) <==>
                Closing(wk, r, nodes, deps, i, y) || (y == deps[i] && ClosesAt(wk, r, nodes, deps, i))
    {
      if Closing(wk, r, nodes, deps, i, y) {
        var j: nat :| j < i && deps[j] == y && ClosesAt(wk, r, nodes, deps, j);
        assert j < i + 1;
      }
      if y == deps[i] && ClosesAt(wk, r, nodes, deps, i) {
        assert i < i + 1;
      }
    }
  }

  // Some node is in no counter exactly when that happened.
  lemma {:induction false} MissedExactly(wk: Walker, r: Resolver, nodes: map<string, Node>, deps: seq<string>)
    requires forall y :: y in deps ==> y in nodes
    ensures Missed(wk, r, nodes, deps) > 0 <==> exists i: nat :: i < |deps| && MissesAt(wk, r, nodes, deps, i)
  {
    hide MissesAt, FailsOn, Brings, KeysAfter;
    if deps != [] {
      var m := |deps| - 1;
      MissedExactly(wk, r, nodes, deps[..m]);
      LastMissed(wk, r, nodes, deps);
      hide Missed;
      forall i: nat | i < m
        ensures MissesAt(wk, r, nodes, deps[..m], i) <==> MissesAt(wk, r, nodes, deps, i)
      {
        MissedEarlier(wk, r, nodes, deps, m, i);
      }
    }
  }

  lemma MissedEarlier(wk: Walker, r: Resolver, nodes: map<string, Node>, deps: seq<string>, m: nat, i: nat)
    requires i < m < |deps| && forall y :: y in deps ==> y in nodes
    ensures MissesAt(wk, r, nodes, deps[..m], i) <==> MissesAt(wk, r, nodes, deps, i)
  {
    hide FailsOn, Brings, KeysAfter;
    assert deps[..m][i] == deps[i] && deps[..m][..i] == deps[..i];
  }

  lemma LastMissed(wk: Walker, r: Resolver, nodes: map<string, Node>, deps: seq<string>)
    requires deps != [] && forall y :: y in deps ==> y in nodes
    ensures Missed(wk, r, nodes, deps[..|deps| - 1]) <= Missed(wk, r, nodes, deps)
    ensures Missed(wk, r, nodes, deps[..|deps| - 1]) < Missed(wk, r, nodes, deps) <==>
              MissesAt(wk, r, nodes, deps, |deps| - 1)
  {
    hide FailsOn, Brings, KeysAfter;
    var n := nodes[deps[|deps| - 1]];
    var more := Brings(wk, r, n) - KeysAfter(wk, r, nodes, deps[..|deps| - 1]);
    assert |more| == 0 <==> more == {};
    NothingLeft(Brings(wk, r, n), KeysAfter(wk, r, nodes, deps[..|deps| - 1]));
  }

  lemma NothingLeft(a: set<string>, b: set<string>)
    ensures a - b == {} <==> a <= b
  {
    if a - b == {} {
      forall x | x in a
        ensures x in b
      {
        assert x !in a - b;
      }
    }
  }

  // It happens: the graph has the root r and its dependency a; asked about a, a resolver names a and a
  // new b, and fails.
  lemma FailedAnswerIsMissed(root: Node, a: Node)
    requires root.id == "r" && a.id == "a" && a.kind == Package && a.ecosystem == "npm" && a.version == "1" &&
             a.attr == map[]
    ensures var wk := Walker(map[], None);
            var r := Resolver(_ => "", c => Resolution(true, ResolvedGraph([c, Coord("npm", "b", "1")], []), Failed),
                              None);
            var s := AddEdge(AddNode(AddNode(EMPTY, root), a), Edge("r", "a", DependsOn));
            AreDeps(s, "r", ["a"]) && Missed(wk, r, s.nodes, ["a"]) == 1
  {
    var wk := Walker(map[], None);
    var r := Resolver(_ => "", c => Resolution(true, ResolvedGraph([c, Coord("npm", "b", "1")], []), Failed), None);
    var s := AddEdge(AddNode(AddNode(EMPTY, root), a), Edge("r", "a", DependsOn));
    OnlyDependency(root, a);
    hide EdgeKey, AreDeps;
    assert s.nodes.Keys == {"r", "a"} && CoordOf(s.nodes["a"]) == Coord("npm", a.name, "1");
    NamesOnlyB(wk, CoordOf(s.nodes["a"]));
    hide NamesIn, CoordOf;
    assert s.nodes.Keys == KeysAfter(wk, r, s.nodes, []);
    assert Missed(wk, r, s.nodes, []) == 0;
    assert ["a"][..0] == [];
    assert {"pkg:npm/b@1"} - s.nodes.Keys == {"pkg:npm/b@1"} by {
      assert |"pkg:npm/b@1"| > 1;
    }
  }

  lemma NamesOnlyB(wk: Walker, c: Coord)
    requires wk.declarers == map[]
    ensures NamesIn(wk, ResolvedGraph([c, Coord("npm", "b", "1")], [])) == {"pkg:npm/b@1"}
  {
    var b := Coord("npm", "b", "1");
    var rg := ResolvedGraph([c, b], []);
    assert PlainId(b) == "pkg:npm/b@1";
    assert MergedId(wk, rg.nodes[1]) == "pkg:npm/b@1";
  }

  lemma OnlyDependency(root: Node, a: Node)
    requires root.id == "r" && a.id == "a" && a.kind == Package && a.version == "1" && a.attr == map[]
    ensures AreDeps(AddEdge(AddNode(AddNode(EMPTY, root), a), Edge("r", "a", DependsOn)), "r", ["a"])
  {
    hide EdgeKey;
    var s := AddEdge(AddNode(AddNode(EMPTY, root), a), Edge("r", "a", DependsOn));
    assert s.edges == [Edge("r", "a", DependsOn)];
    assert s.edges[0] in s.edges;
    assert Hop(s.edges, DEPENDS, "r", "a");
    assert WorthAsking(s.nodes["a"]);
    assert "a" in ["a"];
  }

  // Takes the nodes below a dependency into the subtree.  A name that already has a node keeps it; of
  // two new nodes with one name, either may get it.
  method TakeSubtree(wk: Walker, opts: Options, g: Graph, subtree: set<string>, w0: Walk,
                     ghost tr: Trace) returns (w: Walk)
    requires Inv(wk, opts, g.View(), w0, tr) && Contained(g.edges, tr.root, subtree)
    ensures Inv(wk, opts, g.View(), w, tr)
    ensures w == w0.(byName := w.byName, inSubtree := w0.inSubtree + subtree)
    ensures forall k :: k in w0.byName ==> k in w.byName && w.byName[k] == w0.byName[k]
    ensures forall id :: id in subtree && id in g.nodes ==> Findable(wk, g.nodes[id], w.byName)
  {
    hide Inv, Findable, Reaches;
    w := w0;
    var rest := subtree;
    while rest != {}
      invariant rest <= subtree && Inv(wk, opts, g.View(), w, tr)
      invariant w == w0.(byName := w.byName, inSubtree := w0.inSubtree + (subtree - rest))
      invariant forall k :: k in w0.byName ==> k in w.byName && w.byName[k] == w0.byName[k]
      invariant forall id :: id in subtree && id !in rest && id in g.nodes ==> Findable(wk, g.nodes[id], w.byName)
      decreases rest
    {
      var id :| id in rest;
      rest := rest - {id};
      ghost var w1 := w;
      w := TakeOne(wk, opts, g, id, w, tr);
      FindableStays(wk, w1.byName, w.byName);
      assert w1.inSubtree + {id} == w0.inSubtree + (subtree - rest);
    }
  }

  // A named package of a known ecosystem is indexed under its canonical name.
  ghost predicate Findable(wk: Walker, n: Node, byName: map<NameKey, string>) {
    n.kind == Package && n.ecosystem in wk.declarers ==>
      var k := NameKey(n.ecosystem, wk.declarers[n.ecosystem].identify(n.name, n.version).1);
      k.canonical != "" ==> k in byName
  }

  lemma FindableStays(wk: Walker, a: map<NameKey, string>, b: map<NameKey, string>)
    requires a.Keys <= b.Keys
    ensures forall n :: Findable(wk, n, a) ==> Findable(wk, n, b)
  {
  }

  method TakeOne(wk: Walker, opts: Options, g: Graph, id: string, w0: Walk, ghost tr: Trace) returns (w: Walk)
    requires Inv(wk, opts, g.View(), w0, tr) && Reaches(g.edges, DEPENDS, tr.root, id)
    ensures Inv(wk, opts, g.View(), w, tr)
    ensures w == w0.(byName := w.byName, inSubtree := w0.inSubtree + {id})
    ensures w0.byName.Keys <= w.byName.Keys && forall k :: k in w0.byName ==> w.byName[k] == w0.byName[k]
    ensures id in g.nodes ==> Findable(wk, g.nodes[id], w.byName)
  {
    hide Inv, Reaches;
    InvSubtree(wk, opts, g.View(), w0, tr, {id});
    w := w0.(inSubtree := w0.inSubtree + {id});
    if id !in g.nodes || g.nodes[id].kind != Package {
      return;
    }
    var cn := g.nodes[id];
    if cn.ecosystem !in wk.declarers {
      return;
    }
    var canonical := wk.declarers[cn.ecosystem].identify(cn.name, cn.version).1;
    var k := NameKey(cn.ecosystem, canonical);
    if canonical != "" && k !in w.byName {
      InvHolds(wk, opts, g.View(), w, tr, k, id);
      assert w.inSubtree + {id} == w.inSubtree;
      w := w.(byName := w.byName[k := id]);
    }
  }

  // ----- Asking about each direct dependency -----

  // What the asserted tier may change in the walk and its trace.
  ghost predicate OnlyClosed(w0: Walk, w: Walk, tr0: Trace, tr: Trace) {
    && tr == tr0.(closed := tr.closed, merged := tr.merged, uncounted := tr.uncounted) && tr0.closed <= tr.closed &&
       tr0.uncounted <= tr.uncounted
    && w.frontier == w0.frontier && w0.expanded <= w.expanded && w0.inSubtree <= w.inSubtree
    && w.res == w0.res.(asserted := w.res.asserted, unread := w.res.unread)
    && (forall k :: k in w0.byName ==> k in w.byName && w.byName[k] == w0.byName[k])
    && (tr.closed == {} ==> w.byName == w0.byName)
    && (tr0.closed <= w0.expanded ==> tr.closed <= w.expanded) &&
       (w0.expanded <= tr0.closed ==> w.expanded <= tr.closed)
  }

  lemma OnlyClosedTransitive(w0: Walk, w1: Walk, w2: Walk, tr0: Trace, tr1: Trace, tr2: Trace)
    requires OnlyClosed(w0, w1, tr0, tr1) && OnlyClosed(w1, w2, tr1, tr2)
    ensures OnlyClosed(w0, w2, tr0, tr2)
  {
  }

  // The nodes new to the graph are those the resolver is known to have added, and are asserted.
  ghost predicate MergedSince(wk: Walker, tr0: Trace, tr: Trace, a: map<string, Node>, b: map<string, Node>) {
    && a.Keys <= b.Keys && tr.merged == tr0.merged + (b.Keys - a.Keys)
    && NewAsserted(wk, a, b)
  }

  lemma NothingMerged(wk: Walker, tr: Trace, a: map<string, Node>)
    ensures MergedSince(wk, tr, tr, a, a)
  {
  }

  lemma MergedSinceTransitive(wk: Walker, tr0: Trace, tr1: Trace, tr2: Trace, a: map<string, Node>,
                              b: map<string, Node>,
                              c: map<string, Node>)
    requires MergedSince(wk, tr0, tr1, a, b) && MergedSince(wk, tr1, tr2, b, c) && NodesEvolve(b, c)
    ensures MergedSince(wk, tr0, tr2, a, c)
  {
    hide NodesEvolve, MergedId, CoordOf;
    forall y | y in b && y !in a
      ensures IsResolved(wk, y, c[y])
    {
      SameTruth(b, c, y);
    }
    assert (b.Keys - a.Keys) + (c.Keys - b.Keys) == c.Keys - a.Keys;
  }

  lemma SameTruth(a: map<string, Node>, b: map<string, Node>, y: string)
    requires NodesEvolve(a, b) && y in a
    ensures y in b && b[y].VersionTruth() == a[y].VersionTruth() && CoordOf(b[y]) == CoordOf(a[y])
  {
    hide GoodNew;
    assert Evolved(a[y], b[y]);
  }

  // Whatever the resolver answers about this node is in the graph.
  ghost predicate AnswerHeld(wk: Walker, t: State, r: Resolver, n: Node) {
    r.resolve(CoordOf(n)).found ==> Held(wk, t, r.resolve(CoordOf(n)).graph)
  }

  lemma AssertedIsHeld(wk: Walker, s: State, t: State, x: string, r: Resolver, out: AssertResult, failed: bool)
    requires IsAsserted(wk, s, t, x, r, out, failed) && WorthAsking(s.nodes[x])
    ensures AnswerHeld(wk, t, r, s.nodes[x])
  {
    hide Folded, Held, CoordOf;
    var n := s.nodes[x];
    var a := r.resolve(CoordOf(n));
    if a.found {
      FoldedIsHeld(wk, s, t, a, n.depth, r.nameFor(n.ecosystem), out.unread);
    }
  }

  lemma AnswerHeldStays(wk: Walker, s: State, t: State, r: Resolver, n: Node)
    requires AnswerHeld(wk, s, r, n) && Evolves(s, t)
    ensures AnswerHeld(wk, t, r, n)
  {
    hide Held, Evolves, CoordOf;
    if r.resolve(CoordOf(n)).found {
      HeldStays(wk, s, t, r.resolve(CoordOf(n)).graph);
    }
  }

  // One direct dependency: when the resolver added nodes without failing, its subtree is closed and
  // taken in; nodes a failing resolver added stay in the graph but in no counter.
  method AssertOne(wk: Walker, opts: Options, g: Graph, root: string, dep: string, r: Resolver, w0: Walk,
                   ghost tr0: Trace)
    returns (w: Walk, ghost tr: Trace)
    requires CleanWalker(wk) && CleanResolver(r) && Inv(wk, opts, g.View(), w0, tr0) && tr0.pending == {} &&
             root == tr0.root
    requires dep in g.nodes && Hop(g.edges, DEPENDS, root, dep) && opts.resolver == Some(r)
    modifies g
    ensures Inv(wk, opts, g.View(), w, tr) && Evolves(old(g.View()), g.View()) && OnlyClosed(w0, w, tr0, tr)
    ensures exists out, failed :: IsAsserted(wk, old(g.View()), g.View(), dep, r, out, failed) &&
             Taken(g.View(), dep, out, failed, w0, w, tr0, tr)
    ensures MergedSince(wk, tr0, tr, old(g.nodes), g.nodes)
  {
    hide Inv, Evolves, CleanWalker, CleanResolver, IsAsserted, Hop, Reaches, Findable, NewAsserted;
    ghost var s0 := g.View();
    var out, failed;
    out, failed, tr := AssertRoot(wk, opts, g, dep, r, w0, tr0);
    InvRecount(wk, opts, g.View(), w0, tr, 0, out.unread);
    assert tr.(uncounted := tr.uncounted - 0) == tr;
    w := w0.(res := w0.res.(asserted := w0.res.asserted + 0, unread := w0.res.unread + out.unread));
    if failed || !out.resolved || out.asserted == 0 {
      assert Taken(g.View(), dep, out, failed, w0, w, tr0, tr);
      return;
    }
    InvRecount(wk, opts, g.View(), w, tr, out.asserted, 0);
    w := w.(res := w.res.(asserted := w.res.asserted + out.asserted, unread := w.res.unread + 0));
    tr := tr.(uncounted := tr.uncounted - out.asserted);
    InvCloses(wk, opts, g.View(), w, tr, {dep});
    w := w.(expanded := w.expanded + {dep});
    tr := tr.(closed := tr.closed + {dep});
    var subtree := Subtree(g.edges, dep);
    BelowRoot(s0, g.View(), root, dep, subtree);
    w := TakeSubtree(wk, opts, g, subtree, w, tr);
    assert tr0.uncounted + out.asserted - out.asserted == tr0.uncounted;
    assert Taken(g.View(), dep, out, failed, w0, w, tr0, tr);
  }

  // What one dependency's answer does to the walk.
  ghost predicate Taken(s: State, dep: string, out: AssertResult, failed: bool, w0: Walk, w: Walk, tr0: Trace,
                        tr: Trace) {
    && w.res.unread == w0.res.unread + out.unread
    && (if failed || out.asserted == 0 then
          && w == w0.(res := w.res) && tr.closed == tr0.closed
          && w.res.asserted == w0.res.asserted && tr.uncounted == tr0.uncounted + out.asserted
        else
          && w.expanded == w0.expanded + {dep} && tr.closed == tr0.closed + {dep}
          && (forall y :: Reaches(s.edges, DEPENDS, dep, y) ==> y in w.inSubtree)
          && w.res.asserted == w0.res.asserted + out.asserted && tr.uncounted == tr0.uncounted)
  }

  lemma BelowRoot(s: State, t: State, root: string, dep: string, subtree: set<string>)
    requires Evolves(s, t) && Hop(s.edges, DEPENDS, root, dep)
    requires forall y :: y in subtree ==> Reaches(t.edges, DEPENDS, dep, y)
    ensures Contained(t.edges, root, subtree)
  {
    hide Reaches, NodesEvolve;
    HopsReach(s.edges, DEPENDS, root, dep);
    ReachesMonotone(s.edges, t.edges, DEPENDS, root, dep);
    forall y | y in subtree
      ensures Reaches(t.edges, DEPENDS, root, y)
    {
      ReachesTransitive(t.edges, DEPENDS, root, dep, y);
    }
  }

  // The first i dependencies have been asked about.
  ghost predicate Asking(wk: Walker, r: Resolver, root: string, s0: State, s: State, w0: Walk, w: Walk, tr0: Trace,
                         tr: Trace, deps: seq<string>, i: nat) {
    && i <= |deps| && AreDeps(s0, root, deps) && Evolves(s0, s) && OnlyClosed(w0, w, tr0, tr) && tr0.pending == {} &&
       root == tr0.root
    && s.nodes.Keys == KeysAfter(wk, r, s0.nodes, deps[..i])
    && tr.uncounted == tr0.uncounted + Missed(wk, r, s0.nodes, deps[..i])
    && (forall y :: y in tr.closed <==> y in tr0.closed || Closing(wk, r, s0.nodes, deps, i, y))
    && MergedSince(wk, tr0, tr, s0.nodes, s.nodes)
    && (forall k :: 0 <= k < i ==> AnswerHeld(wk, s, r, s0.nodes[deps[k]]))
  }

  lemma AskingStarts(wk: Walker, r: Resolver, root: string, s: State, w: Walk, tr: Trace, deps: seq<string>)
    requires AreDeps(s, root, deps) && tr.pending == {} && root == tr.root
    ensures Asking(wk, r, root, s, s, w, w, tr, tr, deps, 0)
  {
    EvolvesSelf(s);
    NothingClosed(w, tr);
    NothingMerged(wk, tr, s.nodes);
    hide Evolves, OnlyClosed, MergedSince, Increasing, Hop, WorthAsking, ClosesAt;
    assert deps[..0] == [];
  }

  lemma AskingAt(wk: Walker, r: Resolver, root: string, s0: State, s: State, w0: Walk, w: Walk, tr0: Trace,
                 tr: Trace, deps: seq<string>, i: nat)
    requires Asking(wk, r, root, s0, s, w0, w, tr0, tr, deps, i) && i < |deps|
    ensures tr.pending == {} && root == tr.root && deps[i] in s0.nodes && WorthAsking(s0.nodes[deps[i]])
    ensures deps[i] in s.nodes && Hop(s.edges, DEPENDS, root, deps[i]) && Askable(s.nodes[deps[i]])
  {
    hide AnswerHeld, MergedSince, Evolves, Increasing, Hop, WorthAsking, Askable, Missed, KeysAfter, Closing;
    assert deps[i] in deps;
    StillDirect(s0, s, root, deps[i]);
    StillAskable(s0, s, deps[i]);
  }

  lemma AskingSteps(wk: Walker, r: Resolver, root: string, s0: State, s: State, t: State, w0: Walk, w: Walk, v: Walk,
                    tr0: Trace, tr: Trace, ur: Trace, deps: seq<string>, i: nat, out: AssertResult, failed: bool)
    requires Asking(wk, r, root, s0, s, w0, w, tr0, tr, deps, i) && i < |deps|
    requires Evolves(s, t) && OnlyClosed(w, v, tr, ur) && MergedSince(wk, tr, ur, s.nodes, t.nodes)
    requires IsAsserted(wk, s, t, deps[i], r, out, failed) && Taken(t, deps[i], out, failed, w, v, tr, ur)
    ensures Asking(wk, r, root, s0, t, w0, v, tr0, ur, deps, i + 1)
  {
    hide Closing, MergedSince, Evolves, IsAsserted, Hop, Taken, WorthAsking, OnlyClosed, Missed, KeysAfter, Increasing,
         Askable, FailsOn, Brings, AnswerHeld, AreDeps;
    AskingAt(wk, r, root, s0, s, w0, w, tr0, tr, deps, i);
    DepsAreNodes(s0, root, deps);
    AskedOne(wk, r, root, s0, s, t, w0, w, v, tr0, tr, ur, deps, i, out, failed);
    EvolvesTransitive(s0, s, t);
    OnlyClosedTransitive(w0, w, v, tr0, tr, ur);
    EvolvesNodes(s, t);
    MergedSinceTransitive(wk, tr0, tr, ur, s0.nodes, s.nodes, t.nodes);
    DepAnswered(wk, s0, s, t, deps[i], r, out, failed);
    forall k | 0 <= k < i
      ensures AnswerHeld(wk, t, r, s0.nodes[deps[k]])
    {
      AnswerHeldStays(wk, s, t, r, s0.nodes[deps[k]]);
    }
  }

  // The counting half of a step.
  lemma AskedOne(wk: Walker, r: Resolver, root: string, s0: State, s: State, t: State, w0: Walk, w: Walk, v: Walk,
                 tr0: Trace, tr: Trace, ur: Trace, deps: seq<string>, i: nat, out: AssertResult, failed: bool)
    requires Asking(wk, r, root, s0, s, w0, w, tr0, tr, deps, i) && i < |deps| && OnlyClosed(w, v, tr, ur)
    requires IsAsserted(wk, s, t, deps[i], r, out, failed) && Taken(t, deps[i], out, failed, w, v, tr, ur)
    requires deps[i] in s.nodes && Askable(s.nodes[deps[i]])
    ensures t.nodes.Keys == KeysAfter(wk, r, s0.nodes, deps[..i + 1])
    ensures ur.uncounted == tr0.uncounted + Missed(wk, r, s0.nodes, deps[..i + 1])
    ensures forall y :: y in ur.closed <==> y in tr0.closed || Closing(wk, r, s0.nodes, deps, i + 1, y)
  {
    hide AnswerHeld, Closing, MergedSince, Evolves, IsAsserted, Hop, Taken, WorthAsking, OnlyClosed, Missed, KeysAfter,
         Increasing, Askable, FailsOn, Brings;
    assert deps[i] in deps;
    OneCloses(wk, s, t, deps[i], r, out, failed, w, v, tr, ur);
    AskingCounts(wk, r, s0, s, deps, i);
    ClosingGrows(wk, r, s0.nodes, deps, i);
  }

  lemma AskingEnds(wk: Walker, r: Resolver, root: string, s0: State, s: State, w0: Walk, w: Walk, tr0: Trace,
                   tr: Trace, deps: seq<string>)
    requires Asking(wk, r, root, s0, s, w0, w, tr0, tr, deps, |deps|)
    ensures Evolves(s0, s) && OnlyClosed(w0, w, tr0, tr) && MergedSince(wk, tr0, tr, s0.nodes, s.nodes) &&
            AreDeps(s0, root, deps)
    ensures tr.uncounted == tr0.uncounted + Missed(wk, r, s0.nodes, deps) &&
            s.nodes.Keys == KeysAfter(wk, r, s0.nodes, deps)
    ensures forall y :: y in tr.closed <==> y in tr0.closed || Closing(wk, r, s0.nodes, deps, |deps|, y)
    ensures forall y :: y in deps ==> y in s0.nodes && AnswerHeld(wk, s, r, s0.nodes[y])
  {
    hide AnswerHeld, Closing, MergedSince, Evolves, Hop, WorthAsking, OnlyClosed, Missed, KeysAfter, Increasing;
    assert deps[..|deps|] == deps;
    forall y | y in deps
      ensures AnswerHeld(wk, s, r, s0.nodes[y])
    {
      var k :| 0 <= k < |deps| && deps[k] == y;
    }
  }

  // Asks about every direct dependency worth asking about, in identifier order.
  method AssertDirectSubtrees(wk: Walker, opts: Options, g: Graph, root: string, r: Resolver, w0: Walk,
                              ghost tr0: Trace)
    returns (w: Walk, ghost tr: Trace, ghost deps: seq<string>)
    requires CleanWalker(wk) && CleanResolver(r) && Inv(wk, opts, g.View(), w0, tr0) && tr0.pending == {} &&
             root == tr0.root
    requires opts.resolver == Some(r)
    modifies g
    ensures Inv(wk, opts, g.View(), w, tr) && Evolves(old(g.View()), g.View()) && OnlyClosed(w0, w, tr0, tr)
    ensures AreDeps(old(g.View()), root, deps) && tr.uncounted == tr0.uncounted + Missed(wk, r, old(g.nodes), deps)
    ensures g.nodes.Keys == KeysAfter(wk, r, old(g.nodes), deps)
    ensures forall y :: y in tr.closed <==> y in tr0.closed || Closing(wk, r, old(g.nodes), deps, |deps|, y)
    ensures MergedSince(wk, tr0, tr, old(g.nodes), g.nodes)
    ensures forall y :: y in deps ==> y in old(g.nodes) && AnswerHeld(wk, g.View(), r, old(g.nodes)[y])
  {
    hide AnswerHeld, Closing, MergedSince, Inv, Evolves, CleanWalker, CleanResolver, IsAsserted, Hop, Taken,
         WorthAsking, OnlyClosed, Missed, KeysAfter, Increasing, Askable, Asking;
    ghost var s0 := g.View();
    w, tr := w0, tr0;
    var asked := DepsToAssert(g, root);
    deps := asked;
    AskingStarts(wk, r, root, s0, w, tr, asked);
    for i := 0 to |asked|
      invariant Inv(wk, opts, g.View(), w, tr) && Asking(wk, r, root, s0, g.View(), w0, w, tr0, tr, asked, i)
    {
      ghost var s, w1, tr1 := g.View(), w, tr;
      AskingAt(wk, r, root, s0, s, w0, w, tr0, tr, asked, i);
      w, tr := AssertOne(wk, opts, g, root, asked[i], r, w, tr);
      ghost var out, failed :| IsAsserted(wk, s, g.View(), asked[i], r, out, failed) &&
          Taken(g.View(), asked[i], out, failed, w1, w, tr1, tr);
      AskingSteps(wk, r, root, s0, s, g.View(), w0, w1, w, tr0, tr1, tr, asked, i, out, failed);
    }
    AskingEnds(wk, r, root, s0, g.View(), w0, w, tr0, tr, asked);
  }

  // An asked dependency's answer is held; asking later does not change the question.
  lemma DepAnswered(wk: Walker, s0: State, s: State, t: State, dep: string, r: Resolver, out: AssertResult,
                    failed: bool)
    requires Evolves(s0, s) && dep in s0.nodes && WorthAsking(s0.nodes[dep]) &&
             IsAsserted(wk, s, t, dep, r, out, failed)
    ensures AnswerHeld(wk, t, r, s0.nodes[dep])
  {
    hide IsAsserted, AnswerHeld, EdgesEvolve;
    assert Evolved(s0.nodes[dep], s.nodes[dep]);
    hide NodesEvolve;
    assert WorthAsking(s.nodes[dep]) && CoordOf(s.nodes[dep]) == CoordOf(s0.nodes[dep]);
    AssertedIsHeld(wk, s, t, dep, r, out, failed);
    SameQuestion(wk, t, r, s.nodes[dep], s0.nodes[dep]);
  }

  lemma SameQuestion(wk: Walker, t: State, r: Resolver, m: Node, n: Node)
    requires AnswerHeld(wk, t, r, m) && CoordOf(m) == CoordOf(n)
    ensures AnswerHeld(wk, t, r, n)
  {
    hide Held;
  }

  lemma NothingClosed(w: Walk, tr: Trace)
    ensures OnlyClosed(w, w, tr, tr)
  {
  }

  lemma EvolvesNodes(s: State, t: State)
    requires Evolves(s, t)
    ensures NodesEvolve(s.nodes, t.nodes)
  {
    hide NodesEvolve, EdgesEvolve;
  }

  lemma StillAskable(s: State, t: State, dep: string)
    requires Evolves(s, t) && dep in s.nodes && WorthAsking(s.nodes[dep])
    ensures dep in t.nodes && Askable(t.nodes[dep])
  {
    hide EdgesEvolve;
    assert Evolved(s.nodes[dep], t.nodes[dep]);
    hide NodesEvolve;
  }

  lemma StillDirect(s: State, t: State, root: string, dep: string)
    requires Evolves(s, t) && dep in s.nodes && Hop(s.edges, DEPENDS, root, dep)
    ensures dep in t.nodes && Hop(t.edges, DEPENDS, root, dep)
  {
  }

  // Only a resolver that fails with an answer leaves merged nodes uncounted.
  lemma OneCloses(wk: Walker, s: State, t: State, dep: string, r: Resolver, out: AssertResult, failed: bool, w0: Walk,
                  w: Walk, tr0: Trace, tr: Trace)
    requires IsAsserted(wk, s, t, dep, r, out, failed) && Taken(t, dep, out, failed, w0, w, tr0, tr) &&
             OnlyClosed(w0, w, tr0, tr)
    ensures dep in s.nodes
    ensures tr.pending == tr0.pending && tr.root == tr0.root
    ensures Askable(s.nodes[dep]) ==>
              && tr.closed == tr0.closed +
                   (if !FailsOn(r, s.nodes[dep]) && !(Brings(wk, r, s.nodes[dep]) <= s.nodes.Keys) then {dep} else {})
              && t.nodes.Keys == s.nodes.Keys + Brings(wk, r, s.nodes[dep])
              && tr.uncounted == tr0.uncounted + if FailsOn(r, s.nodes[dep]) then
                 |Brings(wk, r, s.nodes[dep]) - s.nodes.Keys| else 0
  {
    hide Folded, Reaches, CoordOf, NamesIn;
    var n := s.nodes[dep];
    var a := r.resolve(CoordOf(n));
    if Askable(n) && a.found {
      FoldedKeys(wk, s, t, a, n.depth, r.nameFor(n.ecosystem), out.unread);
      MoreKeys(s.nodes, t.nodes, NamesIn(wk, a.graph));
      NothingLeft(NamesIn(wk, a.graph), s.nodes.Keys);
    }
  }

  lemma FoldedKeys(wk: Walker, s: State, t: State, a: Resolution, rootDepth: int, assertedBy: string, unread: nat)
    requires Folded(wk, s, t, a, rootDepth, assertedBy, unread)
    ensures t.nodes.Keys == s.nodes.Keys + NamesIn(wk, a.graph)
  {
    hide Merged, WithHole, CountPresent, Named, NamesIn;
    var mid :| Merged(wk, s, mid, a.graph, rootDepth, assertedBy) && HolesOf(wk, mid, t, a.error, unread);
    MergedKeys(wk, s, mid, a.graph, rootDepth, assertedBy);
  }

  lemma MoreKeys(a: map<string, Node>, b: map<string, Node>, more: set<string>)
    requires b.Keys == a.Keys + more
    ensures |b| == |a| + |more - a.Keys|
  {
    assert b.Keys == a.Keys + (more - a.Keys);
    assert |b| == |b.Keys| && |a| == |a.Keys|;
  }

  lemma AskingCounts(wk: Walker, r: Resolver, s0: State, s: State, deps: seq<string>, i: nat)
    requires Evolves(s0, s) && i < |deps| && forall y :: y in deps ==> y in s0.nodes
    ensures deps[i] in s.nodes
    ensures KeysAfter(wk, r, s0.nodes, deps[..i + 1]) == KeysAfter(wk, r, s0.nodes, deps[..i]) +
            Brings(wk, r, s.nodes[deps[i]])
    ensures Missed(wk, r, s0.nodes, deps[..i + 1]) == Missed(wk, r, s0.nodes, deps[..i]) +
              if FailsOn(r, s.nodes[deps[i]]) then
                  |Brings(wk, r, s.nodes[deps[i]]) - KeysAfter(wk, r, s0.nodes, deps[..i])| else 0
    ensures ClosesAt(wk, r, s0.nodes, deps, i) <==>
              !FailsOn(r, s.nodes[deps[i]]) &&
                  !(Brings(wk, r, s.nodes[deps[i]]) <= KeysAfter(wk, r, s0.nodes, deps[..i]))
  {
    assert deps[..i + 1][..i] == deps[..i] && deps[..i + 1][i] == deps[i];
    SameEcosystem(s0.nodes, s.nodes, deps[i]);
    assert CoordOf(s.nodes[deps[i]]) == CoordOf(s0.nodes[deps[i]]);
    hide NodesEvolve, EdgesEvolve, CoordOf, NamesIn;
  }

  // ----- Asking for a whole local build list -----

  // A direct dependency a build list can be seeded with.
  predicate Required(n: Node) {
    n.kind == Package && n.name != "" && n.version != ""
  }

  // The direct dependencies of a root, as coordinates.
  method DirectRequires(g: Graph, root: string) returns (out: seq<Coord>)
    ensures forall c :: c in out <==> IsRequirement(g.View(), root, c)
  {
    hide Hop, Targets, Sort, EdgeLess, CoordOf;
    var ids := DirectDepIds(g.edges, root);
    var seen: set<string> := {};
    out := [];
    for i := 0 to |ids|
      invariant forall y :: y in seen <==> y in ids[..i]
      invariant forall c :: c in out ==>
                  exists y :: y in ids && y in g.nodes && Required(g.nodes[y]) && c == CoordOf(g.nodes[y])
      invariant forall y :: y in ids[..i] && y in g.nodes && Required(g.nodes[y]) ==> CoordOf(g.nodes[y]) in out
    {
      assert ids[..i + 1] == ids[..i] + [ids[i]];
      if ids[i] in seen {
        continue;
      }
      seen := seen + {ids[i]};
      if ids[i] !in g.nodes || !Required(g.nodes[ids[i]]) {
        continue;
      }
      out := out + [CoordOf(g.nodes[ids[i]])];
    }
    assert ids[..|ids|] == ids;
  }

  ghost predicate IsRequirement(s: State, root: string, c: Coord) {
    exists y :: Hop(s.edges, DEPENDS, root, y) && y in s.nodes && Required(s.nodes[y]) && c == CoordOf(s.nodes[y])
  }

  // What a whole-root answer leaves behind: the build list folded in and counted, and everything
  // below the root closed.
  ghost predicate IsLocallyAsserted(wk: Walker, s: State, t: State, n: Node, r: Resolver, reqs: seq<Coord>, w0: Walk,
                                    w: Walk, tr0: Trace, tr: Trace) {
    && r.localRoot.Some?
    && var a := r.localRoot.value(LocalRoot(CoordOf(n), reqs, n.attr));
       && reqs != [] && a.found
       && w0.res.unread <= w.res.unread &&
          Folded(wk, s, t, a, n.depth, r.nameFor(n.ecosystem), w.res.unread - w0.res.unread)
       && w.res.asserted - w0.res.asserted == |t.nodes| - |s.nodes| && tr.uncounted == tr0.uncounted
       && (forall y :: Reaches(t.edges, DEPENDS, tr0.root, y) ==> y in w.expanded && y in tr.closed && y in w.inSubtree)
       && (forall y :: y in tr.closed ==> y in tr0.closed || Reaches(t.edges, DEPENDS, tr0.root, y))
  }

  // Nothing to ask, nobody to ask, or no answer: the caller asks per dependency instead.
  ghost predicate NoLocalAnswer(s: State, root: string, r: Resolver, reqs: seq<Coord>) {
    && root in s.nodes
    && (r.localRoot.None? || reqs == [] ||
       !r.localRoot.value(LocalRoot(CoordOf(s.nodes[root]), reqs, s.nodes[root].attr)).found)
  }

  method AssertLocalRoot(wk: Walker, opts: Options, g: Graph, root: string, r: Resolver, w0: Walk, ghost tr0: Trace)
    returns (handled: bool, w: Walk, ghost tr: Trace, ghost reqs: seq<Coord>)
    requires CleanWalker(wk) && CleanResolver(r) && Inv(wk, opts, g.View(), w0, tr0) && tr0.pending == {} &&
             root == tr0.root && root in g.nodes
    requires opts.resolver == Some(r)
    modifies g
    ensures Inv(wk, opts, g.View(), w, tr) && Evolves(old(g.View()), g.View()) && OnlyClosed(w0, w, tr0, tr) &&
            tr.uncounted == tr0.uncounted
    ensures forall c :: c in reqs <==> IsRequirement(old(g.View()), root, c)
    ensures !handled ==>
              NoLocalAnswer(old(g.View()), root, r, reqs) && g.View() == old(g.View()) && w == w0 && tr == tr0
    ensures handled ==> IsLocallyAsserted(wk, old(g.View()), g.View(), old(g.nodes)[root], r, reqs, w0, w, tr0, tr)
    ensures MergedSince(wk, tr0, tr, old(g.nodes), g.nodes)
  {
    hide Inv, Evolves, CleanWalker, IsRequirement, Reaches, Folded, CoordOf, OwnHoles, NewAsserted;
    ghost var s0 := g.View();
    EvolvesSelf(s0);
    w, tr, handled := w0, tr0, false;
    NothingClosed(w, tr);
    NothingMerged(wk, tr, g.nodes);
    var found := DirectRequires(g, root);
    reqs := found;
    if r.localRoot.None? || found == [] {
      return;
    }
    var n := g.nodes[root];
    var a := r.localRoot.value(LocalRoot(CoordOf(n), found, n.attr));
    if !a.found {
      return;
    }
    var asserted, unread;
    LocalHoles(wk, opts, r, LocalRoot(CoordOf(n), found, n.attr));
    asserted, unread, tr := Fold(wk, opts, g, a, n.depth, r.nameFor(n.ecosystem), w, tr0);
    InvRecount(wk, opts, g.View(), w, tr, asserted, unread);
    w := w.(res := w.res.(asserted := w.res.asserted + asserted, unread := w.res.unread + unread));
    tr := tr.(uncounted := tr.uncounted - asserted);
    var below := Subtree(g.edges, root);
    InvCloses(wk, opts, g.View(), w, tr, below);
    w := w.(expanded := w.expanded + below);
    tr := tr.(closed := tr.closed + below);
    InvSubtree(wk, opts, g.View(), w, tr, below);
    w := w.(inSubtree := w.inSubtree + below);
    handled := true;
  }
}
