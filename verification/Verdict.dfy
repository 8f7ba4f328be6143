// From findings to a risk state per node and one exit code.
module Verdict {
  import opened Prelude
  import opened Findings
  import opened GraphTypes
  import opened Sorting
  import opened Reach
  import GraphState
  import opened GraphStore

  datatype Policy = Policy(failOnEligible: bool, failOnIncomplete: bool, realRoots: seq<string>)

  datatype Counts = Counts(block: nat, eligible: nat, advisory: nat, total: nat)

  datatype Result = Result(exitCode: int, counts: Counts, risk: map<string, RiskState>, findings: seq<Finding>)

  const EXIT_CLEAN := 0
  const EXIT_BLOCK := 1
  const EXIT_GATE := 2
  const EXIT_INCOMPLETE := 3

  const STALE_FLOOR: real := 0.15

  type NodeMap = map<string, Node>

  // ----- Demotions -----

  // A temporal finding too old to fail a build; zero decay means the finding is not temporal.
  predicate Stale(f: Finding) {
    0.0 < f.recencyDecay < STALE_FLOOR
  }

  predicate OnPresumedNode(nodes: NodeMap, f: Finding) {
    f.nodeId in nodes && nodes[f.nodeId].Presumed()
  }

  // g is f, possibly demoted to advisory with the reason added to its evidence: nothing else about a
  // finding changes, and it is never raised.
  ghost predicate DemotedAtMost(f: Finding, g: Finding) {
    && g == f.(gate := g.gate, evidence := g.evidence)
    && f.evidence <= g.evidence
    && (g.gate == f.gate || g.gate == Advisory)
    && (g.gate == f.gate ==> g.evidence == f.evidence)
  }

  method ApplyRecencyDemotion(findings: seq<Finding>) returns (out: seq<Finding>)
    ensures |out| == |findings|
    ensures forall i :: 0 <= i < |out| ==> DemotedAtMost(findings[i], out[i])
    ensures forall i :: 0 <= i < |out| ==>
              out[i].gate == if findings[i].gate == Eligible && Stale(findings[i]) then Advisory else findings[i].gate
  {
    out := findings;
    for i := 0 to |out|
      invariant |out| == |findings|
      invariant forall j :: i <= j < |out| ==> out[j] == findings[j]
      invariant forall j :: 0 <= j < i ==> DemotedAtMost(findings[j], out[j])
      invariant forall j :: 0 <= j < i ==>
                  out[j].gate == if findings[j].gate == Eligible && Stale(findings[j]) then Advisory
                      else findings[j].gate
    {
      var f := out[i];
      if f.gate != Eligible || f.recencyDecay <= 0.0 {
        continue;
      }
      if f.recencyDecay >= STALE_FLOOR {
        continue;
      }
      out := out[i := f.(gate := Advisory, evidence := f.evidence + " [demoted to advisory: stale]")];
    }
  }

  function PresumedNote(f: Finding, n: Node): string {
    " [demoted to advisory: this node's version is " + n.VersionTruth() +
    (if n.Attribute(ATTR_VERSION_CANDIDATES) != "" then
       " (" + n.Attribute(ATTR_VERSION_CANDIDATES) + " candidate versions satisfied " +
           n.Attribute(ATTR_DECLARED_CONSTRAINT) + ")"
     else "") + "]"
  }

  method ApplyPresumedDemotion(nodes: NodeMap, findings: seq<Finding>) returns (out: seq<Finding>)
    ensures |out| == |findings|
    ensures forall i :: 0 <= i < |out| ==> DemotedAtMost(findings[i], out[i])
    ensures forall i :: 0 <= i < |out| ==>
              out[i].gate == if OnPresumedNode(nodes, findings[i]) then Advisory else findings[i].gate
  {
    out := findings;
    for i := 0 to |out|
      invariant |out| == |findings|
      invariant forall j :: i <= j < |out| ==> out[j] == findings[j]
      invariant forall j :: 0 <= j < i ==> DemotedAtMost(findings[j], out[j])
      invariant forall j :: 0 <= j < i ==>
                  out[j].gate == if OnPresumedNode(nodes, findings[j]) then Advisory else findings[j].gate
    {
      var f := out[i];
      if f.gate == Advisory {
        continue;
      }
      if f.nodeId !in nodes || !nodes[f.nodeId].Presumed() {
        continue;
      }
      hide PresumedNote;
      out := out[i := f.(gate := Advisory, evidence := f.evidence + PresumedNote(f, nodes[f.nodeId]))];
    }
  }

  // ----- Root attribution -----

  const ALL_EDGES: set<EdgeType> :=
    {DependsOn, DeclaresHook, HookExecs, HookFetches, HookReadsEnv, Exfil, Republish, BuildBackend}

  // Of some roots, in order, those that reach a node over any edges.
  ghost function RootsReaching(es: seq<Edge>, roots: seq<string>, id: string): seq<string> {
    if roots == [] then []
    else
      var rest := RootsReaching(es, roots[..|roots| - 1], id);
      if Reaches(es, ALL_EDGES, roots[|roots| - 1], id) then rest + [roots[|roots| - 1]] else rest
  }

  lemma {:induction false} RootsReachingMembers(es: seq<Edge>, roots: seq<string>, id: string)
    ensures forall r :: r in RootsReaching(es, roots, id) <==> r in roots && Reaches(es, ALL_EDGES, r, id)
  {
    hide Reaches;
    if roots != [] {
      RootsReachingMembers(es, roots[..|roots| - 1], id);
      assert roots == roots[..|roots| - 1] + [roots[|roots| - 1]];
    }
  }

  // The attribution list is sorted and duplicate-free whenever the root list is.
  lemma {:induction false} RootsReachingIncreasing(es: seq<Edge>, roots: seq<string>, id: string)
    requires Increasing(roots)
    ensures Increasing(RootsReaching(es, roots, id))
  {
    hide Reaches, StringLess;
    if roots != [] {
      var init, last := roots[..|roots| - 1], roots[|roots| - 1];
      assert Increasing(init);
      RootsReachingIncreasing(es, init, id);
      RootsReachingMembers(es, init, id);
      var rest := RootsReaching(es, init, id);
      forall i | 0 <= i < |rest|
        ensures StringLess(rest[i], last)
      {
        assert rest[i] in rest;
        var k :| 0 <= k < |init| && init[k] == rest[i];
        assert StringLess(roots[k], roots[|roots| - 1]);
      }
      IncreasingAppend(rest, last);
    }
  }

  type Attribution = map<string, seq<string>>

  // Appends root to the list of every node a breadth-first search from it meets.
  method AttributeRoot(ghost es: seq<Edge>, adj: Adjacency, root: string,
                       before: Attribution) returns (byNode: Attribution)
    requires forall x :: At(adj, x) == Targets(es, ALL_EDGES, x)
    ensures forall id :: At(byNode, id) == if Reaches(es, ALL_EDGES, root, id) then At(before, id) + [root]
            else At(before, id)
  {
    hide Reaches, Visiting, Within, Targets, Universe;
    var seen := {root};
    byNode := before[root := At(before, root) + [root]];
    var queue := At(adj, root);
    VisitStarts(es, ALL_EDGES, root);
    while queue != []
      invariant Visiting(es, ALL_EDGES, root, seen, queue) && Within(es, root, seen, queue)
      invariant forall id :: At(byNode, id) == if id in seen then At(before, id) + [root] else At(before, id)
      decreases Universe(es, root) - seen, |queue|
    {
      var id := queue[0];
      if id in seen {
        VisitSkips(es, ALL_EDGES, root, seen, queue);
        queue := queue[1..];
        continue;
      }
      VisitAdvances(es, ALL_EDGES, root, seen, queue);
      queue := queue[1..];
      seen := seen + {id};
      byNode := byNode[id := At(byNode, id) + [root]];
      queue := queue + At(adj, id);
    }
    VisitEnds(es, ALL_EDGES, root, seen);
  }

  // For every node, the sorted roots that reach it over any edge type.
  method ReachableRootsByNode(es: seq<Edge>, roots: seq<string>) returns (byNode: Attribution)
    ensures forall id :: At(byNode, id) == RootsReaching(es, Sort(roots, StringLess), id)
  {
    hide Reaches, Targets, Sort, StringLess;
    var adj := BuildAdjacency(es, ALL_EDGES);
    byNode := map[];
    var sorted := Sort(roots, StringLess);
    for i := 0 to |sorted|
      invariant forall id :: At(byNode, id) == RootsReaching(es, sorted[..i], id)
    {
      byNode := AttributeRoot(es, adj, sorted[i], byNode);
      assert sorted[..i + 1][..i] == sorted[..i];
    }
    assert sorted[..|sorted|] == sorted;
  }

  // ----- Containment -----

  // ASCII case folding.
  function Lower(s: string): string {
    seq(|s|, i requires 0 <= i < |s| => if 'A' <= s[i] <= 'Z' then s[i] + 32 as char else s[i])
  }

  predicate Contains(s: string, part: string) {
    exists i :: 0 <= i <= |s| && part <= s[i..]
  }

  predicate Designates(want: string, root: string) {
    want != "" && Contains(Lower(root), Lower(want))
  }

  predicate ReachedByReal(roots: seq<string>, realRoots: seq<string>) {
    exists i, j :: 0 <= i < |roots| && 0 <= j < |realRoots| && Designates(realRoots[j], roots[i])
  }

  // g is f with its attribution stamped, and labelled contained exactly when real roots were named
  // and none of those that reach it matches; the label costs nothing but evidence text.
  ghost predicate Labelled(f: Finding, roots: seq<string>, realRoots: seq<string>, g: Finding) {
    && g == f.(reachableRoots := roots, contained := g.contained, evidence := g.evidence)
    && f.evidence <= g.evidence
    && (g.contained <==> f.contained || (realRoots != [] && !ReachedByReal(roots, realRoots)))
  }

  method IsReachedByReal(roots: seq<string>, realRoots: seq<string>) returns (reached: bool)
    ensures reached == ReachedByReal(roots, realRoots)
  {
    hide Designates;
    reached := false;
    for i := 0 to |roots|
      invariant !reached
      invariant forall k, j :: 0 <= k < i && 0 <= j < |realRoots| ==> !Designates(realRoots[j], roots[k])
    {
      for j := 0 to |realRoots|
        invariant !reached
        invariant forall l :: 0 <= l < j ==> !Designates(realRoots[l], roots[i])
      {
        if Designates(realRoots[j], roots[i]) {
          reached := true;
          break;
        }
      }
      if reached {
        break;
      }
    }
  }

  // The evidence note names at most three roots.
  const MAX_LISTED := 3

  function Joined(ids: seq<string>): string {
    if ids == [] then "" else if |ids| == 1 then ids[0] else Joined(ids[..|ids| - 1]) + ", " + ids[|ids| - 1]
  }

  function ContainmentNote(roots: seq<string>): string {
    var listed := if |roots| > MAX_LISTED then roots[..MAX_LISTED] else roots;
    " [contained: no designated real root reaches this node" +
    (if listed == [] then "; reachable from no root at all" else "; reachable only from " + Joined(listed)) + "]"
  }

  method ApplyContainment(es: seq<Edge>, roots: seq<string>, findings: seq<Finding>, realRoots: seq<string>)
    returns (out: seq<Finding>)
    ensures |out| == |findings|
    ensures forall i :: 0 <= i < |out| ==>
              Labelled(findings[i], RootsReaching(es, Sort(roots, StringLess), findings[i].nodeId), realRoots, out[i])
  {
    if findings == [] {
      return findings;
    }
    hide RootsReaching, Sort, StringLess, ContainmentNote, ReachedByReal;
    var reach := ReachableRootsByNode(es, roots);
    out := findings;
    for i := 0 to |out|
      invariant |out| == |findings|
      invariant forall j :: i <= j < |out| ==> out[j] == findings[j]
      invariant forall j :: 0 <= j < i ==>
                  Labelled(findings[j], RootsReaching(es, Sort(roots, StringLess), findings[j].nodeId), realRoots,
                           out[j])
    {
      var f := out[i].(reachableRoots := At(reach, out[i].nodeId));
      out := out[i := f];
      if realRoots == [] {
        continue;
      }
      var reachedByReal := IsReachedByReal(f.reachableRoots, realRoots);
      if reachedByReal {
        continue;
      }
      out := out[i := f.(contained := true, evidence := f.evidence + ContainmentNote(f.reachableRoots))];
    }
  }

  // ----- Risk propagation -----

  const INSTALL_EDGES: set<EdgeType> := {DeclaresHook, HookExecs, HookFetches, HookReadsEnv, Exfil, Republish}

  // A package that is hot in the given node map and reaches id over install-time edges.
  ghost predicate Heats(nodes: NodeMap, es: seq<Edge>, p: string, id: string) {
    && p in nodes && nodes[p].kind == Package && RiskRank(nodes[p].risk) > 0
    && Reaches(es, INSTALL_EDGES, p, id)
  }

  // r is a risk the node itself had, or that some package reaching it had.
  ghost predicate Warranted(nodes: NodeMap, es: seq<Edge>, id: string, r: RiskState)
    requires id in nodes
  {
    r == nodes[id].risk || exists p :: Heats(nodes, es, p, id) && nodes[p].risk == r
  }

  // r is the greatest risk among the node's own and those of all packages that reach it.
  ghost predicate IsPeak(nodes: NodeMap, es: seq<Edge>, id: string, r: RiskState)
    requires id in nodes
  {
    && Warranted(nodes, es, id, r)
    && RiskRank(nodes[id].risk) <= RiskRank(r)
    && (forall p :: Heats(nodes, es, p, id) ==> RiskRank(nodes[p].risk) <= RiskRank(r))
    && (RiskRank(r) == 0 ==> r == nodes[id].risk)
  }

  lemma PeakIsUnique(nodes: NodeMap, es: seq<Edge>, id: string, r: RiskState, q: RiskState)
    requires id in nodes && IsPeak(nodes, es, id, r) && IsPeak(nodes, es, id, q)
    ensures r == q
  {
    hide Heats;
    assert RiskRank(r) == RiskRank(q);
  }

  // Two node maps that differ at most in risk.
  ghost predicate SameButRisk(a: NodeMap, b: NodeMap) {
    a.Keys == b.Keys && forall id :: id in a ==> b[id] == a[id].(risk := b[id].risk)
  }

  // now is the map init after some raises: each risk is warranted by init and no lower than there.
  ghost predicate Raised(init: NodeMap, es: seq<Edge>, now: NodeMap) {
    && SameButRisk(init, now)
    && (forall id :: id in init ==>
          Warranted(init, es, id, now[id].risk) && RiskRank(init[id].risk) <= RiskRank(now[id].risk)
          && (RiskRank(now[id].risk) == 0 ==> now[id].risk == init[id].risk))
  }

  // Everything the package p reaches is at least as hot as p was.
  ghost predicate Settled(init: NodeMap, es: seq<Edge>, now: NodeMap, p: string)
    requires SameButRisk(init, now)
  {
    forall id :: id in init && Heats(init, es, p, id) ==> RiskRank(init[p].risk) <= RiskRank(now[id].risk)
  }

  // Raising a node to the current risk of a package that reaches it is warranted, whatever raises
  // the package itself received before.
  lemma RaiseIsWarranted(init: NodeMap, es: seq<Edge>, now: NodeMap, p: string, id: string)
    requires Raised(init, es, now) && p in init && id in init
    requires init[p].kind == Package && RiskRank(now[p].risk) > 0 && Reaches(es, INSTALL_EDGES, p, id)
    ensures Warranted(init, es, id, now[p].risk)
  {
    hide Reaches;
    assert Warranted(init, es, p, now[p].risk);
    if now[p].risk == init[p].risk {
      assert Heats(init, es, p, id);
    } else {
      var q :| Heats(init, es, q, p) && init[q].risk == now[p].risk;
      ReachesTransitive(es, INSTALL_EDGES, q, p, id);
      assert Heats(init, es, q, id);
    }
  }

  lemma RaiseKeeps(init: NodeMap, es: seq<Edge>, now: NodeMap, id: string, r: RiskState)
    requires Raised(init, es, now) && id in init && Warranted(init, es, id, r)
    requires RiskRank(now[id].risk) < RiskRank(r)
    ensures Raised(init, es, now[id := now[id].(risk := r)])
  {
    hide Warranted;
  }

  // Risk only ever rises from one map to the other.
  ghost predicate NoLower(a: NodeMap, b: NodeMap) {
    a.Keys == b.Keys && forall id :: id in a ==> RiskRank(a[id].risk) <= RiskRank(b[id].risk)
  }

  ghost predicate RiskMapAgrees(nodes: NodeMap, risk: map<string, RiskState>) {
    forall id :: id in nodes ==> id in risk && risk[id] == nodes[id].risk
  }

  // Raises one node that p reaches to the risk of p, unless it has that or more.
  method RaiseOne(ghost init: NodeMap, ghost es: seq<Edge>, nodes: NodeMap, p: string, id: string,
                  risk: map<string, RiskState>)
    returns (nodes': NodeMap, risk': map<string, RiskState>)
    requires Raised(init, es, nodes) && p in nodes && nodes[p].kind == Package && RiskRank(nodes[p].risk) > 0
    requires p != id && Reaches(es, INSTALL_EDGES, p, id) && RiskMapAgrees(nodes, risk)
    ensures Raised(init, es, nodes') && NoLower(nodes, nodes') && nodes'[p] == nodes[p]
    ensures id in nodes ==> RiskRank(nodes[p].risk) <= RiskRank(nodes'[id].risk)
    ensures RiskMapAgrees(nodes', risk')
    ensures forall x :: x !in nodes ==> (x in risk' <==> x in risk) && (x in risk ==> risk'[x] == risk[x])
  {
    hide Reaches, Warranted, Raised, RiskRank;
    nodes', risk' := nodes, risk;
    if id in nodes && RiskRank(nodes[p].risk) > RiskRank(nodes[id].risk) {
      RaisedKeys(init, es, nodes);
      RaiseIsWarranted(init, es, nodes, p, id);
      RaiseKeeps(init, es, nodes, id, nodes[p].risk);
      risk' := risk[id := nodes[p].risk];
      nodes' := nodes[id := nodes[id].(risk := nodes[p].risk)];
    }
  }

  // One package's breadth-first search: raises every node it meets that is cooler than the package.
  method Spread(ghost init: NodeMap, ghost es: seq<Edge>, adj: Adjacency, p: string, nodes: NodeMap,
                risk: map<string, RiskState>)
    returns (nodes': NodeMap, risk': map<string, RiskState>)
    requires forall x :: At(adj, x) == Targets(es, INSTALL_EDGES, x)
    requires Raised(init, es, nodes) && p in nodes && nodes[p].kind == Package && RiskRank(nodes[p].risk) > 0
    requires RiskMapAgrees(nodes, risk)
    ensures Raised(init, es, nodes') && NoLower(nodes, nodes') && Settled(init, es, nodes', p)
    ensures RiskMapAgrees(nodes', risk')
    ensures forall id :: id !in nodes ==> (id in risk' <==> id in risk) && (id in risk ==> risk'[id] == risk[id])
  {
    hide Reaches, Visiting, Within, Targets, Universe, Warranted, Raised, RiskRank;
    nodes', risk' := nodes, risk;
    var seen := {p};
    var queue := At(adj, p);
    VisitStarts(es, INSTALL_EDGES, p);
    while queue != []
      invariant Visiting(es, INSTALL_EDGES, p, seen, queue) && Within(es, p, seen, queue)
      invariant Raised(init, es, nodes') && NoLower(nodes, nodes') && nodes'[p] == nodes[p]
      invariant forall id :: id in seen && id in nodes ==> RiskRank(nodes[p].risk) <= RiskRank(nodes'[id].risk)
      invariant RiskMapAgrees(nodes', risk')
      invariant forall id :: id !in nodes ==> (id in risk' <==> id in risk) && (id in risk ==> risk'[id] == risk[id])
      decreases Universe(es, p) - seen, |queue|
    {
      var id := queue[0];
      if id in seen {
        VisitSkips(es, INSTALL_EDGES, p, seen, queue);
        queue := queue[1..];
        continue;
      }
      VisitAdvances(es, INSTALL_EDGES, p, seen, queue);
      SeenHoldsStart(es, INSTALL_EDGES, p, seen, queue);
      queue := queue[1..];
      seen := seen + {id};
      nodes', risk' := RaiseOne(init, es, nodes', p, id, risk');
      queue := queue + At(adj, id);
    }
    VisitEnds(es, INSTALL_EDGES, p, seen);
    SpreadSettles(init, es, nodes, nodes', p);
  }

  lemma SeenHoldsStart(es: seq<Edge>, kinds: set<EdgeType>, x: string, seen: set<string>, queue: seq<string>)
    requires Visiting(es, kinds, x, seen, queue)
    ensures x in seen
  {
  }

  lemma RaisedKeys(init: NodeMap, es: seq<Edge>, now: NodeMap)
    requires Raised(init, es, now)
    ensures init.Keys == now.Keys && SameButRisk(init, now)
    ensures forall id :: id in init ==>
              now[id].kind == init[id].kind && RiskRank(init[id].risk) <= RiskRank(now[id].risk)
  {
  }

  lemma SpreadSettles(init: NodeMap, es: seq<Edge>, before: NodeMap, now: NodeMap, p: string)
    requires Raised(init, es, before) && Raised(init, es, now) && p in before
    requires forall id :: Reaches(es, INSTALL_EDGES, p, id) && id in before ==>
               RiskRank(before[p].risk) <= RiskRank(now[id].risk)
    ensures SameButRisk(init, now) && Settled(init, es, now, p)
  {
    hide Reaches, Warranted;
  }

  // Raises every node to the greatest risk among its own and those of the packages that reach it
  // over install-time edges.  Packages are visited in identifier order and a package's risk is read
  // after earlier raises, yet the outcome depends on neither.
  method PropagateInstallTime(g: Graph, risk: map<string, RiskState>) returns (risk': map<string, RiskState>)
    requires GraphState.Listed(g.View())
    requires RiskMapAgrees(g.nodes, risk)
    modifies g`nodes
    ensures SameButRisk(old(g.nodes), g.nodes)
    ensures forall id :: id in g.nodes ==> IsPeak(old(g.nodes), g.edges, id, g.nodes[id].risk)
    ensures RiskMapAgrees(g.nodes, risk')
    ensures forall id :: id !in g.nodes ==> (id in risk' <==> id in risk) && (id in risk ==> risk'[id] == risk[id])
  {
    hide Reaches, Targets, Raised, IsPeak, RiskRank, Sort, StringLess, Settled, RiskMapAgrees, NoLower, SameButRisk;
    var adj := BuildAdjacency(g.edges, INSTALL_EDGES);
    ghost var init, es := g.nodes, g.edges;
    risk' := risk;
    if adj == map[] {
      NoInstallEdges(init, es);
      return;
    }
    var ids := g.NodeIds();
    SortMembers(ids, StringLess);
    ids := Sort(ids, StringLess);
    RaisedByNothing(init, es);
    for i := 0 to |ids|
      invariant Raised(init, es, g.nodes) && SameButRisk(init, g.nodes)
      invariant RiskMapAgrees(g.nodes, risk')
      invariant forall j :: 0 <= j < i ==> Settled(init, es, g.nodes, ids[j])
      invariant forall id :: id !in init ==> (id in risk' <==> id in risk) && (id in risk ==> risk'[id] == risk[id])
    {
      RaisedKeys(init, es, g.nodes);
      assert ids[i] in ids;
      if g.nodes[ids[i]].kind != Package || RiskRank(g.nodes[ids[i]].risk) == 0 {
        ColdSettles(init, es, g.nodes, ids[i]);
        continue;
      }
      var raised, risk'' := Spread(init, es, adj, ids[i], g.nodes, risk');
      forall j | 0 <= j < i
        ensures SameButRisk(init, raised) && Settled(init, es, raised, ids[j])
      {
        SettledStays(init, es, g.nodes, raised, ids[j]);
      }
      g.nodes, risk' := raised, risk'';
      RaisedKeys(init, es, g.nodes);
    }
    PeaksReached(init, es, g.nodes, ids);
    RaisedKeys(init, es, g.nodes);
  }

  lemma NoInstallEdges(nodes: NodeMap, es: seq<Edge>)
    requires forall e :: e in es ==> e.kind !in INSTALL_EDGES
    ensures SameButRisk(nodes, nodes)
    ensures forall id :: id in nodes ==> IsPeak(nodes, es, id, nodes[id].risk)
  {
    forall p, id | Heats(nodes, es, p, id)
      ensures p == id
    {
      var path :| PathBetween(es, INSTALL_EDGES, path, p, id);
      assert |path| > 1 ==> Hop(es, INSTALL_EDGES, path[0], path[0 + 1]);
    }
  }

  lemma RaisedByNothing(nodes: NodeMap, es: seq<Edge>)
    ensures Raised(nodes, es, nodes) && SameButRisk(nodes, nodes)
  {
    hide Heats;
  }

  lemma ColdSettles(init: NodeMap, es: seq<Edge>, now: NodeMap, p: string)
    requires Raised(init, es, now) && p in init
    requires init[p].kind != Package || RiskRank(now[p].risk) == 0
    ensures SameButRisk(init, now) && Settled(init, es, now, p)
  {
    hide Reaches, Warranted;
  }

  lemma SettledStays(init: NodeMap, es: seq<Edge>, before: NodeMap, now: NodeMap, p: string)
    requires Raised(init, es, before) && Raised(init, es, now) && NoLower(before, now)
    requires SameButRisk(init, before) && Settled(init, es, before, p)
    ensures SameButRisk(init, now) && Settled(init, es, now, p)
  {
    hide Heats, Warranted;
  }

  lemma PeaksReached(init: NodeMap, es: seq<Edge>, now: NodeMap, ids: seq<string>)
    requires Raised(init, es, now) && SameButRisk(init, now)
    requires forall id :: id in init ==> id in ids
    requires forall j :: 0 <= j < |ids| ==> Settled(init, es, now, ids[j])
    ensures forall id :: id in now ==> id in init && IsPeak(init, es, id, now[id].risk)
  {
    hide Reaches, Warranted;
    forall id, p | id in init && Heats(init, es, p, id)
      ensures RiskRank(init[p].risk) <= RiskRank(now[id].risk)
    {
      var j :| 0 <= j < |ids| && ids[j] == p;
      assert Settled(init, es, now, ids[j]);
    }
  }
}
