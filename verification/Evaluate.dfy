// The evaluation pipeline and the exit-code contract.
module Evaluate {
  import opened Prelude
  import opened Findings
  import opened GraphTypes
  import opened Sorting
  import opened Reach
  import GraphState
  import opened GraphStore
  import opened Verdict

  // ----- The exit code, read off the raw input -----

  ghost predicate Blocks(nodes: NodeMap, f: Finding) {
    f.gate == Block && !OnPresumedNode(nodes, f)
  }

  ghost predicate Gates(nodes: NodeMap, f: Finding) {
    f.gate == Eligible && !Stale(f) && !OnPresumedNode(nodes, f)
  }

  ghost predicate SomeBlocks(nodes: NodeMap, findings: seq<Finding>) {
    exists f :: f in findings && Blocks(nodes, f)
  }

  ghost predicate SomeGates(nodes: NodeMap, findings: seq<Finding>) {
    exists f :: f in findings && Gates(nodes, f)
  }

  // 1 exactly when some block finding is about an observed version; else 2 exactly when the policy
  // opted in and some eligible finding is recent and about an observed version; else 3 exactly when
  // the policy opted in and the scan was incomplete; else 0.
  ghost function ExitCode(nodes: NodeMap, findings: seq<Finding>, incomplete: bool, policy: Policy): int {
    if SomeBlocks(nodes, findings) then EXIT_BLOCK
    else if policy.failOnEligible && SomeGates(nodes, findings) then EXIT_GATE
    else if policy.failOnIncomplete && incomplete then EXIT_INCOMPLETE
    else EXIT_CLEAN
  }

  // Only findings that could gate matter: adding, dropping, repeating or reordering any others
  // leaves the exit code alone, whatever the policy.
  lemma ExitCodeIgnoresAdvisories(nodes: NodeMap, fs: seq<Finding>, gs: seq<Finding>, incomplete: bool, policy: Policy)
    requires forall f: Finding :: f.gate != Advisory ==> (f in fs <==> f in gs)
    ensures ExitCode(nodes, fs, incomplete, policy) == ExitCode(nodes, gs, incomplete, policy)
  {
    assert SomeBlocks(nodes, fs) <==> SomeBlocks(nodes, gs) by {
      if SomeBlocks(nodes, fs) {
        var f :| f in fs && Blocks(nodes, f);
        assert f in gs;
      }
      if SomeBlocks(nodes, gs) {
        var f :| f in gs && Blocks(nodes, f);
        assert f in fs;
      }
    }
    assert SomeGates(nodes, fs) <==> SomeGates(nodes, gs) by {
      if SomeGates(nodes, fs) {
        var f :| f in fs && Gates(nodes, f);
        assert f in gs;
      }
      if SomeGates(nodes, gs) {
        var f :| f in gs && Gates(nodes, f);
        assert f in fs;
      }
    }
  }

  // Findings about presumed versions never gate: the exit code is that of the others.
  lemma ExitCodeIgnoresPresumed(nodes: NodeMap, fs: seq<Finding>, gs: seq<Finding>, incomplete: bool, policy: Policy)
    requires forall f :: !OnPresumedNode(nodes, f) ==> (f in fs <==> f in gs)
    ensures ExitCode(nodes, fs, incomplete, policy) == ExitCode(nodes, gs, incomplete, policy)
  {
    assert SomeBlocks(nodes, fs) <==> SomeBlocks(nodes, gs) by {
      if SomeBlocks(nodes, fs) {
        var f :| f in fs && Blocks(nodes, f);
        assert f in gs;
      }
      if SomeBlocks(nodes, gs) {
        var f :| f in gs && Blocks(nodes, f);
        assert f in fs;
      }
    }
    assert SomeGates(nodes, fs) <==> SomeGates(nodes, gs) by {
      if SomeGates(nodes, fs) {
        var f :| f in fs && Gates(nodes, f);
        assert f in gs;
      }
      if SomeGates(nodes, gs) {
        var f :| f in gs && Gates(nodes, f);
        assert f in fs;
      }
    }
  }

  // ----- What evaluation does to each finding -----

  function FinalGate(nodes: NodeMap, f: Finding): GateClass {
    if OnPresumedNode(nodes, f) then Advisory
    else if f.gate == Eligible && Stale(f) then Advisory
    else f.gate
  }

  // g is f after the pipeline: no field but gate, evidence, attribution and label differs, the old
  // evidence is a prefix of the new, and the gate class is never raised.
  ghost predicate Processed(nodes: NodeMap, es: seq<Edge>, roots: seq<string>, realRoots: seq<string>, f: Finding,
                            g: Finding) {
    && g == f.(gate := g.gate, evidence := g.evidence, reachableRoots := g.reachableRoots, contained := g.contained)
    && g.gate == FinalGate(nodes, f)
    && f.evidence <= g.evidence
    && g.reachableRoots == RootsReaching(es, roots, f.nodeId)
    && (g.contained <==> f.contained || (realRoots != [] && !ReachedByReal(g.reachableRoots, realRoots)))
  }

  method Process(nodes: NodeMap, es: seq<Edge>, roots: seq<string>, realRoots: seq<string>, findings: seq<Finding>)
    returns (out: seq<Finding>)
    ensures |out| == |findings|
    ensures forall i :: 0 <= i < |out| ==> Processed(nodes, es, Sort(roots, StringLess), realRoots, findings[i], out[i])
  {
    hide Sort, StringLess, RootsReaching, ReachedByReal, OnPresumedNode, Stale;
    var recent := ApplyRecencyDemotion(findings);
    var observed := ApplyPresumedDemotion(nodes, recent);
    out := ApplyContainment(es, roots, observed, realRoots);
    forall i | 0 <= i < |out|
      ensures Processed(nodes, es, Sort(roots, StringLess), realRoots, findings[i], out[i])
    {
      Compose(nodes, es, Sort(roots, StringLess), realRoots, findings[i], recent[i], observed[i], out[i]);
    }
  }

  lemma Compose(nodes: NodeMap, es: seq<Edge>, roots: seq<string>, realRoots: seq<string>, f: Finding, g: Finding,
                h: Finding, k: Finding)
    requires DemotedAtMost(f, g) && g.gate == if f.gate == Eligible && Stale(f) then Advisory else f.gate
    requires DemotedAtMost(g, h) && h.gate == if OnPresumedNode(nodes, g) then Advisory else g.gate
    requires Labelled(h, RootsReaching(es, roots, h.nodeId), realRoots, k)
    ensures Processed(nodes, es, roots, realRoots, f, k)
  {
    hide RootsReaching, ReachedByReal;
    assert f.evidence <= g.evidence <= h.evidence <= k.evidence;
  }

  // ----- Tallies -----

  function FindingsOf(findings: seq<Finding>, id: string): seq<Finding> {
    if findings == [] then []
    else
      var rest := FindingsOf(findings[..|findings| - 1], id);
      if findings[|findings| - 1].nodeId == id then rest + [findings[|findings| - 1]] else rest
  }

  function Count(findings: seq<Finding>, gate: GateClass): nat {
    if findings == [] then 0
    else Count(findings[..|findings| - 1], gate) + (if findings[|findings| - 1].gate == gate then 1 else 0)
  }

  lemma {:induction false} CountPositive(findings: seq<Finding>, gate: GateClass)
    ensures Count(findings, gate) > 0 <==> exists i :: 0 <= i < |findings| && findings[i].gate == gate
  {
    if findings != [] {
      var init := findings[..|findings| - 1];
      CountPositive(init, gate);
      if Count(init, gate) > 0 {
        var i :| 0 <= i < |init| && init[i].gate == gate;
        assert findings[i].gate == gate;
      }
      if exists i :: 0 <= i < |findings| && findings[i].gate == gate {
        var i :| 0 <= i < |findings| && findings[i].gate == gate;
        if i < |init| {
          assert init[i].gate == gate;
        }
      }
    }
  }

  // Every finding of a node, in report order, and the number of findings in each class.
  method Tally(findings: seq<Finding>) returns (byNode: map<string, seq<Finding>>, counts: Counts)
    ensures forall id :: if id in byNode then byNode[id] == FindingsOf(findings, id) != []
            else FindingsOf(findings, id) == []
    ensures counts == Counts(Count(findings, Block), Count(findings, Eligible), Count(findings, Advisory), |findings|)
  {
    byNode := map[];
    counts := Counts(0, 0, 0, 0);
    for i := 0 to |findings|
      invariant forall id :: if id in byNode then byNode[id] == FindingsOf(findings[..i], id) != []
                             else FindingsOf(findings[..i], id) == []
      invariant counts == Counts(Count(findings[..i], Block), Count(findings[..i], Eligible),
                Count(findings[..i], Advisory), i)
    {
      var f := findings[i];
      assert findings[..i + 1][..i] == findings[..i];
      byNode := byNode[f.nodeId := (if f.nodeId in byNode then byNode[f.nodeId] else []) + [f]];
      match f.gate {
        case Block => counts := counts.(block := counts.block + 1);
        case Eligible => counts := counts.(eligible := counts.eligible + 1);
        case Advisory => counts := counts.(advisory := counts.advisory + 1);
        case Unclassified =>
      }
      counts := counts.(total := counts.total + 1);
    }
    assert findings[..|findings|] == findings;
  }

  // ----- Risk before propagation -----

  function BaseRisk(fs: seq<Finding>): RiskState {
    if fs == [] then Clean else if Count(fs, Block) > 0 then Flagged else Warned
  }

  function Overlaid(n: Node, findings: seq<Finding>): Node {
    n.(findings := FindingsOf(findings, n.id), risk := BaseRisk(FindingsOf(findings, n.id)))
  }

  // Every node wiped clean, then each node with findings given them and the risk they imply.
  ghost predicate IsOverlay(before: NodeMap, findings: seq<Finding>, after: NodeMap) {
    after.Keys == before.Keys && forall id :: id in before ==> after[id] == Overlaid(before[id], findings)
  }

  function Wiped(n: Node): Node {
    n.(findings := [], risk := Clean)
  }

  function Marked(n: Node, fs: seq<Finding>, state: RiskState): Node {
    n.(findings := fs, risk := state)
  }

  // Defaults every known node to clean.
  method ResetNodes(g: Graph) returns (risk: map<string, RiskState>)
    requires GraphState.Listed(g.View())
    modifies g`nodes
    ensures g.nodes.Keys == old(g.nodes).Keys == risk.Keys
    ensures forall id :: id in g.nodes ==> g.nodes[id] == Wiped(old(g.nodes)[id])
    ensures RiskMapAgrees(g.nodes, risk)
  {
    hide Sort, StringLess, Wiped, Wiping;
    var ids := g.NodeIds();
    SortMembers(ids, StringLess);
    ids := Sort(ids, StringLess);
    var nodes := g.nodes;
    ghost var before := nodes;
    risk := map[];
    WipingStarts(before);
    for i := 0 to |ids|
      invariant Wiping(before, nodes, risk)
      invariant forall j :: 0 <= j < i ==> ids[j] in risk
    {
      var id := ids[i];
      assert id in ids;
      WipingSteps(before, nodes, risk, id);
      nodes := nodes[id := Wiped(nodes[id])];
      risk := risk[id := Clean];
    }
    g.nodes := nodes;
    WipingEnds(before, nodes, risk);
  }

  // The nodes in risk have been wiped.
  ghost predicate Wiping(before: NodeMap, nodes: NodeMap, risk: map<string, RiskState>) {
    && nodes.Keys == before.Keys
    && (forall id :: id in before ==> nodes[id] == if id in risk then Wiped(before[id]) else before[id])
    && (forall id :: id in risk ==> id in before && risk[id] == Clean)
  }

  lemma WipingStarts(nodes: NodeMap)
    ensures Wiping(nodes, nodes, map[])
  {
    hide Wiped;
  }

  lemma WipingSteps(before: NodeMap, nodes: NodeMap, risk: map<string, RiskState>, id: string)
    requires Wiping(before, nodes, risk) && id in before
    ensures id in nodes && Wiping(before, nodes[id := Wiped(nodes[id])], risk[id := Clean])
  {
    WipedOnce(before[id]);
    hide Wiped;
  }

  lemma WipingEnds(before: NodeMap, nodes: NodeMap, risk: map<string, RiskState>)
    requires Wiping(before, nodes, risk) && forall id :: id in before ==> id in risk
    ensures nodes.Keys == before.Keys == risk.Keys && RiskMapAgrees(nodes, risk)
    ensures forall id :: id in nodes ==> nodes[id] == Wiped(before[id])
  {
    WipedClean();
    hide Wiped;
  }

  lemma WipedClean()
    ensures forall n :: Wiped(n).risk == Clean
  {
  }

  lemma WipedOnce(n: Node)
    ensures Wiped(Wiped(n)) == Wiped(n)
    ensures Wiped(n).risk == Clean
  {
  }

  // Scans a node's findings for a blocking one.
  method StateOf(fs: seq<Finding>) returns (state: RiskState)
    requires fs != []
    ensures state == BaseRisk(fs)
  {
    state := Warned;
    CountPositive(fs, Block);
    for i := 0 to |fs|
      invariant state == Warned
      invariant forall j :: 0 <= j < i ==> fs[j].gate != Block
    {
      if fs[i].gate == Block {
        state := Flagged;
        break;
      }
    }
  }

  // Gives each node its findings and state, in whatever order the groups are walked.
  method Overlay(g: Graph, byNode: map<string, seq<Finding>>,
                 risk0: map<string, RiskState>) returns (risk: map<string, RiskState>)
    requires forall id :: id in byNode ==> byNode[id] != []
    requires RiskMapAgrees(g.nodes, risk0)
    modifies g`nodes
    ensures g.nodes.Keys == old(g.nodes).Keys && RiskMapAgrees(g.nodes, risk)
    ensures forall id :: id in g.nodes ==>
              g.nodes[id] == if id in byNode then Marked(old(g.nodes)[id], byNode[id], BaseRisk(byNode[id]))
                  else old(g.nodes)[id]
    ensures forall id :: id in risk <==> id in risk0 || id in byNode
    ensures forall id :: id in byNode ==> risk[id] == BaseRisk(byNode[id])
  {
    hide BaseRisk, Marked, LaidOver, LaidOverRisk;
    var nodes := g.nodes;
    ghost var before := nodes;
    risk := risk0;
    var rest := byNode.Keys;
    OverlayStarts(before, byNode, risk0);
    while rest != {}
      invariant rest <= byNode.Keys && LaidOver(before, nodes, byNode, rest) && LaidOverRisk(risk0, risk, byNode, rest)
      decreases rest
    {
      var id :| id in rest;
      var state := StateOf(byNode[id]);
      OverlaySteps(before, nodes, byNode, rest, id);
      OverlayStepsRisk(risk0, risk, byNode, rest, id);
      rest := rest - {id};
      risk := risk[id := state];
      if id in nodes {
        nodes := nodes[id := Marked(nodes[id], byNode[id], state)];
      }
    }
    g.nodes := nodes;
    OverlayEnds(before, nodes, risk0, risk, byNode);
  }

  // The groups outside rest have been laid over the nodes, and over the states.
  ghost predicate LaidOver(before: NodeMap, nodes: NodeMap, byNode: map<string, seq<Finding>>, rest: set<string>) {
    nodes.Keys == before.Keys && forall id :: id in before ==>
      nodes[id] == if id in byNode && id !in rest then Marked(before[id], byNode[id], BaseRisk(byNode[id]))
          else before[id]
  }

  ghost predicate LaidOverRisk(risk0: map<string, RiskState>, risk: map<string, RiskState>,
                               byNode: map<string, seq<Finding>>, rest: set<string>) {
    && (forall id :: id in risk <==> id in risk0 || (id in byNode && id !in rest))
    && (forall id :: id in risk ==> risk[id] == if id in byNode && id !in rest then BaseRisk(byNode[id]) else risk0[id])
  }

  lemma OverlayStarts(before: NodeMap, byNode: map<string, seq<Finding>>, risk0: map<string, RiskState>)
    ensures LaidOver(before, before, byNode, byNode.Keys) && LaidOverRisk(risk0, risk0, byNode, byNode.Keys)
  {
    hide BaseRisk, Marked;
  }

  lemma OverlaySteps(before: NodeMap, nodes: NodeMap, byNode: map<string, seq<Finding>>, rest: set<string>, id: string)
    requires LaidOver(before, nodes, byNode, rest) && id in rest && id in byNode
    ensures id in nodes ==>
              LaidOver(before, nodes[id := Marked(nodes[id], byNode[id], BaseRisk(byNode[id]))], byNode, rest - {id})
    ensures id !in nodes ==> LaidOver(before, nodes, byNode, rest - {id})
  {
    hide BaseRisk, Marked;
  }

  lemma OverlayStepsRisk(risk0: map<string, RiskState>, risk: map<string, RiskState>, byNode: map<string, seq<Finding>>,
                         rest: set<string>, id: string)
    requires LaidOverRisk(risk0, risk, byNode, rest) && id in rest && id in byNode
    ensures LaidOverRisk(risk0, risk[id := BaseRisk(byNode[id])], byNode, rest - {id})
  {
    hide BaseRisk;
  }

  lemma OverlayEnds(before: NodeMap, nodes: NodeMap, risk0: map<string, RiskState>, risk: map<string, RiskState>,
                    byNode: map<string, seq<Finding>>)
    requires LaidOver(before, nodes, byNode, {}) && LaidOverRisk(risk0, risk, byNode, {}) &&
             RiskMapAgrees(before, risk0)
    ensures nodes.Keys == before.Keys && RiskMapAgrees(nodes, risk)
    ensures forall id :: id in nodes ==>
              nodes[id] == if id in byNode then Marked(before[id], byNode[id], BaseRisk(byNode[id])) else before[id]
    ensures forall id :: id in risk <==> id in risk0 || id in byNode
    ensures forall id :: id in byNode ==> risk[id] == BaseRisk(byNode[id])
  {
    MarkedRisk();
    hide BaseRisk, Marked;
  }

  lemma MarkedRisk()
    ensures forall n, fs, state :: Marked(n, fs, state).risk == state
  {
  }

  // ----- The whole evaluation -----

  // The counts that decide the exit code say what ExitCode says of the raw input.
  lemma CountsDecide(nodes: NodeMap, es: seq<Edge>, roots: seq<string>, realRoots: seq<string>, fs: seq<Finding>,
                     out: seq<Finding>)
    requires |out| == |fs|
    requires forall i :: 0 <= i < |out| ==> Processed(nodes, es, roots, realRoots, fs[i], out[i])
    ensures Count(out, Block) > 0 <==> SomeBlocks(nodes, fs)
    ensures Count(out, Eligible) > 0 <==> SomeGates(nodes, fs)
  {
    hide Count, RootsReaching, ReachedByReal, OnPresumedNode;
    CountPositive(out, Block);
    CountPositive(out, Eligible);
    if Count(out, Block) > 0 {
      var i :| 0 <= i < |out| && out[i].gate == Block;
      assert fs[i] in fs && Blocks(nodes, fs[i]);
    }
    if Count(out, Eligible) > 0 {
      var i :| 0 <= i < |out| && out[i].gate == Eligible;
      assert fs[i] in fs && Gates(nodes, fs[i]);
    }
    if SomeBlocks(nodes, fs) {
      var f :| f in fs && Blocks(nodes, f);
      var i :| 0 <= i < |fs| && fs[i] == f;
      assert out[i].gate == Block;
    }
    if SomeGates(nodes, fs) {
      var f :| f in fs && Gates(nodes, f);
      var i :| 0 <= i < |fs| && fs[i] == f;
      assert out[i].gate == Eligible;
    }
  }

  // What an evaluation leaves on the graph: each node's findings and, as its risk, the peak of its
  // own base risk and those of the packages reaching it over install-time edges.
  ghost predicate IsEvaluated(before: NodeMap, es: seq<Edge>, findings: seq<Finding>, after: NodeMap) {
    exists overlay: NodeMap ::
      && IsOverlay(before, findings, overlay)
      && SameButRisk(overlay, after)
      && forall id :: id in after ==> IsPeak(overlay, es, id, after[id].risk)
  }

  // Wipes the nodes, lays the findings over them, and lets risk spread down the install-time edges.
  method AssignRisk(g: Graph, ghost out: seq<Finding>,
                    byNode: map<string, seq<Finding>>) returns (risk: map<string, RiskState>)
    requires GraphState.Consistent(g.View())
    requires forall id :: if id in byNode then byNode[id] == FindingsOf(out, id) != [] else FindingsOf(out, id) == []
    modifies g`nodes
    ensures IsEvaluated(old(g.nodes), g.edges, out, g.nodes)
    ensures RiskMapAgrees(g.nodes, risk)
    ensures forall id :: id !in g.nodes ==>
              (id in risk <==> id in byNode) && (id in byNode ==> risk[id] == BaseRisk(byNode[id]))
  {
    hide GraphState.Consistent, GraphState.Listed, FindingsOf, BaseRisk, IsPeak, SameButRisk, Wiped, Marked,
         IsEvaluated, RiskMapAgrees;
    ghost var before, s := g.nodes, g.View();
    ConsistentParts(s);
    risk := ResetNodes(g);
    risk := Overlay(g, byNode, risk);
    OverlayOf(before, out, byNode, g.nodes);
    ghost var overlay := g.nodes;
    hide IsOverlay;
    GraphState.ListedByKeys(s, g.View());
    risk := PropagateInstallTime(g, risk);
    SameKeys(overlay, g.nodes);
    Evaluated(before, g.edges, out, overlay, g.nodes);
  }

  lemma ConsistentParts(s: GraphState.State)
    requires GraphState.Consistent(s)
    ensures GraphState.Listed(s) && forall id :: id in s.nodes ==> s.nodes[id].id == id
  {
    hide GraphState.Indexed;
  }

  lemma SameKeys(a: NodeMap, b: NodeMap)
    requires SameButRisk(a, b)
    ensures a.Keys == b.Keys
  {
  }

  method EvaluateWithCoverage(g: Graph, findings: seq<Finding>, incomplete: bool, policy: Policy) returns (res: Result)
    requires GraphState.Consistent(g.View())
    modifies g`nodes
    ensures |res.findings| == |findings|
    ensures forall i :: 0 <= i < |findings| ==>
              Processed(old(g.nodes), g.edges, Sort(g.roots, StringLess), policy.realRoots, findings[i],
                        res.findings[i])
    ensures res.counts ==
            Counts(Count(res.findings, Block), Count(res.findings, Eligible), Count(res.findings, Advisory), |findings|)
    ensures res.exitCode == ExitCode(old(g.nodes), findings, incomplete, policy)
    ensures IsEvaluated(old(g.nodes), g.edges, res.findings, g.nodes)
    ensures RiskMapAgrees(g.nodes, res.risk)
    ensures forall id :: id !in g.nodes ==>
              (id in res.risk <==> FindingsOf(res.findings, id) != [])
              && (id in res.risk ==> res.risk[id] == BaseRisk(FindingsOf(res.findings, id)))
  {
    hide Sort, StringLess, Processed, Count, FindingsOf, BaseRisk, IsEvaluated, RiskMapAgrees, SomeBlocks, SomeGates,
         GraphState.Consistent;
    var out := Process(g.nodes, g.edges, g.roots, policy.realRoots, findings);
    CountsDecide(g.nodes, g.edges, Sort(g.roots, StringLess), policy.realRoots, findings, out);
    var byNode, counts := Tally(out);
    var risk := AssignRisk(g, out, byNode);
    var exitCode :=
      if counts.block > 0 then EXIT_BLOCK
      else if policy.failOnEligible && counts.eligible > 0 then EXIT_GATE
      else if policy.failOnIncomplete && incomplete then EXIT_INCOMPLETE
      else EXIT_CLEAN;
    res := Result(exitCode, counts, risk, out);
  }

  lemma OverlayOf(before: NodeMap, out: seq<Finding>, byNode: map<string, seq<Finding>>, after: NodeMap)
    requires forall id :: id in before ==> before[id].id == id
    requires forall id :: if id in byNode then byNode[id] == FindingsOf(out, id) != [] else FindingsOf(out, id) == []
    requires after.Keys == before.Keys
    requires forall id :: id in after ==>
               after[id] == if id in byNode then Marked(Wiped(before[id]), byNode[id], BaseRisk(byNode[id]))
                   else Wiped(before[id])
    ensures IsOverlay(before, out, after)
  {
    hide FindingsOf, Count;
  }

  lemma Evaluated(before: NodeMap, es: seq<Edge>, out: seq<Finding>, overlay: NodeMap, after: NodeMap)
    requires IsOverlay(before, out, overlay) && SameButRisk(overlay, after)
    requires forall id :: id in after ==> IsPeak(overlay, es, id, after[id].risk)
    ensures IsEvaluated(before, es, out, after)
  {
    hide IsOverlay, IsPeak;
  }
}
