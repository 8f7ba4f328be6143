// What an evaluation says, in states, texts and numbers.
module VerdictTheorems {
  import opened Prelude
  import opened Findings
  import opened GraphTypes
  import opened Reach
  import opened GraphStore
  import opened Verdict
  import opened Evaluate

  // A package in this state that reaches id over install-time edges.
  ghost predicate InfectedBy(nodes: NodeMap, es: seq<Edge>, id: string, r: RiskState) {
    exists p :: p in nodes && nodes[p].kind == Package && nodes[p].risk == r &&
                Reaches(es, {DeclaresHook, HookExecs, HookFetches, HookReadsEnv, Exfil, Republish}, p, id)
  }

  // After propagation a node is flagged exactly when it was, or a flagged package reaches it; else it is
  // warned exactly when it was, or a warned package reaches it; else it is as it was.
  lemma PeakInStates(nodes: NodeMap, es: seq<Edge>, id: string, r: RiskState)
    requires id in nodes
    ensures IsPeak(nodes, es, id, r) <==>
              r == if nodes[id].risk == Flagged || InfectedBy(nodes, es, id, Flagged) then Flagged
                   else if nodes[id].risk == Warned || InfectedBy(nodes, es, id, Warned) then Warned
                   else nodes[id].risk
  {
    hide Reaches;
  }

  // ----- Findings that count -----

  // The finding is on a node whose version was presumed or asserted.
  ghost predicate OnGuess(nodes: NodeMap, f: Finding) {
    f.nodeId in nodes && nodes[f.nodeId].Attribute("depsnort.version_truth") in {"presumed", "asserted"}
  }

  ghost predicate SomeBlock(nodes: NodeMap, findings: seq<Finding>) {
    exists f :: f in findings && f.gate == Block && !OnGuess(nodes, f)
  }

  // Decay zero stands for a finding that does not age.
  ghost predicate SomeRecent(nodes: NodeMap, findings: seq<Finding>) {
    exists f :: f in findings && f.gate == Eligible && !(0.0 < f.recencyDecay < 0.15) && !OnGuess(nodes, f)
  }

  lemma GuessInText(nodes: NodeMap, f: Finding)
    ensures OnPresumedNode(nodes, f) <==> OnGuess(nodes, f)
  {
  }

  // The exit code in numbers: blocking comes first, then what the policy opted into.
  lemma ExitCodeInNumbers(nodes: NodeMap, findings: seq<Finding>, incomplete: bool, policy: Policy)
    ensures ExitCode(nodes, findings, incomplete, policy) ==
            if SomeBlock(nodes, findings) then 1
            else if policy.failOnEligible && SomeRecent(nodes, findings) then 2
            else if policy.failOnIncomplete && incomplete then 3
            else 0
  {
    forall f
      ensures OnPresumedNode(nodes, f) <==> OnGuess(nodes, f)
    {
      GuessInText(nodes, f);
    }
    hide OnPresumedNode, OnGuess;
    assert forall f :: Blocks(nodes, f) <==> f.gate == Block && !OnGuess(nodes, f);
    assert forall f :: Gates(nodes, f) <==> f.gate == Eligible && !(0.0 < f.recencyDecay < 0.15) && !OnGuess(nodes, f);
    hide Blocks, Gates;
  }

  // What each finding ends as.
  lemma ClassInNumbers(nodes: NodeMap, es: seq<Edge>, roots: seq<string>, realRoots: seq<string>, f: Finding,
                       g: Finding)
    requires Processed(nodes, es, roots, realRoots, f, g)
    ensures g.gate == if OnGuess(nodes, f) || (f.gate == Eligible && 0.0 < f.recencyDecay < 0.15) then Advisory
            else f.gate
  {
    hide RootsReaching, ReachedByReal;
    GuessInText(nodes, f);
  }

  // ----- Risk, from findings -----

  // A finding that ends up blocking is on this node, or some finding is.
  ghost predicate Holds(nodes: NodeMap, findings: seq<Finding>, id: string, blocking: bool) {
    exists f :: f in findings && f.nodeId == id && (blocking ==> f.gate == Block && !OnGuess(nodes, f))
  }

  ghost predicate Suffers(nodes: NodeMap, es: seq<Edge>, findings: seq<Finding>, id: string, blocking: bool) {
    || Holds(nodes, findings, id, blocking)
    || exists p :: p in nodes && nodes[p].kind == Package && Holds(nodes, findings, p, blocking) &&
                   Reaches(es, {DeclaresHook, HookExecs, HookFetches, HookReadsEnv, Exfil, Republish}, p, id)
  }

  // A node ends flagged exactly when a blocking finding about an observed version is on it or on a package
  // that reaches it over install-time edges; else warned exactly when any finding is; else clean.
  lemma StateInFindings(before: NodeMap, es: seq<Edge>, roots: seq<string>, realRoots: seq<string>,
                        findings: seq<Finding>, out: seq<Finding>, after: NodeMap, id: string)
    requires |out| == |findings|
    requires forall i :: 0 <= i < |out| ==> Processed(before, es, roots, realRoots, findings[i], out[i])
    requires forall x :: x in before ==> before[x].id == x
    requires IsEvaluated(before, es, out, after) && id in before
    ensures id in after && after[id].risk ==
                           if Suffers(before, es, findings, id, true) then Flagged
                           else if Suffers(before, es, findings, id, false) then Warned
                           else Clean
  {
    hide Reaches, Processed, Holds, BaseRisk, IsPeak;
    var overlay: NodeMap :| IsOverlay(before, out, overlay) && SameButRisk(overlay, after) &&
                            forall x :: x in after ==> IsPeak(overlay, es, x, after[x].risk);
    forall x | x in before
      ensures x in overlay && overlay[x].kind == before[x].kind
      ensures overlay[x].risk == if Holds(before, findings, x, true) then Flagged
                                 else if Holds(before, findings, x, false) then Warned else Clean
    {
      OwnRisk(before, es, roots, realRoots, findings, out, x);
      assert overlay[x] == Overlaid(before[x], out);
    }
    PeakInStates(overlay, es, id, after[id].risk);
    hide IsOverlay, SameButRisk;
    InfectedSuffers(before, es, findings, overlay, id);
  }

  lemma InfectedSuffers(before: NodeMap, es: seq<Edge>, findings: seq<Finding>, overlay: NodeMap, id: string)
    requires id in before && before.Keys == overlay.Keys
    requires forall x :: x in before ==> overlay[x].kind == before[x].kind
    requires forall x :: x in before ==>
               overlay[x].risk == if Holds(before, findings, x, true) then Flagged
               else if Holds(before, findings, x, false) then Warned else Clean
    ensures overlay[id].risk == Flagged || InfectedBy(overlay, es, id, Flagged) <==>
            Suffers(before, es, findings, id, true)
    ensures !Suffers(before, es, findings, id, true) ==>
              (overlay[id].risk == Warned || InfectedBy(overlay, es, id, Warned) <==>
               Suffers(before, es, findings, id, false))
    ensures !Suffers(before, es, findings, id, false) ==> overlay[id].risk == Clean
  {
    assert forall x :: Holds(before, findings, x, true) ==> Holds(before, findings, x, false);
    hide Reaches, Holds;
  }

  // The risk a node has of its own.
  lemma OwnRisk(before: NodeMap, es: seq<Edge>, roots: seq<string>, realRoots: seq<string>, findings: seq<Finding>,
                out: seq<Finding>, x: string)
    requires |out| == |findings|
    requires forall i :: 0 <= i < |out| ==> Processed(before, es, roots, realRoots, findings[i], out[i])
    ensures BaseRisk(FindingsOf(out, x)) ==
            if Holds(before, findings, x, true) then Flagged
            else if Holds(before, findings, x, false) then Warned else Clean
  {
    hide Processed, OnGuess;
    forall i | 0 <= i < |out|
      ensures out[i].nodeId == findings[i].nodeId
      ensures out[i].gate == Block <==> findings[i].gate == Block && !OnGuess(before, findings[i])
    {
      SameNode(before, es, roots, realRoots, findings[i], out[i]);
      ClassInNumbers(before, es, roots, realRoots, findings[i], out[i]);
    }
    MineExactly(out, x);
    CountPositive(FindingsOf(out, x), Block);
    HoldsAny(before, findings, out, x);
    HoldsBlock(before, findings, out, x);
    hide Count, FindingsOf, Holds;
  }

  lemma HoldsAny(nodes: NodeMap, findings: seq<Finding>, out: seq<Finding>, x: string)
    requires |out| == |findings| && forall i :: 0 <= i < |out| ==> out[i].nodeId == findings[i].nodeId
    requires forall f :: f in FindingsOf(out, x) <==> f in out && f.nodeId == x
    ensures Holds(nodes, findings, x, false) <==> FindingsOf(out, x) != []
  {
    hide FindingsOf, OnGuess;
    var mine := FindingsOf(out, x);
    if mine != [] {
      assert mine[0] in mine;
      var i :| 0 <= i < |out| && out[i] == mine[0];
      assert findings[i] in findings;
    }
    if f :| f in findings && f.nodeId == x {
      var i :| 0 <= i < |findings| && findings[i] == f;
      assert out[i] in out;
    }
  }

  lemma HoldsBlock(nodes: NodeMap, findings: seq<Finding>, out: seq<Finding>, x: string)
    requires |out| == |findings| && forall i :: 0 <= i < |out| ==> out[i].nodeId == findings[i].nodeId
    requires forall i :: 0 <= i < |out| ==>
               (out[i].gate == Block <==> findings[i].gate == Block && !OnGuess(nodes, findings[i]))
    requires forall f :: f in FindingsOf(out, x) <==> f in out && f.nodeId == x
    ensures Holds(nodes, findings, x, true) <==>
              exists k :: 0 <= k < |FindingsOf(out, x)| && FindingsOf(out, x)[k].gate == Block
  {
    hide FindingsOf, OnGuess;
    var mine := FindingsOf(out, x);
    if k :| 0 <= k < |mine| && mine[k].gate == Block {
      assert mine[k] in mine;
      var i :| 0 <= i < |out| && out[i] == mine[k];
      assert findings[i] in findings;
    }
    if Holds(nodes, findings, x, true) {
      var f :| f in findings && f.nodeId == x && f.gate == Block && !OnGuess(nodes, f);
      var i :| 0 <= i < |findings| && findings[i] == f;
      assert out[i].gate == Block && out[i].nodeId == x;
      IsMine(out, x, i);
    }
    hide Holds;
  }

  lemma IsMine(out: seq<Finding>, x: string, i: nat)
    requires i < |out| && out[i].nodeId == x && forall f :: f in FindingsOf(out, x) <==> f in out && f.nodeId == x
    ensures exists k :: 0 <= k < |FindingsOf(out, x)| && FindingsOf(out, x)[k] == out[i]
  {
    hide FindingsOf;
    assert out[i] in FindingsOf(out, x);
  }

  lemma SameNode(nodes: NodeMap, es: seq<Edge>, roots: seq<string>, realRoots: seq<string>, f: Finding, g: Finding)
    requires Processed(nodes, es, roots, realRoots, f, g)
    ensures g.nodeId == f.nodeId
  {
    hide RootsReaching, ReachedByReal;
  }

  // The findings of a node are exactly those on it.
  lemma {:induction false} MineExactly(findings: seq<Finding>, id: string)
    ensures forall f :: f in FindingsOf(findings, id) <==> f in findings && f.nodeId == id
  {
    if findings != [] {
      MineExactly(findings[..|findings| - 1], id);
      assert findings == findings[..|findings| - 1] + [findings[|findings| - 1]];
    }
  }

  // ----- Containment, in letters -----

  // ASCII letters that differ at most in case.
  predicate SameLetter(a: char, b: char) {
    || a == b
    || ('a' <= a <= 'z' && b as int + 32 == a as int)
    || ('a' <= b <= 'z' && a as int + 32 == b as int)
  }

  // want stands in root at k.
  predicate StandsAt(want: string, root: string, k: nat) {
    k + |want| <= |root| && forall j :: 0 <= j < |want| ==> SameLetter(want[j], root[k + j])
  }

  lemma DesignatesInLetters(want: string, root: string)
    ensures Designates(want, root) <==> want != "" && exists k: nat :: StandsAt(want, root, k)
  {
    var w, r := Lower(want), Lower(root);
    forall k: nat
      ensures k <= |r| && w <= r[k..] <==> StandsAt(want, root, k)
    {
      PrefixInLetters(want, root, k);
    }
  }

  lemma PrefixInLetters(want: string, root: string, k: nat)
    ensures k <= |Lower(root)| && Lower(want) <= Lower(root)[k..] <==> StandsAt(want, root, k)
  {
    var w, r := Lower(want), Lower(root);
    if k + |w| <= |r| {
      assert forall j :: 0 <= j < |w| ==> r[k..][j] == r[k + j];
      assert forall j :: 0 <= j < |want| ==> (w[j] == r[k + j] <==> SameLetter(want[j], root[k + j]));
    }
  }

  // A finding is newly labelled contained exactly when real roots were named and none of them stands, in
  // whatever case, in a root that reaches its node over edges of any of these kinds.
  lemma ContainedInLetters(nodes: NodeMap, es: seq<Edge>, roots: seq<string>, realRoots: seq<string>, f: Finding,
                           g: Finding)
    requires Processed(nodes, es, roots, realRoots, f, g)
    ensures forall r :: r in g.reachableRoots <==>
              r in roots && Reaches(es,
                                    {DependsOn, DeclaresHook, HookExecs, HookFetches, HookReadsEnv, Exfil, Republish,
                                         BuildBackend}, r, f.nodeId)
    ensures g.contained <==>
              || f.contained
              || (realRoots != [] && forall want, r, k: nat :: want in realRoots && want != "" &&
                                                                 r in g.reachableRoots ==>
                                                               !StandsAt(want, r, k))
  {
    hide Reaches, Designates, OnPresumedNode, StandsAt;
    RootsReachingMembers(es, roots, f.nodeId);
    forall want, r
      ensures Designates(want, r) <==> want != "" && exists k: nat :: StandsAt(want, r, k)
    {
      DesignatesInLetters(want, r);
    }
    MatchedExactly(g.reachableRoots, realRoots);
    hide RootsReaching, ReachedByReal;
  }

  lemma MatchedExactly(roots: seq<string>, realRoots: seq<string>)
    ensures ReachedByReal(roots, realRoots) <==>
              exists want, r :: want in realRoots && r in roots && Designates(want, r)
  {
    hide Designates;
    if want, r :| want in realRoots && r in roots && Designates(want, r) {
      var i :| 0 <= i < |roots| && roots[i] == r;
      var j :| 0 <= j < |realRoots| && realRoots[j] == want;
    }
  }
}
