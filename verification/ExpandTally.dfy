// What the walk's counters count: the nodes that are new and not a resolver's, the labels on them, and how
// deep they lie. Every step says how it moves them.
module ExpandTally {
  import opened Prelude
  import opened Findings
  import opened GraphTypes
  import opened ExpandTypes
  import opened ExpandSteps

  // The nodes of b that a lacks and that carry this label.
  ghost function NewWith(a: map<string, Node>, b: map<string, Node>, truth: string): set<string> {
    set id | id in b && id !in a && b[id].Attribute("depsnort.version_truth") == truth
  }

  // The nodes of b that a lacks and that no resolver asserted.
  ghost function NewOwn(a: map<string, Node>, b: map<string, Node>): set<string> {
    set id | id in b && id !in a && b[id].Attribute("depsnort.version_truth") != "asserted"
  }

  // Between a and b the counters grew by as many nodes as the walk added, and as became presumed and
  // contested; and the depth reached became that of the deepest node held, if it grew.
  ghost predicate Tallies(a: map<string, Node>, b: map<string, Node>, r0: Result, r: Result) {
    && r.discovered == r0.discovered + |NewOwn(a, b)|
    && r.presumed == r0.presumed + |NewWith(a, b, "presumed")|
    && r.contested == r0.contested + |NewWith(a, b, "contested")|
    && Deepest(a, b, r0.depthReached, r.depthReached)
  }

  ghost predicate Deepest(a: map<string, Node>, b: map<string, Node>, d0: int, d: int) {
    && d0 <= d && (forall id :: id in NewOwn(a, b) ==> b[id].depth <= d)
    && (d == d0 || exists id :: id in b && b[id].depth == d)
  }

  ghost predicate SameCounts(r0: Result, r: Result) {
    && r.discovered == r0.discovered && r.presumed == r0.presumed && r.contested == r0.contested
    && r.depthReached == r0.depthReached
  }

  // No node is new, and no counter moved.
  lemma TalliesSame(a: map<string, Node>, b: map<string, Node>, r0: Result, r: Result)
    requires a.Keys == b.Keys && SameCounts(r0, r)
    ensures Tallies(a, b, r0, r)
  {
    assert NewWith(a, b, "presumed") == {} && NewWith(a, b, "contested") == {} && NewOwn(a, b) == {};
  }

  // A label but the default one stays as it is.
  lemma LabelStays(m: Node, n: Node, truth: string)
    requires Evolved(m, n) && truth != "" && truth != "observed"
    ensures n.Attribute("depsnort.version_truth") == truth <==> m.Attribute("depsnort.version_truth") == truth
  {
  }

  lemma NewWithSteps(a: map<string, Node>, b: map<string, Node>, c: map<string, Node>, truth: string)
    requires NodesEvolve(a, b) && NodesEvolve(b, c) && truth != "" && truth != "observed"
    ensures |NewWith(a, c, truth)| == |NewWith(a, b, truth)| + |NewWith(b, c, truth)|
  {
    LabelsStay(b, c, truth);
    assert a.Keys <= b.Keys <= c.Keys;
    hide NodesEvolve;
    NewWithParts(a, b, c, truth);
  }

  lemma LabelsStay(b: map<string, Node>, c: map<string, Node>, truth: string)
    requires NodesEvolve(b, c) && truth != "" && truth != "observed"
    ensures forall id :: id in b ==>
              && id in c && c[id].depth == b[id].depth
              && (c[id].Attribute("depsnort.version_truth") == truth <==>
                  b[id].Attribute("depsnort.version_truth") == truth)
  {
    forall id | id in b
      ensures id in c && c[id].depth == b[id].depth
      ensures c[id].Attribute("depsnort.version_truth") == truth <==>
              b[id].Attribute("depsnort.version_truth") == truth
    {
      assert Evolved(b[id], c[id]);
      LabelStays(b[id], c[id], truth);
    }
  }

  lemma NewWithParts(a: map<string, Node>, b: map<string, Node>, c: map<string, Node>, truth: string)
    requires a.Keys <= b.Keys && b.Keys <= c.Keys
    requires forall id :: id in b ==> (c[id].Attribute("depsnort.version_truth") == truth <==>
                                       b[id].Attribute("depsnort.version_truth") == truth)
    ensures |NewWith(a, c, truth)| == |NewWith(a, b, truth)| + |NewWith(b, c, truth)|
  {
    var first, second := NewWith(a, b, truth), NewWith(b, c, truth);
    assert NewWith(a, c, truth) == first + second;
    hide NewWith;
    assert first !! second;
  }

  lemma NewOwnSteps(a: map<string, Node>, b: map<string, Node>, c: map<string, Node>)
    requires NodesEvolve(a, b) && NodesEvolve(b, c)
    ensures |NewOwn(a, c)| == |NewOwn(a, b)| + |NewOwn(b, c)| && NewOwn(a, c) == NewOwn(a, b) + NewOwn(b, c)
  {
    LabelsStay(b, c, "asserted");
    assert a.Keys <= b.Keys <= c.Keys;
    hide NodesEvolve;
    var first, second := NewOwn(a, b), NewOwn(b, c);
    assert NewOwn(a, c) == first + second;
    hide NewOwn;
    assert first !! second;
  }

  lemma TalliesTransitive(a: map<string, Node>, b: map<string, Node>, c: map<string, Node>, r0: Result, r1: Result,
                          r2: Result)
    requires NodesEvolve(a, b) && NodesEvolve(b, c) && Tallies(a, b, r0, r1) && Tallies(b, c, r1, r2)
    ensures Tallies(a, c, r0, r2)
  {
    NewWithSteps(a, b, c, "presumed");
    NewWithSteps(a, b, c, "contested");
    NewOwnSteps(a, b, c);
    DeepestTransitive(a, b, c, r0.depthReached, r1.depthReached, r2.depthReached);
    hide NodesEvolve, NewWith, NewOwn, Deepest;
  }

  lemma DeepestTransitive(a: map<string, Node>, b: map<string, Node>, c: map<string, Node>, d0: int, d1: int, d2: int)
    requires NodesEvolve(a, b) && NodesEvolve(b, c) && Deepest(a, b, d0, d1) && Deepest(b, c, d1, d2)
    ensures Deepest(a, c, d0, d2)
  {
    LabelsStay(b, c, "asserted");
    NewOwnSteps(a, b, c);
    assert forall id :: id in NewOwn(a, b) ==> id in b;
    hide NodesEvolve, NewOwn;
    DeepestParts(a, b, c, d0, d1, d2);
  }

  lemma DeepestParts(a: map<string, Node>, b: map<string, Node>, c: map<string, Node>, d0: int, d1: int, d2: int)
    requires Deepest(a, b, d0, d1) && Deepest(b, c, d1, d2) && NewOwn(a, c) == NewOwn(a, b) + NewOwn(b, c)
    requires forall id :: id in NewOwn(a, b) ==> id in b
    requires forall id :: id in b ==> id in c && c[id].depth == b[id].depth
    ensures Deepest(a, c, d0, d2)
  {
    hide NewOwn;
    if d2 == d1 && d1 != d0 {
      var id :| id in b && b[id].depth == d1;
      assert id in c && c[id].depth == d1;
    }
  }

  // One node was created and counted by its label, or found and not counted.
  lemma TalliesChild(a: map<string, Node>, b: map<string, Node>, child: Node, truth: string, r0: Result, r: Result)
    requires b.Keys == a.Keys + {child.id} && (child.id !in a ==> Evolved(child, b[child.id]))
    requires child.Attribute("depsnort.version_truth") == truth && truth != "asserted"
    requires var q := if child.id in a then r0 else CountDiscovered(r0, truth);
             SameCounts(q.(depthReached := Max(r0.depthReached, b[child.id].depth)), r)
    ensures Tallies(a, b, r0, r)
  {
    var d := Max(r0.depthReached, b[child.id].depth);
    if child.id in a {
      TalliesFound(a, b, child.id, r0, r);
    } else {
      OneNew(a, b, child, "presumed");
      OneNew(a, b, child, "contested");
      OneOwn(a, b, child);
      hide NewWith, NewOwn, Evolved;
      DeepestOne(a, b, child.id, r0.depthReached, d);
    }
  }

  lemma DeepestOne(a: map<string, Node>, b: map<string, Node>, id: string, d0: int, d: int)
    requires NewOwn(a, b) == {id} && id in b && d == Max(d0, b[id].depth)
    ensures Deepest(a, b, d0, d)
  {
    hide NewOwn;
  }

  lemma TalliesFound(a: map<string, Node>, b: map<string, Node>, id: string, r0: Result, r: Result)
    requires a.Keys == b.Keys && id in b
    requires SameCounts(r0.(depthReached := Max(r0.depthReached, b[id].depth)), r)
    ensures Tallies(a, b, r0, r)
  {
    assert NewWith(a, b, "presumed") == {} && NewWith(a, b, "contested") == {} && NewOwn(a, b) == {};
    hide NewWith, NewOwn;
  }

  lemma OneNew(a: map<string, Node>, b: map<string, Node>, child: Node, truth: string)
    requires child.id !in a && b.Keys == a.Keys + {child.id} && Evolved(child, b[child.id])
    requires truth != "" && truth != "observed"
    ensures |NewWith(a, b, truth)| == if child.Attribute("depsnort.version_truth") == truth then 1 else 0
  {
    LabelStays(child, b[child.id], truth);
    hide Evolved;
    assert NewWith(a, b, truth) ==
           if child.Attribute("depsnort.version_truth") == truth then {child.id} else {};
  }

  lemma OneOwn(a: map<string, Node>, b: map<string, Node>, child: Node)
    requires child.id !in a && b.Keys == a.Keys + {child.id} && Evolved(child, b[child.id])
    requires child.Attribute("depsnort.version_truth") != "asserted"
    ensures NewOwn(a, b) == {child.id}
  {
    LabelStays(child, b[child.id], "asserted");
    hide Evolved;
  }

  // Every new node is a resolver's.
  lemma TalliesOthers(a: map<string, Node>, b: map<string, Node>, r0: Result, r: Result)
    requires forall id :: id in b && id !in a ==> b[id].VersionTruth() == TRUTH_ASSERTED
    requires SameCounts(r0, r)
    ensures Tallies(a, b, r0, r)
  {
    assert NewWith(a, b, "presumed") == {} && NewWith(a, b, "contested") == {} && NewOwn(a, b) == {};
  }
}
