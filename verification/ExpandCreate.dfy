// The second half of a layer: creating.
//
// A version is presumed for each package the layer asked for, the package is created unless the graph
// has it, and its parents' edges are drawn, which discharges what the first half left owed.
module ExpandCreate {
  import opened Prelude
  import opened Findings
  import opened GraphTypes
  import opened Sorting
  import opened Reach
  import opened GraphState
  import opened GraphStore
  import opened Presume
  import opened ExpandTypes
  import opened ExpandRegion
  import opened ExpandLedger
  import opened ExpandSteps
  import opened ExpandTally
  import opened ExpandChoices
  import opened ExpandSeed
  import opened ExpandLayers

  // ----- The constraint text recorded on a node -----

  predicate OccursAt(s: string, c: string, i: nat) {
    i + |c| <= |s| && s[i..i + |c|] == c
  }

  predicate Occurs(s: string, c: string) {
    exists i: nat :: i <= |s| && OccursAt(s, c, i)
  }

  lemma OccursInLonger(s: string, more: string, c: string)
    requires Occurs(s, c)
    ensures Occurs(s + more, c)
  {
    var i: nat :| i <= |s| && OccursAt(s, c, i);
    assert (s + more)[i..i + |c|] == s[i..i + |c|];
    assert OccursAt(s + more, c, i);
  }

  lemma OccursAtEnd(s: string, c: string)
    ensures Occurs(s + c, c)
  {
    assert OccursAt(s + c, c, |s|);
  }

  // Texts one after another, a comma and a blank between them.
  function Spelled(parts: seq<string>): string {
    if parts == [] then ""
    else if |parts| == 1 then parts[0]
    else Spelled(parts[..|parts| - 1]) + ", " + parts[|parts| - 1]
  }

  // kept is what is listed of these constraints: some of them, in text order, each but the first not yet
  // spelled in the list before it.
  ghost predicate IsListing(constraints: seq<string>, kept: seq<string>) {
    && (forall c :: c in kept ==> c in constraints)
    && Sorted(kept, StringLess)
    && (forall i :: 0 < i < |kept| ==> !Occurs(Spelled(kept[..i]), kept[i]))
    && (forall c :: c in constraints ==> Occurs(Spelled(kept), c))
    && (constraints != [] ==> kept != [] && kept[0] == Sort(constraints, StringLess)[0])
  }

  // text is what is recorded of these constraints.
  ghost predicate IsText(constraints: seq<string>, text: string) {
    exists kept :: IsListing(constraints, kept) && text == Spelled(kept)
  }

  lemma SpelledMore(kept: seq<string>, c: string)
    ensures Spelled(kept + [c]) == if kept == [] then c else Spelled(kept) + ", " + c
  {
    assert (kept + [c])[..|kept|] == kept;
  }

  // The constraints in text order, leaving out those already spelled inside what came before.
  method JoinConstraints(constraints: seq<string>) returns (out: string)
    ensures IsText(constraints, out)
    ensures forall c :: c in constraints ==> Occurs(out, c)
  {
    hide Sort, StringLess, Occurs, Spelled;
    if constraints == [] {
      NothingSpelled();
      assert IsListing([], []);
      return "";
    }
    SortMembers(constraints, StringLess);
    SortKeepsSome(constraints);
    StringOrder();
    SortSorts(constraints, StringLess);
    var cs := Sort(constraints, StringLess);
    ghost var kept := [cs[0]];
    out := cs[0];
    OccursAtEnd("", cs[0]);
    assert "" + cs[0] == cs[0];
    SpelledMore([], cs[0]);
    assert [] + [cs[0]] == [cs[0]];
    for i := 1 to |cs|
      invariant out == Spelled(kept) && kept != [] && kept[0] == cs[0]
      invariant forall j :: 0 <= j < |kept| ==> kept[j] in cs[..i]
      invariant Sorted(kept, StringLess) && forall j :: 0 < j < |kept| ==> !Occurs(Spelled(kept[..j]), kept[j])
      invariant forall j :: 0 <= j < i ==> Occurs(out, cs[j])
    {
      ghost var before := out;
      assert cs[..i + 1] == cs[..i] + [cs[i]];
      if cs[i] != out && !Occurs(out, cs[i]) {
        out := out + (", " + cs[i]);
        forall j | 0 <= j < i
          ensures Occurs(out, cs[j])
        {
          OccursInLonger(before, ", " + cs[i], cs[j]);
        }
        OccursAtEnd(before + ", ", cs[i]);
        assert before + (", " + cs[i]) == before + ", " + cs[i];
        SpelledMore(kept, cs[i]);
        KeepsSorted(cs, i, kept);
        KeepsListing(kept, cs[i]);
        kept := kept + [cs[i]];
      } else if cs[i] == out {
        OccursAtEnd("", cs[i]);
        assert "" + cs[i] == cs[i];
      }
    }
    forall c | c in constraints
      ensures Occurs(out, c)
    {
      assert c in cs;
    }
    assert cs[..|cs|] == cs;
    assert IsListing(constraints, kept);
  }

  lemma NothingSpelled()
    ensures Spelled([]) == ""
  {
  }

  lemma KeepsSorted(cs: seq<string>, i: nat, kept: seq<string>)
    requires Sorted(cs, StringLess) && i < |cs| && Sorted(kept, StringLess)
    requires forall j :: 0 <= j < |kept| ==> kept[j] in cs[..i]
    ensures Sorted(kept + [cs[i]], StringLess)
  {
    hide StringLess;
    var more := kept + [cs[i]];
    forall j, k | 0 <= j < k < |more|
      ensures !StringLess(more[k], more[j])
    {
      if k == |kept| {
        assert more[j] == kept[j] && kept[j] in cs[..i];
        var l :| 0 <= l < i && cs[..i][l] == kept[j];
        assert !StringLess(cs[i], cs[l]);
      }
    }
  }

  lemma KeepsListing(kept: seq<string>, c: string)
    requires kept != [] && !Occurs(Spelled(kept), c)
    requires forall j :: 0 < j < |kept| ==> !Occurs(Spelled(kept[..j]), kept[j])
    ensures forall j :: 0 < j < |kept + [c]| ==> !Occurs(Spelled((kept + [c])[..j]), (kept + [c])[j])
  {
    hide Occurs, Spelled;
    var more := kept + [c];
    forall j | 0 < j < |more|
      ensures !Occurs(Spelled(more[..j]), more[j])
    {
      assert more[..j] == kept[..j];
      assert kept[..|kept|] == kept;
    }
  }

  lemma SortKeepsSome(s: seq<string>)
    requires s != []
    ensures Sort(s, StringLess) != []
  {
    hide Sort, StringLess;
    SortMembers(s, StringLess);
    assert s[0] in Sort(s, StringLess);
  }

  // ----- One package -----

  // Packages are created in the order of their "ecosystem|canonical" text.
  predicate NameKeyLess(k: NameKey, l: NameKey) {
    StringLess(k.ecosystem + "|" + k.canonical, l.ecosystem + "|" + l.canonical)
  }

  // A package the layer declared: this version its constraints presume, and if that can be identified, it
  // is a node that every parent depends on.
  ghost predicate DrawnAs(wk: Walker, opts: Options, s: State, k: NameKey, p: Pending, version: string) {
    && k.ecosystem in wk.declarers
    && var id := wk.declarers[k.ecosystem].identify(k.canonical, version).0;
       && IsChoice(wk, opts, k, p.constraints, version)
       && (id != "" ==> id in s.nodes && forall x :: x in p.parents ==> Edge(x, id, DependsOn) in s.edges)
  }

  lemma DrawnStays(wk: Walker, opts: Options, s: State, t: State, root: string, k: NameKey, p: Pending, version: string)
    requires DrawnAs(wk, opts, s, k, p, version) && Progress(s, t, root)
    ensures DrawnAs(wk, opts, t, k, p, version)
  {
    hide Progress, IsChoice;
    ProgressKeeps(s, t, root, root);
  }

  // How the package is created: below its deepest parent, with the constraints it was asked for with.
  ghost predicate Created(wk: Walker, opts: Options, before: map<string, Node>, after: map<string, Node>,
                          byName: map<NameKey, string>, k: NameKey, p: Pending, version: string) {
    exists text, truth, candidates ::
      && CreatedAs(wk, opts, before, after, byName, k, p.constraints, false, p.depth, p.discoveredBy, text, version,
                   truth, candidates)
      && IsText(p.constraints, text) && forall c :: c in p.constraints ==> Occurs(text, c)
  }

  // n is the node made for k: with this version, which the constraints gathered for it presume, labelled
  // as it was found, below its deepest parent, and with those constraints in its recorded text.
  ghost predicate MadeAs(wk: Walker, opts: Options, n: Node, k: NameKey, p: Pending, version: string, truth: string,
                         candidates: nat, text: string) {
    && k.ecosystem in wk.declarers
    && var d := wk.declarers[k.ecosystem];
       var (id, name) := d.identify(k.canonical, version);
       && (exists r :: IsPresumedFor(wk, opts, d, k.ecosystem, k.canonical, p.constraints, r) &&
            Records(r, version, truth, candidates))
       && id != "" && IsText(p.constraints, text) && (forall c :: c in p.constraints ==> Occurs(text, c))
       && Evolved(NewChild(id, k.ecosystem, name, version, false, p.depth, truth, p.discoveredBy, text,
                           CandidateText(candidates)), n)
  }

  ghost predicate MadeFor(wk: Walker, opts: Options, n: Node, k: NameKey, p: Pending, version: string) {
    exists truth, candidates, text :: MadeAs(wk, opts, n, k, p, version, truth, candidates, text)
  }

  // Each of these nodes was made for something on the queue, with the version chosen for it.
  ghost predicate AllMade(wk: Walker, opts: Options, nodes: map<string, Node>, created: set<string>, queue: Queue,
                          chosen: Choices) {
    forall id :: id in created ==>
      id in nodes && exists k :: k in queue && k in chosen && MadeFor(wk, opts, nodes[id], k, queue[k], chosen[k])
  }

  lemma MadeForStays(wk: Walker, opts: Options, m: Node, n: Node, k: NameKey, p: Pending, version: string)
    requires MadeFor(wk, opts, m, k, p, version) && Evolved(m, n)
    ensures MadeFor(wk, opts, n, k, p, version)
  {
    hide IsPresumedFor, Records, Occurs, NewChild, Evolved, IsText;
    var truth, candidates, text :| MadeAs(wk, opts, m, k, p, version, truth, candidates, text);
    var (id, name) := wk.declarers[k.ecosystem].identify(k.canonical, version);
    EvolvedTransitive(NewChild(id, k.ecosystem, name, version, false, p.depth, truth, p.discoveredBy, text,
                               CandidateText(candidates)), m, n);
    assert MadeAs(wk, opts, n, k, p, version, truth, candidates, text);
  }

  lemma AllMadeStays(wk: Walker, opts: Options, s: State, t: State, root: string, created: set<string>, queue: Queue,
                     chosen: Choices)
    requires AllMade(wk, opts, s.nodes, created, queue, chosen) && Progress(s, t, root)
    ensures AllMade(wk, opts, t.nodes, created, queue, chosen)
  {
    hide Progress, MadeFor, Evolved;
    forall id | id in created
      ensures id in t.nodes &&
              exists k :: k in queue && k in chosen && MadeFor(wk, opts, t.nodes[id], k, queue[k], chosen[k])
    {
      ProgressEvolved(s, t, root, id);
      var k :| k in queue && k in chosen && MadeFor(wk, opts, s.nodes[id], k, queue[k], chosen[k]);
      MadeForStays(wk, opts, s.nodes[id], t.nodes[id], k, queue[k], chosen[k]);
    }
  }

  lemma CreatedIsMade(wk: Walker, opts: Options, before: map<string, Node>, after: map<string, Node>,
                      byName: map<NameKey, string>, k: NameKey, p: Pending, version: string, id: string)
    requires Created(wk, opts, before, after, byName, k, p, version) && id in after && id !in before
    ensures MadeFor(wk, opts, after[id], k, p, version)
  {
    hide IsPresumedFor, Records, Occurs, NewChild, Evolved, IsText;
    var text, truth, candidates :|
      && CreatedAs(wk, opts, before, after, byName, k, p.constraints, false, p.depth, p.discoveredBy, text, version,
                   truth, candidates)
      && IsText(p.constraints, text) && forall c :: c in p.constraints ==> Occurs(text, c);
    assert MadeAs(wk, opts, after[id], k, p, version, truth, candidates, text);
  }

  // A version was presumed and identified: its node is created below its deepest parent, unless it exists.
  method CreateChild(wk: Walker, opts: Options, g: Graph, k: NameKey, p: Pending, version: string, truth: string,
                     candidates: nat, w0: Walk, ghost tr0: Trace)
    returns (w: Walk, ghost tr: Trace)
    requires CleanWalker(wk) && Inv(wk, opts, g.View(), w0, tr0) && tr0.pending == {}
    requires k.ecosystem in wk.declarers && p.parents != [] && InSubtree(g.View(), tr0.root, p.parents)
    requires MayAsk(wk, opts, tr0.before, tr0.root, k)
    requires wk.declarers[k.ecosystem].identify(k.canonical, version).0 != "" &&
             (version != "" ==> truth == TRUTH_PRESUMED) && truth != "asserted"
    requires exists r ::
               && IsPresumedFor(wk, opts, wk.declarers[k.ecosystem], k.ecosystem, k.canonical, p.constraints, r)
               && Records(r, version, truth, candidates)
    modifies g
    ensures Inv(wk, opts, g.View(), w, tr) && Progress(old(g.View()), g.View(), tr0.root)
    ensures tr == tr0.(queued := tr.queued) && tr0.queued <= tr.queued && w.res.asserted == w0.res.asserted
    ensures forall x :: x in p.parents ==> Linked(wk, g.View(), x, k)
    ensures Tallies(old(g.nodes), g.nodes, w0.res, w.res)
    ensures Created(wk, opts, old(g.nodes), g.nodes, w.byName, k, p, version)
    ensures DrawnAs(wk, opts, g.View(), k, p, version) && Adopted(wk, g.nodes, w0, w, tr0, tr, k, version)
  {
    hide Inv, Progress, Reaches, Linked, NewChild, GoodNew, Defaulted, InSubtree, Evolved, IsPresumedFor, Records,
         Occurs, IsText, CountDiscovered, Marked, CandidateText, MayAsk, Belongs, Adopted, IsChoice, Reaching,
         CleanWalker, Tallies;
    ghost var s := g.View();
    var text := JoinConstraints(p.constraints);
    var (id, name) := wk.declarers[k.ecosystem].identify(k.canonical, version);
    var child := NewChild(id, k.ecosystem, name, version, false, p.depth, truth, p.discoveredBy, text,
                          CandidateText(candidates));
    CleanIds(wk, k);
    ChildIsGood(wk, opts, tr0.before, tr0.root, k, p.constraints, false, p.depth, p.discoveredBy, text, version, truth,
                candidates);
    w, tr := Adopt(wk, opts, g, w0, k, child, truth, p.parents, tr0);
    LabelOfChild(id, k.ecosystem, name, version, false, p.depth, truth, p.discoveredBy, text,
                 CandidateText(candidates));
    AdoptTallies(s.nodes, g.nodes, child, truth, w0.res, w.res);
    AdoptsIdentified(wk, g.nodes, w0, w, tr0, tr, k, version, id);
    assert CreatedAs(wk, opts, s.nodes, g.nodes, w.byName, k, p.constraints, false, p.depth, p.discoveredBy, text,
                     version, truth, candidates);
    forall x | x in p.parents
      ensures Linked(wk, g.View(), x, k) && Edge(x, id, DependsOn) in g.edges
    {
      var i :| 0 <= i < |p.parents| && p.parents[i] == x;
    }
  }

  method CreateOne(wk: Walker, opts: Options, g: Graph, k: NameKey, p: Pending, w0: Walk, ghost tr0: Trace)
    returns (w: Walk, ghost tr: Trace, ghost choice: string)
    requires CleanWalker(wk) && Inv(wk, opts, g.View(), w0, tr0) && tr0.pending == {}
    requires k.ecosystem in wk.declarers && p.parents != [] && InSubtree(g.View(), tr0.root, p.parents)
    requires forall x :: Awaits(tr0.owed, x, k) ==> x in p.parents
    requires MayAsk(wk, opts, tr0.before, tr0.root, k)
    modifies g
    ensures Inv(wk, opts, g.View(), w, tr) && Progress(old(g.View()), g.View(), tr0.root)
    ensures tr == tr0.(queued := tr.queued, owed := tr0.owed - {k}) && tr0.queued <= tr.queued
    ensures w.expanded == w0.expanded && w.res.asserted == w0.res.asserted
    ensures Created(wk, opts, old(g.nodes), g.nodes, w.byName, k, p, choice) &&
            DrawnAs(wk, opts, g.View(), k, p, choice)
    ensures Adopted(wk, g.nodes, w0, w, tr0, tr, k, choice) && Tallies(old(g.nodes), g.nodes, w0.res, w.res)
  {
    hide Inv, Progress, Linked, AlwaysIdentifies, NewChild, InSubtree, Evolved, Awaits, IsPresumedFor, Records, Occurs,
         IsText, CandidateText, MayAsk, Adopted, IsChoice, CleanWalker, Tallies;
    ghost var s := g.View();
    w, tr := w0, tr0;
    var d := wk.declarers[k.ecosystem];
    var version, truth, candidates := PresumeFor(wk, opts, d, k.ecosystem, k.canonical, p.constraints);
    choice := version;
    ChoiceMade(wk, opts, k, p.constraints, version, truth, candidates);
    if d.identify(k.canonical, version).0 == "" {
      var text := JoinConstraints(p.constraints);
      ProgressSelf(s, tr.root);
      TalliesSame(s.nodes, s.nodes, w.res, w.res);
      SometimesUnidentified(d, k.canonical, version);
      AdoptsUnidentified(wk, s.nodes, w0, tr0, tr, k, version);
      assert CreatedAs(wk, opts, s.nodes, g.nodes, w.byName, k, p.constraints, false, p.depth, p.discoveredBy, text,
                       version, truth, candidates);
    } else {
      w, tr := CreateChild(wk, opts, g, k, p, version, truth, candidates, w, tr);
    }
    InvPays(wk, opts, g.View(), w, tr, k);
    ghost var ur := tr;
    tr := tr.(owed := tr.owed - {k}, queued := tr.queued);
    AdoptedIgnoresRest(wk, g.nodes, w0, w, tr0, ur, tr, k, version);
    AdoptedKeepsExpanded(wk, g.nodes, w0, w, tr0, tr, k, version);
  }

  // ----- The layer -----

  // The packages ks[..i] have been dealt with.
  ghost predicate Creating(wk: Walker, opts: Options, s0: State, s: State, w0: Walk, w: Walk, queue: Queue,
                           ks: seq<NameKey>, tr0: Trace, tr: Trace, chosen: Choices, i: nat) {
    && i <= |ks| && (forall k :: k in ks <==> k in queue) && NoDuplicates(ks)
    && AllMayBeAsked(wk, opts, tr.before, tr.root, queue)
    && chosen.Keys == Handled(ks, i) && Chose(wk, s.nodes, w0, w, tr0, tr, chosen)
    && Inv(wk, opts, s, w, tr) && Progress(s0, s, tr0.root) && QueueOk(wk, s, tr0.root, queue)
    && tr == tr0.(queued := tr.queued, owed := tr.owed) && tr0.queued <= tr.queued && tr.pending == {}
    && tr.owed == ParentsOf(queue) - Handled(ks, i)
    && (forall k :: k in chosen ==> k in queue && DrawnAs(wk, opts, s, k, queue[k], chosen[k]))
    && AllMade(wk, opts, s.nodes, s.nodes.Keys - s0.nodes.Keys, queue, chosen)
    && w.expanded == w0.expanded && w.res.asserted == w0.res.asserted
    && Tallies(s0.nodes, s.nodes, w0.res, w.res)
  }

  ghost function Handled(ks: seq<NameKey>, i: nat): set<NameKey>
    requires i <= |ks|
  {
    set k | k in ks[..i]
  }

  lemma HandledGrows(owed: Owed, ks: seq<NameKey>, i: nat)
    requires i < |ks|
    ensures owed - Handled(ks, i) - {ks[i]} == owed - Handled(ks, i + 1)
    ensures owed - Handled(ks, 0) == owed && Handled(ks, i + 1) == Handled(ks, i) + {ks[i]}
  {
    assert ks[..i + 1] == ks[..i] + [ks[i]];
  }

  lemma CreatingStarts(wk: Walker, opts: Options, s: State, w: Walk, queue: Queue, order: seq<NameKey>,
                       ks: seq<NameKey>, tr: Trace)
    requires Reading(wk, opts, s, w, queue, order, tr)
    requires NoDuplicates(ks) && forall k :: k in ks <==> k in order
    ensures Creating(wk, opts, s, s, w, w, queue, ks, tr, tr, map[], 0)
  {
    hide Inv, QueueOk, AllMayBeAsked, Accumulated;
    ProgressSelf(s, tr.root);
    ChoseNothing(wk, s.nodes, w, tr);
    TalliesSame(s.nodes, s.nodes, w.res, w.res);
    hide Progress, Chose, NoDuplicates, Tallies;
    assert ParentsOf(queue) - Handled(ks, 0) == ParentsOf(queue);
  }

  lemma CreatingAt(wk: Walker, opts: Options, s0: State, s: State, w0: Walk, w: Walk, queue: Queue, ks: seq<NameKey>,
                   tr0: Trace, tr: Trace, chosen: Choices, i: nat)
    requires Creating(wk, opts, s0, s, w0, w, queue, ks, tr0, tr, chosen, i) && i < |ks|
    ensures MayAsk(wk, opts, tr.before, tr.root, ks[i]) && ks[i] !in chosen
    ensures ks[i] in queue && ks[i].ecosystem in wk.declarers && Inv(wk, opts, s, w, tr) && tr.pending == {} &&
            tr.root == tr0.root
    ensures queue[ks[i]].parents != [] && InSubtree(s, tr.root, queue[ks[i]].parents)
    ensures forall x :: Awaits(tr.owed, x, ks[i]) ==> x in queue[ks[i]].parents
  {
    hide Inv, Progress, InSubtree, AllMade, Chose, DrawnAs, MayAsk, Tallies;
    assert ks[i] in ks;
  }

  lemma CreatingSteps(wk: Walker, opts: Options, s0: State, s: State, t: State, w0: Walk, w: Walk, v: Walk,
                      queue: Queue, ks: seq<NameKey>,
                      tr0: Trace, tr: Trace, ur: Trace, chosen: Choices, i: nat, choice: string)
    requires Creating(wk, opts, s0, s, w0, w, queue, ks, tr0, tr, chosen, i) && i < |ks|
    requires Inv(wk, opts, t, v, ur) && Progress(s, t, tr0.root)
    requires ur == tr.(queued := ur.queued, owed := tr.owed - {ks[i]}) && tr.queued <= ur.queued
    requires v.expanded == w.expanded && v.res.asserted == w.res.asserted
    requires Tallies(s.nodes, t.nodes, w.res, v.res)
    requires ks[i] in queue && ks[i] !in chosen && DrawnAs(wk, opts, t, ks[i], queue[ks[i]], choice)
    requires AllMade(wk, opts, t.nodes, t.nodes.Keys - s.nodes.Keys, queue, chosen[ks[i] := choice])
    requires Adopted(wk, t.nodes, w, v, tr, ur, ks[i], choice)
    ensures Creating(wk, opts, s0, t, w0, v, queue, ks, tr0, ur, chosen[ks[i] := choice], i + 1)
  {
    hide Inv, Progress, QueueOk, DrawnAs, AllMade, Chose, Adopted, AllMayBeAsked, NoDuplicates, Tallies;
    MakesMore(wk, opts, s0, s, t, tr0.root, queue, chosen, ks[i], choice);
    ProgressTransitive(s0, s, t, tr0.root);
    ProgressNodes(s, t, tr0.root);
    ProgressNodes(s0, s, tr0.root);
    TalliesTransitive(s0.nodes, s.nodes, t.nodes, w0.res, w.res, v.res);
    ChoseStays(wk, s.nodes, t.nodes, w0, w, tr0, tr, chosen);
    ChoseOneMore(wk, t.nodes, w0, w, v, tr0, tr, ur, chosen, ks[i], choice);
    QueueOkStays(wk, s, t, tr0.root, queue);
    forall k | k in chosen
      ensures DrawnAs(wk, opts, t, k, queue[k], chosen[k])
    {
      DrawnStays(wk, opts, s, t, tr0.root, k, queue[k], chosen[k]);
    }
    hide ParentsOf, NodesEvolve;
    HandledGrows(ParentsOf(queue), ks, i);
  }

  lemma MakesMore(wk: Walker, opts: Options, s0: State, s: State, t: State, root: string, queue: Queue,
                  chosen: Choices, k: NameKey, choice: string)
    requires AllMade(wk, opts, s.nodes, s.nodes.Keys - s0.nodes.Keys, queue, chosen) && Progress(s, t, root)
    requires AllMade(wk, opts, t.nodes, t.nodes.Keys - s.nodes.Keys, queue, chosen[k := choice]) && k !in chosen
    ensures AllMade(wk, opts, t.nodes, t.nodes.Keys - s0.nodes.Keys, queue, chosen[k := choice])
  {
    hide Progress, MadeFor;
    AllMadeStays(wk, opts, s, t, root, s.nodes.Keys - s0.nodes.Keys, queue, chosen);
    var more := chosen[k := choice];
    forall id | id in s.nodes.Keys - s0.nodes.Keys
      ensures id in t.nodes &&
              exists l :: l in queue && l in more && MadeFor(wk, opts, t.nodes[id], l, queue[l], more[l])
    {
      var l :| l in queue && l in chosen && MadeFor(wk, opts, t.nodes[id], l, queue[l], chosen[l]);
      assert l in more && more[l] == chosen[l];
    }
  }

  lemma OneMade(wk: Walker, opts: Options, before: map<string, Node>, after: map<string, Node>,
                byName: map<NameKey, string>, k: NameKey, queue: Queue, chosen: Choices)
    requires k in queue && k in chosen && Created(wk, opts, before, after, byName, k, queue[k], chosen[k])
    ensures AllMade(wk, opts, after, after.Keys - before.Keys, queue, chosen)
  {
    hide Created, MadeFor;
    forall id | id in after.Keys - before.Keys
      ensures MadeFor(wk, opts, after[id], k, queue[k], chosen[k])
    {
      CreatedIsMade(wk, opts, before, after, byName, k, queue[k], chosen[k], id);
    }
  }

  lemma CreatingEnds(wk: Walker, opts: Options, s0: State, s: State, w0: Walk, w: Walk, queue: Queue, ks: seq<NameKey>,
                     tr0: Trace, tr: Trace, chosen: Choices)
    requires Creating(wk, opts, s0, s, w0, w, queue, ks, tr0, tr, chosen, |ks|)
    ensures Inv(wk, opts, s, w, tr) && Progress(s0, s, tr0.root) && tr.owed == map[] && tr.pending == {}
    ensures tr == tr0.(queued := tr.queued, owed := tr.owed) && tr0.queued <= tr.queued
    ensures w.expanded == w0.expanded && w.res.asserted == w0.res.asserted
    ensures chosen.Keys == queue.Keys && forall k :: k in queue ==> DrawnAs(wk, opts, s, k, queue[k], chosen[k])
    ensures AllMade(wk, opts, s.nodes, s.nodes.Keys - s0.nodes.Keys, queue, chosen) && QueueOk(wk, s, tr0.root, queue)
    ensures Chose(wk, s.nodes, w0, w, tr0, tr, chosen) && Tallies(s0.nodes, s.nodes, w0.res, w.res)
  {
    hide Inv, Progress, QueueOk, DrawnAs, AllMade, Chose, AllMayBeAsked, NoDuplicates, Tallies;
    assert ks[..|ks|] == ks;
    forall k
      ensures k in chosen <==> k in queue
    {
      assert k in chosen <==> k in Handled(ks, |ks|);
    }
  }

  lemma ReadingOrders(wk: Walker, opts: Options, s: State, w: Walk, queue: Queue, order: seq<NameKey>, tr: Trace)
    requires Reading(wk, opts, s, w, queue, order, tr)
    ensures NoDuplicates(order)
  {
    hide Inv, QueueOk, Accumulated, AllMayBeAsked, NoDuplicates;
  }

  // Phase 2: creates everything the layer declared; nothing is owed afterwards.
  method CreateLayer(wk: Walker, opts: Options, g: Graph, queue: Queue, order: seq<NameKey>, w0: Walk, ghost tr0: Trace)
    returns (w: Walk, ghost tr: Trace, ghost chosen: Choices)
    requires CleanWalker(wk) && Reading(wk, opts, g.View(), w0, queue, order, tr0)
    modifies g
    ensures Inv(wk, opts, g.View(), w, tr) && Progress(old(g.View()), g.View(), tr0.root)
    ensures tr == tr0.(queued := tr.queued, owed := map[]) && tr0.queued <= tr.queued && tr.pending == {}
    ensures w.expanded == w0.expanded && w.res.asserted == w0.res.asserted
    ensures chosen.Keys == queue.Keys && forall k :: k in queue ==> DrawnAs(wk, opts, g.View(), k, queue[k], chosen[k])
    ensures AllMade(wk, opts, g.nodes, g.nodes.Keys - old(g.nodes).Keys, queue, chosen) &&
            QueueOk(wk, g.View(), tr0.root, queue)
    ensures Chose(wk, g.nodes, w0, w, tr0, tr, chosen) && Tallies(old(g.nodes), g.nodes, w0.res, w.res)
  {
    hide AllMade, QueueOk, DrawnAs, Created, Inv, Progress, Reading, Creating, CleanWalker, Sort, StringLess,
         NameKeyLess, InSubtree, Awaits, Chose, Adopted, MayAsk, NoDuplicates, Tallies;
    ghost var s0 := g.View();
    SortMembers(order, NameKeyLess);
    ReadingOrders(wk, opts, s0, w0, queue, order, tr0);
    SortKeepsDistinct(order, NameKeyLess);
    var ks := Sort(order, NameKeyLess);
    w, tr, chosen := w0, tr0, map[];
    CreatingStarts(wk, opts, s0, w, queue, order, ks, tr);
    for i := 0 to |ks|
      invariant Creating(wk, opts, s0, g.View(), w0, w, queue, ks, tr0, tr, chosen, i)
    {
      ghost var s, w1, tr1 := g.View(), w, tr;
      CreatingAt(wk, opts, s0, s, w0, w, queue, ks, tr0, tr, chosen, i);
      ghost var choice;
      w, tr, choice := CreateOne(wk, opts, g, ks[i], queue[ks[i]], w, tr);
      OneMade(wk, opts, s.nodes, g.nodes, w.byName, ks[i], queue, chosen[ks[i] := choice]);
      CreatingSteps(wk, opts, s0, s, g.View(), w0, w1, w, queue, ks, tr0, tr1, tr, chosen, i, choice);
      chosen := chosen[ks[i] := choice];
    }
    CreatingEnds(wk, opts, s0, g.View(), w0, w, queue, ks, tr0, tr, chosen);
  }
}
