// What the walk presumed for each package it lacked, and which nodes that queued.
module ExpandChoices {
  import opened Prelude
  import opened GraphTypes
  import opened GraphState
  import opened Findings
  import opened ExpandTypes
  import opened ExpandRegion
  import opened ExpandLedger
  import opened ExpandSteps

  // The version presumed for each package.
  type Choices = map<NameKey, string>

  // The version these constraints lead to for k.
  ghost predicate IsChoice(wk: Walker, opts: Options, k: NameKey, constraints: seq<string>, version: string) {
    && k.ecosystem in wk.declarers
    && exists r, truth, candidates ::
         && IsPresumedFor(wk, opts, wk.declarers[k.ecosystem], k.ecosystem, k.canonical, constraints, r)
         && Records(r, version, truth, candidates)
  }

  lemma ChoiceMade(wk: Walker, opts: Options, k: NameKey, constraints: seq<string>, version: string, truth: string,
                   candidates: nat)
    requires k.ecosystem in wk.declarers
    requires exists r ::
               && IsPresumedFor(wk, opts, wk.declarers[k.ecosystem], k.ecosystem, k.canonical, constraints, r)
               && Records(r, version, truth, candidates)
    ensures IsChoice(wk, opts, k, constraints, version)
  {
    hide IsPresumedFor, Records;
  }

  // This version of k is identified as id.
  predicate Identifies(wk: Walker, k: NameKey, version: string, id: string) {
    k.ecosystem in wk.declarers && wk.declarers[k.ecosystem].identify(k.canonical, version).0 == id && id != ""
  }

  // Every identifier that came is one of a chosen version.
  ghost predicate CameFrom(wk: Walker, before: set<string>, after: set<string>, chosen: Choices) {
    forall id :: id in after ==> id in before || exists k :: k in chosen && Identifies(wk, k, chosen[k], id)
  }

  lemma CameFromOneMore(wk: Walker, before: set<string>, mid: set<string>, after: set<string>,
                        byName: map<NameKey, string>,
                        chosen: Choices, k: NameKey, version: string)
    requires CameFrom(wk, before, mid, chosen) && (k in chosen ==> k !in byName)
    requires forall l, id :: l in chosen && Identifies(wk, l, chosen[l], id) ==> l in byName
    requires forall id :: id in after ==> id in mid || Identifies(wk, k, version, id)
    ensures CameFrom(wk, before, after, chosen[k := version])
  {
    hide Identifies;
    var more := chosen[k := version];
    forall id | id in after && id !in before
      ensures exists l :: l in more && Identifies(wk, l, more[l], id)
    {
      if id in mid {
        var l :| l in chosen && Identifies(wk, l, chosen[l], id);
        assert l in more && more[l] == chosen[l];
      } else {
        assert k in more && more[k] == version;
      }
    }
  }

  // This version of k is the node id, and a node the walk can go on from.
  ghost predicate Leads(wk: Walker, nodes: map<string, Node>, k: NameKey, version: string, id: string) {
    && k.ecosystem in wk.declarers && wk.declarers[k.ecosystem].identify(k.canonical, version).0 == id
    && id != "" && id in nodes && nodes[id].version != ""
  }

  // Where it is identified, it is in the graph.
  ghost predicate IsThere(wk: Walker, nodes: map<string, Node>, k: NameKey, version: string) {
    && k.ecosystem in wk.declarers
    && var id := wk.declarers[k.ecosystem].identify(k.canonical, version).0;
       id == "" || id in nodes
  }

  // What the choices queue: the nodes they lead to, whatever these are labelled, unless expanded.
  ghost predicate IsNext(wk: Walker, nodes: map<string, Node>, expanded: set<string>, chosen: Choices, id: string) {
    id !in expanded && exists k :: k in chosen && Leads(wk, nodes, k, chosen[k], id)
  }

  // A choice was made for k: its node is there, held under its name, and queued if it can be.
  ghost predicate Adopted(wk: Walker, nodes: map<string, Node>, w: Walk, v: Walk, tr: Trace, ur: Trace, k: NameKey,
                          version: string) {
    && IsThere(wk, nodes, k, version) && v.expanded == w.expanded
    && v.byName.Keys == w.byName.Keys +
       (if wk.declarers[k.ecosystem].identify(k.canonical, version).0 != "" then {k} else {})
    && (forall id :: id in ur.queued <==> id in tr.queued || (id !in w.expanded && Leads(wk, nodes, k, version, id)))
    && (forall id :: id in v.frontier <==> id in w.frontier || (id !in w.expanded && Leads(wk, nodes, k, version, id)))
  }

  // Choices were made, and nothing else was queued or named.
  ghost predicate Chose(wk: Walker, nodes: map<string, Node>, w0: Walk, w: Walk, tr0: Trace, tr: Trace,
                        chosen: Choices) {
    && w.expanded == w0.expanded
    && (forall k :: k in chosen ==> IsThere(wk, nodes, k, chosen[k]))
    && (forall id :: id in tr.queued <==> id in tr0.queued || IsNext(wk, nodes, w0.expanded, chosen, id))
    && (forall id :: id in w.frontier <==> id in w0.frontier || IsNext(wk, nodes, w0.expanded, chosen, id))
    && (forall k :: k in w0.byName ==> k in w.byName)
    && (forall k :: k in w.byName ==> k in w0.byName || k in chosen)
    && (forall k, id :: k in chosen && Identifies(wk, k, chosen[k], id) ==> k in w.byName)
  }

  lemma ChoseNothing(wk: Walker, nodes: map<string, Node>, w: Walk, tr: Trace)
    ensures Chose(wk, nodes, w, w, tr, tr, map[])
  {
  }

  lemma LeadsStays(wk: Walker, a: map<string, Node>, b: map<string, Node>, k: NameKey, version: string)
    requires NodesEvolve(a, b) && IsThere(wk, a, k, version)
    ensures IsThere(wk, b, k, version)
    ensures forall id :: Leads(wk, a, k, version, id) <==> Leads(wk, b, k, version, id)
  {
    var id := wk.declarers[k.ecosystem].identify(k.canonical, version).0;
    if id in a {
      SameEcosystem(a, b, id);
    }
    hide NodesEvolve;
  }

  lemma NextStays(wk: Walker, a: map<string, Node>, b: map<string, Node>, expanded: set<string>, chosen: Choices)
    requires NodesEvolve(a, b) && forall k :: k in chosen ==> IsThere(wk, a, k, chosen[k])
    ensures forall k :: k in chosen ==> IsThere(wk, b, k, chosen[k])
    ensures forall id :: IsNext(wk, a, expanded, chosen, id) <==> IsNext(wk, b, expanded, chosen, id)
  {
    hide NodesEvolve, IsThere, Leads;
    forall k | k in chosen
      ensures IsThere(wk, b, k, chosen[k]) && forall id :: Leads(wk, a, k, chosen[k], id) <==>
                Leads(wk, b, k, chosen[k], id)
    {
      LeadsStays(wk, a, b, k, chosen[k]);
    }
  }

  lemma ChoseStays(wk: Walker, a: map<string, Node>, b: map<string, Node>, w0: Walk, w: Walk, tr0: Trace, tr: Trace,
                   chosen: Choices)
    requires Chose(wk, a, w0, w, tr0, tr, chosen) && NodesEvolve(a, b)
    ensures Chose(wk, b, w0, w, tr0, tr, chosen)
  {
    NextStays(wk, a, b, w0.expanded, chosen);
    hide NodesEvolve, IsThere, Leads, IsNext, Identifies;
  }

  // One choice more, for a package that had none or one that led nowhere.
  lemma ChoseOneMore(wk: Walker, nodes: map<string, Node>, w0: Walk, w: Walk, v: Walk, tr0: Trace, tr: Trace, ur: Trace,
                     chosen: Choices, k: NameKey, version: string)
    requires Chose(wk, nodes, w0, w, tr0, tr, chosen) && Adopted(wk, nodes, w, v, tr, ur, k, version)
    requires k in chosen ==> k !in w.byName
    ensures Chose(wk, nodes, w0, v, tr0, ur, chosen[k := version])
  {
    assert forall id :: k in chosen && Leads(wk, nodes, k, chosen[k], id) ==> Identifies(wk, k, chosen[k], id);
    NextOfOneMore(wk, nodes, w0.expanded, chosen, k, version);
    hide IsNext;
    var more := chosen[k := version];
    forall l, id | l in more && Identifies(wk, l, more[l], id)
      ensures l in v.byName
    {
    }
  }

  lemma NextOfOneMore(wk: Walker, nodes: map<string, Node>, expanded: set<string>, chosen: Choices, k: NameKey,
                      version: string)
    requires k in chosen ==> forall id :: !Leads(wk, nodes, k, chosen[k], id)
    ensures forall id :: IsNext(wk, nodes, expanded, chosen[k := version], id) <==>
              IsNext(wk, nodes, expanded, chosen, id) || (id !in expanded && Leads(wk, nodes, k, version, id))
  {
    hide Leads;
    var more := chosen[k := version];
    forall id
      ensures IsNext(wk, nodes, expanded, more, id) <==>
                IsNext(wk, nodes, expanded, chosen, id) || (id !in expanded && Leads(wk, nodes, k, version, id))
    {
      if IsNext(wk, nodes, expanded, chosen, id) {
        var l :| l in chosen && Leads(wk, nodes, l, chosen[l], id);
        assert l in more && more[l] == chosen[l];
      }
      if id !in expanded && Leads(wk, nodes, k, version, id) {
        assert k in more && more[k] == version;
      }
    }
  }

  // The node for a presumed version is one the walk may add.
  lemma ChildIsGood(wk: Walker, opts: Options, before: State, root: string, k: NameKey, constraints: seq<string>,
                    direct: bool, depth: int, discoveredBy: string, text: string, version: string, truth: string,
                    candidates: nat)
    requires MayAsk(wk, opts, before, root, k) && k.ecosystem in wk.declarers
    requires wk.declarers[k.ecosystem].identify(k.canonical, version).0 != "" &&
             (version != "" ==> truth == TRUTH_PRESUMED)
    requires exists r ::
               && IsPresumedFor(wk, opts, wk.declarers[k.ecosystem], k.ecosystem, k.canonical, constraints, r)
               && Records(r, version, truth, candidates)
    ensures var (id, name) := wk.declarers[k.ecosystem].identify(k.canonical, version);
            var n := NewChild(id, k.ecosystem, name, version, direct, depth, truth, discoveredBy, text,
                              CandidateText(candidates));
            && n.id == id && GoodNew(n) && Defaulted(n) == n && !Marked(n) && Belongs(wk, opts, before, root, n)
            && IsChoice(wk, opts, k, constraints, version)
  {
    hide MayAsk, Belongs, NewChild, GoodNew, Defaulted, Marked, IsPresumedFor, Records, CandidateText, Offers;
    var (id, name) := wk.declarers[k.ecosystem].identify(k.canonical, version);
    var n := NewChild(id, k.ecosystem, name, version, direct, depth, truth, discoveredBy, text,
                      CandidateText(candidates));
    NewChildIsGood(id, k.ecosystem, name, version, direct, depth, truth, discoveredBy, text, CandidateText(candidates));
    PresumedIsOffered(wk, opts, k, constraints, version, truth, candidates);
    OfferedBelongs(wk, opts, before, root, k, version, n);
  }

  lemma AdoptsIdentified(wk: Walker, nodes: map<string, Node>, w: Walk, v: Walk, tr: Trace, ur: Trace, k: NameKey,
                         version: string, id: string)
    requires k.ecosystem in wk.declarers && wk.declarers[k.ecosystem].identify(k.canonical, version).0 == id
    requires id != "" && id in nodes && v.expanded == w.expanded && v.byName == w.byName[k := id]
    requires v.frontier == w.frontier + if nodes[id].version != "" && id !in w.expanded then [id] else []
    requires ur.queued == tr.queued + if nodes[id].version != "" && id !in w.expanded then {id} else {}
    ensures Adopted(wk, nodes, w, v, tr, ur, k, version)
  {
  }

  lemma AdoptedIgnoresRest(wk: Walker, nodes: map<string, Node>, w: Walk, v: Walk, tr: Trace, ur: Trace, vr: Trace,
                           k: NameKey, version: string)
    requires Adopted(wk, nodes, w, v, tr, ur, k, version) && vr.queued == ur.queued
    ensures Adopted(wk, nodes, w, v, tr, vr, k, version)
  {
    hide Leads;
  }

  lemma AdoptedKeepsExpanded(wk: Walker, nodes: map<string, Node>, w: Walk, v: Walk, tr: Trace, ur: Trace, k: NameKey,
                             version: string)
    requires Adopted(wk, nodes, w, v, tr, ur, k, version)
    ensures v.expanded == w.expanded
  {
  }

  // A choice without an identifier adopts nothing.
  lemma AdoptsUnidentified(wk: Walker, nodes: map<string, Node>, w: Walk, tr: Trace, ur: Trace, k: NameKey,
                           version: string)
    requires k.ecosystem in wk.declarers && wk.declarers[k.ecosystem].identify(k.canonical, version).0 == ""
    requires ur.queued == tr.queued
    ensures Adopted(wk, nodes, w, w, tr, ur, k, version)
  {
  }
}
