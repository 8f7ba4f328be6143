// The labels a walk leaves on nodes, in the attribute texts that reports read, and the counters, which
// are the numbers of nodes that carry them. A node says how its version is known, from how many candidates it
// was chosen and for which constraints; one whose dependencies were not read is marked, with the reason where a
// resolver gave one.
module ExpandLabels {
  import opened Prelude
  import opened GraphTypes
  import opened GraphState
  import opened Presume
  import opened ExpandTypes
  import opened ExpandLedger
  import opened ExpandSteps
  import opened ExpandTally
  import opened ExpandChoices
  import opened ExpandSeed
  import opened ExpandLayers
  import opened ExpandCreate
  import opened ExpandAsserted
  import opened ExpandLog
  import opened Expand
  import opened ExpandTheorems
  import Text

  // A node that a layer made says how its version is known: chosen from so many candidates, contested, or
  // left open.  (An index that publishes the empty text can have that chosen.)
  lemma CreatedInText(wk: Walker, opts: Options, s: State, t: State, root: string, run: Run, id: string)
    requires Ran(wk, opts, s, t, root, run) && id in t.nodes && id !in run.resolved.nodes
    ensures var n := t.nodes[id];
            && n.kind == Package && !n.direct
            && (if n.version != "" then
                  && n.Attribute("depsnort.version_truth") == "presumed"
                  && exists m: nat :: m > 0 && n.Attribute("depsnort.version_candidates") == Text.Decimal(m)
                else
                  || (&& n.Attribute("depsnort.version_truth") in {"contested", "", "observed"}
                      && n.Attribute("depsnort.version_candidates") == "")
                  || PublishesEmpty(wk, n.ecosystem))
  {
    hide LayerDid, HeardIn, Finished, InPhases, InSeed, ResolverDid, InBound, InOrder, QueuedIn, ReadAt;
    var i :| 0 <= i < |run.log| && id in run.log[i].created;
    MadeInText(wk, opts, t, root, run.log[i], id);
  }

  lemma MadeInText(wk: Walker, opts: Options, t: State, root: string, rec: LayerRecord, id: string)
    requires LayerDid(wk, opts, t, root, rec) && id in rec.created
    ensures id in t.nodes && LabelledAsMade(wk, t.nodes[id])
  {
    hide MadeFor, DrawnAs, Asked, QueueOk, IsThere, IsNext, LabelledAsMade, Accumulated;
    var queue :| Answered(wk, opts, t, root, rec, queue);
    var k :| k in queue && k in rec.chosen && MadeFor(wk, opts, t.nodes[id], k, queue[k], rec.chosen[k]);
    MadeForInText(wk, opts, t.nodes[id], k, queue[k], rec.chosen[k]);
  }

  ghost predicate LabelledAsMade(wk: Walker, n: Node) {
    && n.kind == Package && !n.direct
    && (if n.version != "" then
          && n.Attribute("depsnort.version_truth") == "presumed"
          && exists m: nat :: m > 0 && n.Attribute("depsnort.version_candidates") == Text.Decimal(m)
        else
          || (&& n.Attribute("depsnort.version_truth") in {"contested", "", "observed"}
              && n.Attribute("depsnort.version_candidates") == "")
          || PublishesEmpty(wk, n.ecosystem))
  }

  // Some package of the ecosystem has the empty text among its published versions.
  ghost predicate PublishesEmpty(wk: Walker, ecosystem: string) {
    && ecosystem in wk.declarers
    && var ix := IndexFor(wk, wk.declarers[ecosystem]);
       ix.Some? && exists name :: ix.value(ecosystem, name).Some? && "" in ix.value(ecosystem, name).value
  }

  lemma MadeForInText(wk: Walker, opts: Options, n: Node, k: NameKey, p: Pending, version: string)
    requires MadeFor(wk, opts, n, k, p, version)
    ensures LabelledAsMade(wk, n)
  {
    hide IsPresumedFor, Records, Occurs, IsText, NewChild, Evolved, CandidateText, LabelledAsMade;
    var truth, candidates, text :| MadeAs(wk, opts, n, k, p, version, truth, candidates, text);
    var (id, name) := wk.declarers[k.ecosystem].identify(k.canonical, version);
    var r :| IsPresumedFor(wk, opts, wk.declarers[k.ecosystem], k.ecosystem, k.canonical, p.constraints, r) &&
             Records(r, version, truth, candidates);
    RecordedInText(wk, opts, k, p.constraints, r, version, truth, candidates);
    ChildInText(wk, id, k.ecosystem, name, version, p.depth, truth, p.discoveredBy, text, candidates, n);
  }

  // What a presumption records: a version with a count, or none with a claim or without.
  lemma RecordedInText(wk: Walker, opts: Options, k: NameKey, constraints: seq<string>, r: Presumption, version: string,
                       truth: string, candidates: nat)
    requires k.ecosystem in wk.declarers && Records(r, version, truth, candidates)
    requires IsPresumedFor(wk, opts, wk.declarers[k.ecosystem], k.ecosystem, k.canonical, constraints, r)
    ensures version != "" ==> truth == "presumed" && candidates > 0
    ensures version == "" ==> PublishesEmpty(wk, k.ecosystem) || (truth in {"contested", ""} && candidates == 0)
  {
    if r.Chosen? {
      var pr := wk.declarers[k.ecosystem].presumer.value;
      var all := IndexFor(wk, wk.declarers[k.ecosystem]).value(k.ecosystem, k.canonical).value;
      FittingMembers(pr, constraints, all);
      assert r.version in Fitting(pr, constraints, all);
    }
  }

  lemma ChildInText(wk: Walker, id: string, ecosystem: string, name: string, version: string, depth: int, truth: string,
                    discoveredBy: string, text: string, candidates: nat, n: Node)
    requires Evolved(NewChild(id, ecosystem, name, version, false, depth, truth, discoveredBy, text,
                              CandidateText(candidates)), n)
    requires version != "" ==> truth == "presumed" && candidates > 0
    requires version == "" ==> PublishesEmpty(wk, ecosystem) || (truth in {"contested", ""} && candidates == 0)
    ensures LabelledAsMade(wk, n)
  {
    hide PublishesEmpty;
  }

  // A node that a resolver added is labelled asserted, and one whose dependencies it could not read says so.
  lemma ResolvedInText(wk: Walker, y: string, n: Node)
    requires IsResolved(wk, y, n)
    ensures n.Attribute("depsnort.version_truth") == "asserted"
  {
  }

  lemma HolesInText(wk: Walker, s: State, t: State, refs: seq<Coord>, id: string)
    requires HolesMarked(wk, s, t, refs) && id in s.nodes
    ensures Named(wk, refs, id) ==>
              && t.nodes[id].Attribute("depsnort.walk_frontier") == "true"
              && t.nodes[id].Attribute("depsnort.subtree_unread") == "transient-fetch-failure"
    ensures !Named(wk, refs, id) ==> t.nodes[id] == s.nodes[id]
  {
    hide Named;
  }

  // A coordinate of an unknown ecosystem is named in full.
  lemma UnreadInText(wk: Walker, c: Coord)
    requires c.ecosystem !in wk.declarers
    ensures UnreadId(wk, c) == "pkg:" + c.ecosystem + "/" + c.name + "@" + c.version
  {
  }

  // A newly marked node carries the mark under this name, whatever the reason.
  lemma MarksInText(n: Node)
    ensures ExpandLedger.Marked(n) <==> n.Attribute("depsnort.walk_frontier") != ""
  {
  }

  // The counters of discovered, presumed and contested nodes are the numbers of new nodes that no resolver
  // asserted, and of those with these labels.
  lemma LabelsAreCounted(wk: Walker, opts: Options, s: State, t: State, root: string, run: Run)
    requires Ran(wk, opts, s, t, root, run)
    ensures run.w.res.discovered ==
            |set id | id in t.nodes && id !in s.nodes && t.nodes[id].Attribute("depsnort.version_truth") != "asserted"|
    ensures run.w.res.presumed ==
            |set id | id in t.nodes && id !in s.nodes && t.nodes[id].Attribute("depsnort.version_truth") == "presumed"|
    ensures run.w.res.contested ==
            |set id | id in t.nodes && id !in s.nodes && t.nodes[id].Attribute("depsnort.version_truth") == "contested"|
  {
    hide Finished, InPhases, InSeed, ResolverDid, InLayers, InBound;
  }

  // The depth reached is that of some node, or zero, and no node the walk added lies deeper.
  lemma DepthIsReached(wk: Walker, opts: Options, s: State, t: State, root: string, run: Run)
    requires Ran(wk, opts, s, t, root, run)
    ensures run.w.res.depthReached == 0 ||
            exists id :: id in t.nodes && t.nodes[id].depth == run.w.res.depthReached > 0
    ensures forall id :: id in t.nodes && id !in s.nodes &&
                         t.nodes[id].Attribute("depsnort.version_truth") != "asserted" ==>
              t.nodes[id].depth <= run.w.res.depthReached
  {
    hide Finished, InPhases, InSeed, ResolverDid, InLayers, InBound;
    forall id | id in t.nodes && id !in s.nodes && t.nodes[id].Attribute("depsnort.version_truth") != "asserted"
      ensures id in NewOwn(s.nodes, t.nodes)
    {
    }
    hide NewOwn;
  }
}
