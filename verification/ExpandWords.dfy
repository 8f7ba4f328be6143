// What the walk asks for, chooses and merges, in the words of its seams. Declarations ask for packages by
// name, optional ones only where they are wanted; versions are chosen from what is published, in the
// installer's direction, for all constraints at once; coordinates that a resolver names are merged under the
// identity their ecosystem gives them.
module ExpandWords {
  import opened Prelude
  import opened GraphTypes
  import opened GraphState
  import opened DeclaredDeps
  import opened Presume
  import Presumers
  import opened ExpandTypes
  import opened ExpandRegion
  import opened ExpandLedger
  import opened ExpandSteps
  import opened ExpandChoices
  import opened ExpandSeed
  import opened ExpandLayers
  import opened ExpandCreate
  import opened ExpandAsserted
  import opened ExpandLog
  import opened ResolvedDepths
  import opened Expand
  import opened ExpandTheorems

  // A declaration counts when it is not optional, or optional ones are wanted, and its name is known to the
  // ecosystem of the node that makes it; it asks for the package of that name, whatever its version.
  ghost predicate Counts(wk: Walker, opts: Options, ecosystem: string, d: Declaration, canonical: string) {
    && (d.optional ==> opts.includeOptional) && ecosystem in wk.declarers && canonical != ""
    && wk.declarers[ecosystem].identify(d.name, "").1 == canonical
  }

  lemma CountsExactly(wk: Walker, opts: Options, ecosystem: string, d: Declaration, canonical: string)
    ensures Names(wk, opts, ecosystem, d, NameKey(ecosystem, canonical)) <==>
              Counts(wk, opts, ecosystem, d, canonical)
  {
  }

  // What a layer is asked for.
  lemma AskedInWords(wk: Walker, opts: Options, layer: Layer, ecosystem: string, canonical: string, x: string,
                     c: string)
    ensures Asked(wk, opts, layer, NameKey(ecosystem, canonical), x, c) <==>
              exists d :: (x, ecosystem, d) in layer && d.constraint == c && Counts(wk, opts, ecosystem, d, canonical)
  {
    var k := NameKey(ecosystem, canonical);
    forall d
      ensures Names(wk, opts, ecosystem, d, k) <==> Counts(wk, opts, ecosystem, d, canonical)
    {
      CountsExactly(wk, opts, ecosystem, d, canonical);
    }
    forall e, d | Names(wk, opts, e, d, k)
      ensures e == ecosystem
    {
    }
    hide Names, Counts;
  }

  // y is a node for this package: identified from its name in some version, or so named itself.
  ghost predicate StandsFor(wk: Walker, nodes: map<string, Node>, ecosystem: string, canonical: string, y: string)
    requires ecosystem in wk.declarers
  {
    && y in nodes
    && ((exists v :: wk.declarers[ecosystem].identify(canonical, v).0 == y) ||
        (nodes[y].ecosystem == ecosystem &&
         wk.declarers[ecosystem].identify(nodes[y].name, nodes[y].version).1 == canonical))
  }

  // A node that was read depends on a node for every declaration that counts, if its package is identified
  // in whatever version.
  lemma DeclaredInWords(wk: Walker, opts: Options, s: State, t: State, root: string, run: Run, x: string)
    requires Ran(wk, opts, s, t, root, run) && x in run.tr.read
    ensures x in t.nodes && t.nodes[x].ecosystem in wk.declarers
    ensures exists batch: seq<Coord>, ds: seq<Declaration> ::
              && AnswersWith(wk.declarers[t.nodes[x].ecosystem], batch, t.nodes[x], ds)
              && forall d, canonical ::
                   d in ds && Counts(wk, opts, t.nodes[x].ecosystem, d, canonical) &&
                   (forall v :: wk.declarers[t.nodes[x].ecosystem].identify(canonical, v).0 != "") ==>
                     exists y :: Edge(x, y, DependsOn) in t.edges &&
                                 StandsFor(wk, t.nodes, t.nodes[x].ecosystem, canonical, y)
  {
    hide Finished, InPhases, InSeed, ResolverDid, InLayers, InBound;
    NothingDeclaredIsLost(wk, opts, s, t, run.w, run.tr, x);
    hide Ran, Owes, Linked, Counts, StandsFor;
    var e, c := t.nodes[x].ecosystem, CoordOf(t.nodes[x]);
    var batch: seq<Coord> :|
      && c in batch && wk.declarers[e].declared(batch).Some? && c in wk.declarers[e].declared(batch).value
      && (forall d, k :: d in wk.declarers[e].declared(batch).value[c] && Owes(wk, opts, e, d, k) ==>
         Linked(wk, t, x, k));
    var ds := wk.declarers[e].declared(batch).value[c];
    assert AnswersWith(wk.declarers[e], batch, t.nodes[x], ds);
    forall d, canonical | d in ds && Counts(wk, opts, e, d, canonical) &&
                          forall v :: wk.declarers[e].identify(canonical, v).0 != ""
      ensures exists y :: Edge(x, y, DependsOn) in t.edges && StandsFor(wk, t.nodes, e, canonical, y)
    {
      OwedInWords(wk, opts, t, x, e, d, canonical);
    }
  }

  // The ecosystem's answer to this batch gives these declarations for n.
  ghost predicate AnswersWith(d: Declarer, batch: seq<Coord>, n: Node, ds: seq<Declaration>) {
    var c := Coord(n.ecosystem, n.name, n.version);
    c in batch && d.declared(batch).Some? && c in d.declared(batch).value && d.declared(batch).value[c] == ds
  }

  lemma OwedInWords(wk: Walker, opts: Options, t: State, x: string, e: string, d: Declaration, canonical: string)
    requires Counts(wk, opts, e, d, canonical) && forall v :: wk.declarers[e].identify(canonical, v).0 != ""
    requires Owes(wk, opts, e, d, NameKey(e, canonical)) ==> Linked(wk, t, x, NameKey(e, canonical))
    ensures exists y :: Edge(x, y, DependsOn) in t.edges && StandsFor(wk, t.nodes, e, canonical, y)
  {
    CountsExactly(wk, opts, e, d, canonical);
    var y :| Edge(x, y, DependsOn) in t.edges && Answers(wk, t.nodes, NameKey(e, canonical), y);
    assert StandsFor(wk, t.nodes, e, canonical, y);
  }

  // ----- Choices -----

  // The published versions of a package, from its ecosystem's own index where there is one, else from the
  // walk's.
  ghost predicate ArePublished(wk: Walker, ecosystem: string, canonical: string, published: seq<string>)
    requires ecosystem in wk.declarers
  {
    var d := wk.declarers[ecosystem];
    if d.versions.Some? then d.versions.value(ecosystem, canonical) == Some(published)
    else wk.index.Some? && wk.index.value(ecosystem, canonical) == Some(published)
  }

  // A version is chosen only where presuming is allowed, from what is published: it meets all constraints,
  // and none that does lies further in the ecosystem's direction.
  lemma ChosenInWords(wk: Walker, opts: Options, ecosystem: string, canonical: string, constraints: seq<string>,
                      version: string)
    requires IsChoice(wk, opts, NameKey(ecosystem, canonical), constraints, version) && version != ""
    ensures ecosystem in wk.declarers && !opts.noPresume && wk.declarers[ecosystem].presumer.Some?
    ensures exists published ::
              && ArePublished(wk, ecosystem, canonical, published) && version in published
              && IsFurthest(wk.declarers[ecosystem].presumer.value, published, constraints, version)
  {
    hide IsPresumption;
    var d, k := wk.declarers[ecosystem], NameKey(ecosystem, canonical);
    var r, truth, candidates :| IsPresumedFor(wk, opts, d, ecosystem, canonical, constraints, r) &&
                                Records(r, version, truth, candidates);
    var pr, published := d.presumer.value, IndexFor(wk, d).value(ecosystem, canonical).value;
    assert ArePublished(wk, ecosystem, canonical, published);
    ChosenIsFurthest(pr, published, constraints, version, candidates);
  }

  ghost predicate IsFurthest(pr: Presumer, published: seq<string>, constraints: seq<string>, v: string) {
    && (forall c :: c in constraints ==> pr.satisfies(c, v) == (true, true))
    && (TotalPreorder(pr.compare) ==>
          forall u :: u in published && (forall c :: c in constraints ==> pr.satisfies(c, u) == (true, true)) ==>
            if pr.lowest then pr.compare(v, u) <= 0 else pr.compare(v, u) >= 0)
  }

  lemma ChosenIsFurthest(pr: Presumer, published: seq<string>, constraints: seq<string>, v: string, n: nat)
    requires IsPresumption(pr, published, constraints, Chosen(v, n))
    ensures v in published && IsFurthest(pr, published, constraints, v)
  {
    FittingMeetsAll(pr, constraints, v);
    if TotalPreorder(pr.compare) {
      Presumers.PresumedExactly(pr, published, constraints, Chosen(v, n));
    }
    hide TotalPreorder;
  }

  // None is chosen where presuming is not allowed or there is nothing to presume from, where the package is
  // contested, or where the empty text is published.
  lemma NotChosenInWords(wk: Walker, opts: Options, ecosystem: string, canonical: string, constraints: seq<string>)
    requires IsChoice(wk, opts, NameKey(ecosystem, canonical), constraints, "")
    ensures ecosystem in wk.declarers
    ensures || opts.noPresume || wk.declarers[ecosystem].presumer.None?
            || (forall published :: ArePublished(wk, ecosystem, canonical, published) ==>
                  published == [] || "" in published ||
                  IsContested(wk.declarers[ecosystem].presumer.value, published, constraints))
  {
    hide Judge, Fitting, Presumers.StopsAt;
    var d := wk.declarers[ecosystem];
    var r, truth, candidates :| IsPresumedFor(wk, opts, d, ecosystem, canonical, constraints, r) &&
                                Records(r, "", truth, candidates);
    if !opts.noPresume && d.presumer.Some? {
      forall published | ArePublished(wk, ecosystem, canonical, published) && published != [] && "" !in published
        ensures IsContested(d.presumer.value, published, constraints)
      {
        ContestedInWords(d.presumer.value, published, constraints, r);
      }
    }
  }

  // Reading the constraints stops at one that cannot be evaluated, or no published version meets all.
  ghost predicate IsContested(pr: Presumer, published: seq<string>, constraints: seq<string>) {
    || (exists u, i: nat :: u in published && Presumers.StopsAt(pr, constraints, u, i))
    || (forall u :: u in published ==> exists c :: c in constraints && pr.satisfies(c, u) != (true, true))
  }

  lemma ContestedInWords(pr: Presumer, published: seq<string>, constraints: seq<string>, r: Presumption)
    requires IsPresumption(pr, published, constraints, r)
    ensures r.Contested? <==> published != [] && IsContested(pr, published, constraints)
  {
    forall u
      ensures Judge(pr, constraints, u) == Unevaluable <==> exists i: nat :: Presumers.StopsAt(pr, constraints, u, i)
      ensures Judge(pr, constraints, u) == Fits <==>
                forall c :: c in constraints ==> pr.satisfies(c, u) == (true, true)
    {
      Presumers.UnevaluableExactly(pr, constraints, u);
      FittingMeetsAll(pr, constraints, u);
    }
    FittingMembers(pr, constraints, published);
    if Fitting(pr, constraints, published) != [] {
      assert Fitting(pr, constraints, published)[0] in Fitting(pr, constraints, published);
    }
    hide Judge, Fitting, Presumers.StopsAt;
  }

  // A package made without a version is labelled contested exactly when versions are published and it is, for
  // the constraints gathered; otherwise it makes no claim.
  lemma ContestedLabel(wk: Walker, opts: Options, n: Node, k: NameKey, p: Pending)
    requires MadeFor(wk, opts, n, k, p, "")
    ensures n.Attribute("depsnort.version_truth") == "contested" <==>
              && !opts.noPresume && k.ecosystem in wk.declarers && wk.declarers[k.ecosystem].presumer.Some?
              && exists published ::
                   && ArePublished(wk, k.ecosystem, k.canonical, published) && published != []
                   && IsContested(wk.declarers[k.ecosystem].presumer.value, published, p.constraints)
  {
    hide Occurs, IsText, Evolved, NewChild, CandidateText, IsPresumption, IsContested;
    var truth, candidates, text :| MadeAs(wk, opts, n, k, p, "", truth, candidates, text);
    var d := wk.declarers[k.ecosystem];
    var (id, name) := d.identify(k.canonical, "");
    var r :| IsPresumedFor(wk, opts, d, k.ecosystem, k.canonical, p.constraints, r) &&
        Records(r, "", truth, candidates);
    TruthIsKept(id, k.ecosystem, name, p.depth, truth, p.discoveredBy, text, CandidateText(candidates), n);
    if !opts.noPresume && d.presumer.Some? && IndexFor(wk, d).Some? &&
        IndexFor(wk, d).value(k.ecosystem, k.canonical).Some? {
      var all := IndexFor(wk, d).value(k.ecosystem, k.canonical).value;
      assert ArePublished(wk, k.ecosystem, k.canonical, all);
      assert forall published :: ArePublished(wk, k.ecosystem, k.canonical, published) ==> published == all;
      ContestedInWords(d.presumer.value, all, p.constraints, r);
    }
  }

  lemma TruthIsKept(id: string, ecosystem: string, name: string, depth: int, truth: string, discoveredBy: string,
                    text: string, candidates: string, n: Node)
    requires Evolved(NewChild(id, ecosystem, name, "", false, depth, truth, discoveredBy, text, candidates), n)
    ensures n.Attribute("depsnort.version_truth") == "contested" <==> truth == "contested"
  {
  }

  // A version is seeded only for a package that an entry of the manifest names, from that entry's own
  // constraint, if it has one.
  lemma SeededInWords(wk: Walker, opts: Options, s: State, t: State, root: string, run: Run, k: NameKey)
    requires Ran(wk, opts, s, t, root, run) && k in run.seed.chosen
    ensures root in s.nodes && k.ecosystem == s.nodes[root].ecosystem && k.ecosystem in wk.declarers
    ensures exists dd ::
              && dd in Decoded(s.nodes[root].Attribute("depsnort.declared_deps"))
              && k.canonical != "" && k.canonical == wk.declarers[k.ecosystem].identify(dd.name, "").1
              && IsChoice(wk, opts, k, if dd.constraint == "" then [] else [dd.constraint], run.seed.chosen[k])
  {
    hide Finished, InPhases, ResolverDid, InLayers, InBound, IsChoice, Decoded, Pinned, AreNames, IsNext, IsThere;
    assert ManifestLeads(wk, opts, s.nodes[root], k, run.seed.chosen[k]);
  }

  // The constraints recorded on a node are listed with a comma and a blank between.
  lemma SpelledInText(parts: seq<string>, c: string)
    ensures Spelled([]) == "" && Spelled([c]) == c
    ensures parts != [] ==> Spelled(parts + [c]) == Spelled(parts) + ", " + c
  {
    SpelledMore(parts, c);
  }

  // ----- Merging -----

  // A resolved coordinate is merged under the identity its ecosystem gives it, or its plain one in an
  // ecosystem that is not known; without a name or a version it is not.
  lemma MergedIdInWords(wk: Walker, ecosystem: string, name: string, version: string)
    ensures name == "" || version == "" ==> MergedId(wk, Coord(ecosystem, name, version)) == ""
    ensures name != "" && version != "" && ecosystem in wk.declarers ==>
              MergedId(wk, Coord(ecosystem, name, version)) == wk.declarers[ecosystem].identify(name, version).0
    ensures name != "" && version != "" && ecosystem !in wk.declarers ==>
              MergedId(wk, Coord(ecosystem, name, version)) == "pkg:" + ecosystem + "/" + name + "@" + version
  {
  }

  // What an answer adds is a package at a resolved coordinate other than the queried one, no direct
  // dependency, labelled as asserted, and by whom where that has a name.
  lemma MergedInWords(wk: Walker, s: State, t: State, rg: ResolvedGraph, rootDepth: int, assertedBy: string, y: string)
    requires Merged(wk, s, t, rg, rootDepth, assertedBy) && y in t.nodes && y !in s.nodes
    ensures var n := t.nodes[y];
            && n.kind == Package && !n.direct && n.Attribute("depsnort.version_truth") == "asserted"
            && n.Attribute("depsnort.asserted_by") == assertedBy
            && exists j :: 0 < j < |rg.nodes| && rg.nodes[j] == Coord(n.ecosystem, n.name, n.version)
  {
    hide MergedId, MergedEdges;
    var j: nat :| j < |rg.nodes| && MergedAs(wk, rg, rootDepth, assertedBy, y, t.nodes[y], j);
    hide IsDepth;
  }
}
