// Regions: parts of the graph that one root's walk cannot leave, told before it starts.
module ExpandRegion {
  import opened Prelude
  import opened GraphTypes
  import opened Reach
  import opened GraphState
  import opened DeclaredDeps
  import opened ExpandTypes

  // A manifest entry as a declaration: never optional.
  function AsDeclaration(dd: DeclaredDep): Declaration {
    Declaration(dd.name, dd.constraint, false)
  }

  // What the root's manifest declared and no lockfile pinned.
  function RootDeclares(n: Node): seq<DeclaredDep> {
    Decoded(n.Attribute(ATTR_DECLARED_DEPS))
  }

  // Identifiers, and the coordinates that may be asked about there.
  datatype Region = Region(ids: iset<string>, coords: iset<Coord>)

  // Declared edges do not leave the region, and its nodes have its coordinates.
  ghost predicate ClosedIn(s: State, p: Region) {
    && (forall x, y :: x in p.ids && Hop(s.edges, DEPENDS, x, y) ==> y in p.ids)
    && (forall x :: x in p.ids && x in s.nodes ==> CoordOf(s.nodes[x]) in p.coords)
  }

  // A version that may be presumed for k: a published one, or none.
  predicate Offers(wk: Walker, k: NameKey, v: string)
    requires k.ecosystem in wk.declarers
  {
    var ix := IndexFor(wk, wk.declarers[k.ecosystem]);
    v == "" || (ix.Some? && ix.value(k.ecosystem, k.canonical).Some? && v in ix.value(k.ecosystem, k.canonical).value)
  }

  // Whichever version is presumed for k, its node is of the region.
  ghost predicate Covers(wk: Walker, p: Region, k: NameKey) {
    k.ecosystem in wk.declarers ==> forall v :: Offers(wk, k, v) ==> HoldsVersion(wk, p, k, v)
  }

  ghost predicate HoldsVersion(wk: Walker, p: Region, k: NameKey, v: string)
    requires k.ecosystem in wk.declarers
  {
    var (id, name) := wk.declarers[k.ecosystem].identify(k.canonical, v);
    id != "" ==> id in p.ids && Coord(k.ecosystem, name, v) in p.coords
  }

  // Some answer for c holds d.
  ghost predicate Declares(wk: Walker, c: Coord, d: Declaration) {
    c.ecosystem in wk.declarers && exists batch :: DeclaredIn(wk.declarers[c.ecosystem], batch, c, d)
  }

  predicate DeclaredIn(dr: Declarer, batch: seq<Coord>, c: Coord, d: Declaration) {
    c in batch && dr.declared(batch).Some? && c in dr.declared(batch).value && d in dr.declared(batch).value[c]
  }

  // The region holds the root's tree, and covers all that the root's manifest or a coordinate of the
  // region declares.
  ghost predicate Encloses(wk: Walker, opts: Options, s: State, root: string, p: Region) {
    && root in p.ids && ClosedIn(s, p)
    && (root in s.nodes ==>
          forall dd, k ::
            dd in RootDeclares(s.nodes[root]) && Names(wk, opts, s.nodes[root].ecosystem, AsDeclaration(dd), k) ==>
              Covers(wk, p, k))
    && (forall c, d, k :: c in p.coords && Declares(wk, c, d) && Names(wk, opts, c.ecosystem, d, k) ==>
          Covers(wk, p, k))
  }

  // ----- What belongs to every enclosing region -----

  // k may be asked for: its versions belong to every region that encloses the walk.  Like all of these,
  // this is about walks without a resolver.
  ghost predicate MayAsk(wk: Walker, opts: Options, before: State, root: string, k: NameKey) {
    opts.resolver.None? ==> forall p :: Encloses(wk, opts, before, root, p) ==> Covers(wk, p, k)
  }

  ghost predicate IsPart(wk: Walker, opts: Options, before: State, root: string, y: string) {
    opts.resolver.None? ==> forall p :: Encloses(wk, opts, before, root, p) ==> y in p.ids
  }

  ghost predicate Belongs(wk: Walker, opts: Options, before: State, root: string, n: Node) {
    opts.resolver.None? ==> forall p :: Encloses(wk, opts, before, root, p) ==> n.id in p.ids && CoordOf(n) in p.coords
  }

  // No step from s to t breaks out of an enclosing region.
  ghost predicate Confines(wk: Walker, opts: Options, before: State, root: string, s: State, t: State) {
    opts.resolver.None? ==> forall p :: Encloses(wk, opts, before, root, p) && ClosedIn(s, p) ==> ClosedIn(t, p)
  }

  lemma ConfinesTransitive(wk: Walker, opts: Options, before: State, root: string, s: State, t: State, u: State)
    requires Confines(wk, opts, before, root, s, t) && Confines(wk, opts, before, root, t, u)
    ensures Confines(wk, opts, before, root, s, u)
  {
    hide Encloses, ClosedIn;
  }

  // Nodes that keep their coordinates, and no new edges.
  lemma ConfinesEvolution(wk: Walker, opts: Options, before: State, root: string, s: State, t: State)
    requires NodesEvolve(s.nodes, t.nodes) && t.nodes.Keys == s.nodes.Keys && t.edges == s.edges
    ensures Confines(wk, opts, before, root, s, t)
  {
    hide Encloses, Evolved, Hop;
    forall x | x in s.nodes
      ensures CoordOf(t.nodes[x]) == CoordOf(s.nodes[x])
    {
      EvolvedCoord(s.nodes[x], t.nodes[x]);
    }
    hide CoordOf;
  }

  lemma EvolvedCoord(m: Node, n: Node)
    requires Evolved(m, n)
    ensures CoordOf(n) == CoordOf(m)
  {
  }

  // A node that belongs.
  lemma ConfinesNode(wk: Walker, opts: Options, before: State, root: string, s: State, t: State, n: Node)
    requires Belongs(wk, opts, before, root, n) && t.nodes == s.nodes[n.id := n] && t.edges == s.edges
    ensures Confines(wk, opts, before, root, s, t)
  {
    hide Encloses, Hop, CoordOf;
  }

  // An edge to a node that the root reaches, or to one that belongs.
  lemma ConfinesLink(wk: Walker, opts: Options, before: State, root: string, s: State, t: State, x: string, y: string)
    requires t.nodes == s.nodes && forall f :: f in t.edges ==> f in s.edges || f == Edge(x, y, DependsOn)
    requires Reaches(s.edges, DEPENDS, root, y) || IsPart(wk, opts, before, root, y)
    ensures Confines(wk, opts, before, root, s, t)
  {
    if opts.resolver.None? {
      forall p | Encloses(wk, opts, before, root, p) && ClosedIn(s, p)
        ensures ClosedIn(t, p)
      {
        LinkStaysClosed(wk, opts, before, root, s, t, x, y, p);
      }
    }
  }

  lemma LinkStaysClosed(wk: Walker, opts: Options, before: State, root: string, s: State, t: State, x: string,
                        y: string, p: Region)
    requires t.nodes == s.nodes && forall f :: f in t.edges ==> f in s.edges || f == Edge(x, y, DependsOn)
    requires Reaches(s.edges, DEPENDS, root, y) || (IsPart(wk, opts, before, root, y) && opts.resolver.None?)
    requires Encloses(wk, opts, before, root, p) && ClosedIn(s, p)
    ensures ClosedIn(t, p)
  {
    hide Encloses, Reaches, CoordOf;
    RootIsIn(wk, opts, before, root, p);
    if Reaches(s.edges, DEPENDS, root, y) {
      StaysInRegion(s, p, root, y);
    }
    forall u, v | u in p.ids && Hop(t.edges, DEPENDS, u, v)
      ensures v in p.ids
    {
      var k :| k in DEPENDS && Edge(u, v, k) in t.edges;
      if v != y {
        assert Edge(u, v, k) in s.edges;
        assert Hop(s.edges, DEPENDS, u, v);
      }
    }
  }

  lemma RootIsIn(wk: Walker, opts: Options, s: State, root: string, p: Region)
    requires Encloses(wk, opts, s, root, p)
    ensures root in p.ids && ClosedIn(s, p)
  {
    hide ClosedIn, Covers, Declares, Names;
  }

  // What a member of a closed region reaches is a member.
  lemma StaysInRegion(s: State, p: Region, x: string, y: string)
    requires ClosedIn(s, p) && x in p.ids && Reaches(s.edges, DEPENDS, x, y)
    ensures y in p.ids
  {
    var q :| PathBetween(s.edges, DEPENDS, q, x, y);
    StaysAlong(s, p, q, |q| - 1);
  }

  lemma {:induction false} StaysAlong(s: State, p: Region, q: seq<string>, n: nat)
    requires ClosedIn(s, p) && IsPath(s.edges, DEPENDS, q) && q[0] in p.ids && n < |q|
    ensures q[n] in p.ids
    decreases n
  {
    hide Hop, CoordOf;
    if n > 0 {
      StaysAlong(s, p, q, n - 1);
      assert Hop(s.edges, DEPENDS, q[n - 1], q[n - 1 + 1]);
    }
  }

  // What the manifest declares may be asked for.
  lemma ManifestMayAsk(wk: Walker, opts: Options, before: State, root: string, dd: DeclaredDep, k: NameKey)
    requires root in before.nodes && dd in RootDeclares(before.nodes[root])
    requires Names(wk, opts, before.nodes[root].ecosystem, AsDeclaration(dd), k)
    ensures MayAsk(wk, opts, before, root, k)
  {
    hide ClosedIn, Covers, Declares, Names, RootDeclares;
  }

  // What a node below the root declares may be asked for.
  lemma DeclaredMayAsk(wk: Walker, opts: Options, before: State, root: string, s: State, x: string, d: Declaration,
                       k: NameKey)
    requires Confines(wk, opts, before, root, before, s) && x in s.nodes && Reaches(s.edges, DEPENDS, root, x)
    requires Declares(wk, CoordOf(s.nodes[x]), d) && Names(wk, opts, s.nodes[x].ecosystem, d, k)
    ensures MayAsk(wk, opts, before, root, k)
  {
    if opts.resolver.None? {
      forall p | Encloses(wk, opts, before, root, p)
        ensures Covers(wk, p, k)
      {
        DeclaredIsCovered(wk, opts, before, root, s, x, d, k, p);
      }
    }
  }

  lemma DeclaredIsCovered(wk: Walker, opts: Options, before: State, root: string, s: State, x: string, d: Declaration,
                          k: NameKey, p: Region)
    requires Confines(wk, opts, before, root, before, s) && x in s.nodes && Reaches(s.edges, DEPENDS, root, x)
    requires Declares(wk, CoordOf(s.nodes[x]), d) && Names(wk, opts, s.nodes[x].ecosystem, d, k)
    requires opts.resolver.None? && Encloses(wk, opts, before, root, p)
    ensures Covers(wk, p, k)
  {
    hide Covers, Declares, Names, Reaches, Hop, RootDeclares;
    assert ClosedIn(s, p);
    StaysInRegion(s, p, root, x);
    assert CoordOf(s.nodes[x]).ecosystem == s.nodes[x].ecosystem;
  }

  lemma BelongingIsPart(wk: Walker, opts: Options, before: State, root: string, n: Node)
    requires Belongs(wk, opts, before, root, n)
    ensures IsPart(wk, opts, before, root, n.id)
  {
    hide Encloses, CoordOf;
  }

  // The node of an offered version belongs.
  lemma OfferedBelongs(wk: Walker, opts: Options, before: State, root: string, k: NameKey, v: string, n: Node)
    requires MayAsk(wk, opts, before, root, k) && k.ecosystem in wk.declarers && Offers(wk, k, v)
    requires var (id, name) := wk.declarers[k.ecosystem].identify(k.canonical, v);
             id != "" && n.id == id && CoordOf(n) == Coord(k.ecosystem, name, v)
    ensures Belongs(wk, opts, before, root, n)
  {
    hide Encloses, Offers;
    if opts.resolver.None? {
      forall p | Encloses(wk, opts, before, root, p)
        ensures n.id in p.ids && CoordOf(n) in p.coords
      {
        assert HoldsVersion(wk, p, k, v);
      }
    }
  }
}
