// What the transitive walk talks to, and how the graph may change while it runs.
module ExpandTypes {
  import opened Prelude
  import opened Findings
  import opened GraphTypes
  import opened Reach
  import opened GraphState
  import GraphLaws
  import opened Presume

  // ----- The seams: everything the walk asks of an ecosystem, an index or a resolver -----

  // One dependency a package declares, unresolved.
  datatype Declaration = Declaration(name: string, constraint: string, optional: bool)

  datatype Coord = Coord(ecosystem: string, name: string, version: string)

  // Published versions of (ecosystem, name); None when they could not be read.
  type VersionIndex = (string, string) -> Option<seq<string>>

  // identify turns a name and version into (identifier, canonical name).  declared answers a batch of
  // coordinates: None when the fetch failed, and a coordinate absent from the map was not read.
  datatype Declarer = Declarer(
    identify: (string, string) -> (string, string),
    declared: seq<Coord> -> Option<map<Coord, seq<Declaration>>>,
    presumer: Option<Presumer>,
    versions: Option<VersionIndex>)

  datatype ResolvedGraph = ResolvedGraph(nodes: seq<Coord>, edges: seq<(int, int)>)

  // Incomplete comes with a usable partial graph; Failed is any other error.
  datatype ResolveError = NoError | Incomplete(unread: seq<Coord>) | Failed

  datatype Resolution = Resolution(found: bool, graph: ResolvedGraph, error: ResolveError)

  datatype LocalRoot = LocalRoot(root: Coord, requires_: seq<Coord>, attr: map<string, string>)

  datatype Resolver = Resolver(
    nameFor: string -> string,
    resolve: Coord -> Resolution,
    localRoot: Option<LocalRoot -> Resolution>)

  datatype Walker = Walker(declarers: map<string, Declarer>, index: Option<VersionIndex>)

  datatype Options = Options(maxDepth: int, includeOptional: bool, noPresume: bool, resolver: Option<Resolver>)

  datatype Result = Result(
    discovered: nat,
    presumed: nat,
    asserted: nat,
    contested: nat,
    linked: nat,
    frontier: nat,
    unread: nat,
    depthReached: int,
    depthTruncated: nat)

  // A package by ecosystem and canonical name, whatever its version.
  datatype NameKey = NameKey(ecosystem: string, canonical: string)

  // The walk's working state beside the graph; nodes are held by identifier.
  datatype Walk = Walk(
    byName: map<NameKey, string>,
    inSubtree: set<string>,
    expanded: set<string>,
    frontier: seq<string>,
    res: Result)

  const DEPENDS: set<EdgeType> := {DependsOn}

  const TRUE := "true"

  function IndexFor(wk: Walker, d: Declarer): Option<VersionIndex> {
    if d.versions.Some? then d.versions else wk.index
  }

  function CoordOf(n: Node): Coord {
    Coord(n.ecosystem, n.name, n.version)
  }

  predicate Included(opts: Options, decl: Declaration) {
    !decl.optional || opts.includeOptional
  }

  // Declared by a node of this ecosystem, d is included and names k.
  predicate Names(wk: Walker, opts: Options, ecosystem: string, d: Declaration, k: NameKey) {
    && k.ecosystem == ecosystem && ecosystem in wk.declarers && k.canonical != ""
    && Included(opts, d) && wk.declarers[ecosystem].identify(d.name, "").1 == k.canonical
  }

  // ----- How nodes may change -----

  // An existing node keeps every fact about it.  Only walk marks may be added, marks are never
  // cleared, and an absent truth label may be spelled out.
  ghost predicate Evolved(m: Node, n: Node) {
    && n.id == m.id && n.kind == m.kind && n.ecosystem == m.ecosystem && n.name == m.name && n.version == m.version
    && n.direct == m.direct && n.depth == m.depth && n.risk == m.risk && n.findings == m.findings
    && n.VersionTruth() == m.VersionTruth()
    && (m.Attribute(ATTR_VERSION_TRUTH) != "" ==> n.Attribute(ATTR_VERSION_TRUTH) == m.Attribute(ATTR_VERSION_TRUTH))
    && (m.Attribute(ATTR_FRONTIER) != "" ==> n.Attribute(ATTR_FRONTIER) != "")
    && (forall k :: k != ATTR_VERSION_TRUTH && k != ATTR_FRONTIER && k != ATTR_SUBTREE_UNREAD ==>
       n.Attribute(k) == m.Attribute(k))
  }

  // A node the walk may create: a package, and one whose version, if it has one, is labelled as not
  // observed.
  ghost predicate GoodNew(n: Node) {
    n.kind == Package && (n.version != "" ==> n.Presumed())
  }

  ghost predicate NodesEvolve(a: map<string, Node>, b: map<string, Node>) {
    && a.Keys <= b.Keys
    && (forall id :: id in a ==> Evolved(a[id], b[id]))
    && (forall id :: id in b && id !in a ==> GoodNew(b[id]))
  }

  // Edges are only added, and only declared ones.
  ghost predicate EdgesEvolve(es: seq<Edge>, fs: seq<Edge>) {
    && (forall e :: e in es ==> e in fs)
    && (forall e :: e in fs && e !in es ==> e.kind == DependsOn)
  }

  ghost predicate Evolves(s: State, t: State) {
    t.roots == s.roots && NodesEvolve(s.nodes, t.nodes) && EdgesEvolve(s.edges, t.edges)
  }

  // A consistent graph whose identifiers can be told apart in the edge index.
  ghost predicate Sound(s: State) {
    Consistent(s) && forall id :: id in s.nodes ==> NulFree(id)
  }

  lemma EvolvedTransitive(a: Node, b: Node, c: Node)
    requires Evolved(a, b) && Evolved(b, c)
    ensures Evolved(a, c)
  {
  }

  lemma GoodNewStays(a: Node, b: Node)
    requires GoodNew(a) && Evolved(a, b)
    ensures GoodNew(b)
  {
  }

  lemma NodesEvolveTransitive(a: map<string, Node>, b: map<string, Node>, c: map<string, Node>)
    requires NodesEvolve(a, b) && NodesEvolve(b, c)
    ensures NodesEvolve(a, c)
  {
    hide Evolved, GoodNew;
    forall id | id in a
      ensures Evolved(a[id], c[id])
    {
      EvolvedTransitive(a[id], b[id], c[id]);
    }
    forall id | id in c && id !in a
      ensures GoodNew(c[id])
    {
      if id in b {
        GoodNewStays(b[id], c[id]);
      }
    }
  }

  lemma EvolvesSelf(s: State)
    ensures Evolves(s, s)
  {
  }

  lemma EvolvesTransitive(s: State, t: State, u: State)
    requires Evolves(s, t) && Evolves(t, u)
    ensures Evolves(s, u)
  {
    NodesEvolveTransitive(s.nodes, t.nodes, u.nodes);
    hide NodesEvolve;
  }

  // ----- The three ways the walk changes the graph -----

  lemma LinkEvolves(s: State, x: string, y: string)
    requires Sound(s) && NulFree(x) && NulFree(y)
    ensures var e := Edge(x, y, DependsOn);
            var t := AddEdge(s, e);
            && Sound(t) && Evolves(s, t) && t.nodes == s.nodes && t.order == s.order
            && e in t.edges && forall f :: f in t.edges ==> f in s.edges || f == e
  {
    hide EdgeKey, Evolved;
    var e := Edge(x, y, DependsOn);
    GraphLaws.AddEdgeKeeps(s, e);
    forall id | id in s.nodes
      ensures Evolved(s.nodes[id], s.nodes[id])
    {
      SameNodeEvolved(s.nodes[id]);
    }
    if EdgeKey(e) in s.edgeSeen {
      var f :| f in s.edges && EdgeKey(f) == EdgeKey(e);
      EdgeKeyIdentifies(e, f);
    }
  }

  lemma SameNodeEvolved(n: Node)
    ensures Evolved(n, n)
  {
  }

  lemma InsertEvolves(s: State, n: Node)
    requires Sound(s) && NulFree(n.id) && n.id !in s.nodes && GoodNew(n) && Defaulted(n) == n
    ensures var t := AddNode(s, n);
            && Sound(t) && Evolves(s, t) && t.edges == s.edges
            && t.nodes == s.nodes[n.id := n] && t.order == s.order + [n.id] && |t.nodes| == |s.nodes| + 1
  {
    hide EdgeKey, Evolved, GoodNew, Consistent;
    GraphLaws.AddNodeKeeps(s, n);
    forall id | id in s.nodes
      ensures Evolved(s.nodes[id], s.nodes[id])
    {
      SameNodeEvolved(s.nodes[id]);
    }
  }

  // The state with one attribute of one node set.
  function WithAttr(s: State, id: string, key: string, value: string): State
    requires id in s.nodes
  {
    s.(nodes := s.nodes[id := s.nodes[id].WithAttribute(key, value)])
  }

  lemma MarkEvolves(s: State, id: string, key: string, value: string)
    requires Sound(s) && id in s.nodes && Evolved(s.nodes[id], s.nodes[id].WithAttribute(key, value))
    ensures var t := WithAttr(s, id, key, value);
            && Sound(t) && Evolves(s, t) && t.edges == s.edges && t.order == s.order
  {
    hide EdgeKey, Evolved, GoodNew, Indexed;
    var t := WithAttr(s, id, key, value);
    forall x | x in s.nodes
      ensures Evolved(s.nodes[x], t.nodes[x])
    {
      if x != id {
        SameNodeEvolved(s.nodes[x]);
      }
    }
    assert t.nodes.Keys == s.nodes.Keys;
    IndexedByEdges(s, t);
  }

  lemma IndexedByEdges(s: State, t: State)
    requires Indexed(s) && t.edges == s.edges && t.edgeSeen == s.edgeSeen
    ensures Indexed(t)
  {
  }

  // Walk marks and the spelled-out default leave a node's facts alone.
  lemma MarksEvolve(n: Node, key: string, value: string)
    requires (key == ATTR_FRONTIER && value != "") || key == ATTR_SUBTREE_UNREAD
             || (key == ATTR_VERSION_TRUTH && value == TRUTH_OBSERVED && n.Attribute(key) == "")
    ensures Evolved(n, n.WithAttribute(key, value))
    ensures key == ATTR_FRONTIER ==> n.WithAttribute(key, value).Attribute(key) != ""
  {
  }
}
