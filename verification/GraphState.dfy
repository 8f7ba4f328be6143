// The graph as a value, with every mutation as a function from state to state.
module GraphState {
  import opened Findings
  import opened GraphTypes
  import opened Sorting

  datatype State = State(
    nodes: map<string, Node>,
    edges: seq<Edge>,
    roots: seq<string>,
    order: seq<string>,
    edgeSeen: set<string>)

  const EMPTY := State(map[], [], [], [], {})

  // ----- The edge index -----

  function TypeText(k: EdgeType): string {
    match k
    case DependsOn => "depends-on"
    case DeclaresHook => "declares-hook"
    case HookExecs => "hook-execs"
    case HookFetches => "hook-fetches"
    case HookReadsEnv => "hook-reads-env"
    case Exfil => "exfil"
    case Republish => "republish"
    case BuildBackend => "build-backend"
  }

  const NUL: char := '\0'

  // Edges are indexed by text: source, target and type, joined by NUL.
  function EdgeKey(e: Edge): string {
    e.from + [NUL] + e.to + [NUL] + TypeText(e.kind)
  }

  // ----- Mutations -----

  // What AddNode fills in when the adapter left it empty.
  function Defaulted(n: Node): Node {
    n.(kind := if n.kind == UnsetKind then Package else n.kind,
    risk := if n.risk == NoRisk then Clean else n.risk)
  }

  function AddNode(s: State, n: Node): State {
    if n.id in s.nodes then s
    else s.(nodes := s.nodes[n.id := Defaulted(n)], order := s.order + [n.id])
  }

  function AddEdge(s: State, e: Edge): State {
    if EdgeKey(e) in s.edgeSeen then s
    else s.(edgeSeen := s.edgeSeen + {EdgeKey(e)}, edges := s.edges + [e])
  }

  function RemoveFirst(es: seq<Edge>, e: Edge): seq<Edge> {
    if es == [] then []
    else if es[0] == e then es[1..]
    else [es[0]] + RemoveFirst(es[1..], e)
  }

  function RemoveEdge(s: State, e: Edge): State {
    if EdgeKey(e) !in s.edgeSeen then s
    else s.(edgeSeen := s.edgeSeen - {EdgeKey(e)}, edges := RemoveFirst(s.edges, e))
  }

  function MarkRoot(s: State, id: string): State {
    if id in s.roots then s else s.(roots := s.roots + [id])
  }

  function Renamed(old': string, new': string, x: string): string {
    if x == old' then new' else x
  }

  function RenamedEdge(old': string, new': string, e: Edge): Edge {
    Edge(Renamed(old', new', e.from), Renamed(old', new', e.to), e.kind)
  }

  function RenamedAll(old': string, new': string, ids: seq<string>): seq<string> {
    seq(|ids|, i requires 0 <= i < |ids| => Renamed(old', new', ids[i]))
  }

  function RenamedEdges(old': string, new': string, es: seq<Edge>): seq<Edge> {
    seq(|es|, i requires 0 <= i < |es| => RenamedEdge(old', new', es[i]))
  }

  function Keys(es: seq<Edge>): set<string> {
    set e | e in es :: EdgeKey(e)
  }

  predicate Renames(s: State, old': string, new': string) {
    old' != new' && old' in s.nodes && new' !in s.nodes
  }

  function RenameNode(s: State, old': string, new': string): State {
    if !Renames(s, old', new') then s
    else
      State(
        (s.nodes - {old'})[new' := s.nodes[old'].(id := new')],
        RenamedEdges(old', new', s.edges),
        RenamedAll(old', new', s.roots),
        RenamedAll(old', new', s.order),
        Keys(RenamedEdges(old', new', s.edges)))
  }

  function AddNodes(s: State, ns: seq<Node>): State {
    if ns == [] then s else AddNode(AddNodes(s, ns[..|ns| - 1]), ns[|ns| - 1])
  }

  function AddEdges(s: State, es: seq<Edge>): State {
    if es == [] then s else AddEdge(AddEdges(s, es[..|es| - 1]), es[|es| - 1])
  }

  function MarkRoots(s: State, ids: seq<string>): State {
    if ids == [] then s else MarkRoot(MarkRoots(s, ids[..|ids| - 1]), ids[|ids| - 1])
  }

  // Edges in (from, to, type) order.
  predicate EdgeLess(e: Edge, f: Edge) {
    if e.from != f.from then StringLess(e.from, f.from)
    else if e.to != f.to then StringLess(e.to, f.to)
    else StringLess(TypeText(e.kind), TypeText(f.kind))
  }

  // The nodes in identifier order.  In a consistent state the insertion order lists each once.
  function SortedNodes(s: State): seq<Node>
    requires Listed(s)
  {
    SortMembers(s.order, StringLess);
    var ids := Sort(s.order, StringLess);
    seq(|ids|, i requires 0 <= i < |ids| => s.nodes[ids[i]])
  }

  function SortedEdges(s: State): seq<Edge> {
    Sort(s.edges, EdgeLess)
  }

  // Folding one graph into another: first write wins.
  function Merge(s: State, src: State): State
    requires Listed(src)
  {
    MarkRoots(AddEdges(AddNodes(s, SortedNodes(src)), SortedEdges(src)), src.roots)
  }

  // ----- The representation invariant -----

  // The insertion order lists exactly the nodes of the map.
  ghost predicate Listed(s: State) {
    && NoDuplicates(s.order)
    && (forall id :: id in s.order <==> id in s.nodes)
  }

  lemma ListedByKeys(s: State, t: State)
    requires Listed(s) && t.order == s.order && t.nodes.Keys == s.nodes.Keys
    ensures Listed(t)
  {
  }

  ghost predicate WellKeyed(s: State) {
    forall id :: id in s.nodes ==> s.nodes[id].id == id && Defaulted(s.nodes[id]) == s.nodes[id]
  }

  // No edge twice, and the index holds exactly the keys of the edges.
  ghost predicate Indexed(s: State) {
    && (forall i, j :: 0 <= i < j < |s.edges| ==> EdgeKey(s.edges[i]) != EdgeKey(s.edges[j]))
    && s.edgeSeen == Keys(s.edges)
  }

  ghost predicate Consistent(s: State) {
    Listed(s) && WellKeyed(s) && Indexed(s) && NoDuplicates(s.roots)
  }

  lemma {:induction false} RemoveFirstAbsent(es: seq<Edge>, e: Edge)
    requires e !in es
    ensures RemoveFirst(es, e) == es
  {
    if es != [] {
      RemoveFirstAbsent(es[1..], e);
    }
  }

  lemma {:induction false} RemoveFirstAt(es: seq<Edge>, e: Edge, i: nat)
    requires i < |es| && es[i] == e && e !in es[..i]
    ensures RemoveFirst(es, e) == es[..i] + es[i + 1..]
  {
    if i > 0 {
      assert es[..i][0] == es[0];
      assert es[1..][..i - 1] == es[..i][1..];
      RemoveFirstAt(es[1..], e, i - 1);
    }
  }

  // ----- Edge keys identify edges exactly when identifiers hold no NUL -----

  ghost predicate NulFree(t: string) {
    NUL !in t
  }

  ghost predicate CleanEdge(e: Edge) {
    NulFree(e.from) && NulFree(e.to)
  }

  lemma TypeTextInjective(k: EdgeType, l: EdgeType)
    ensures NulFree(TypeText(k))
    ensures TypeText(k) == TypeText(l) ==> k == l
  {
    assert TypeText(k)[0] != TypeText(l)[0] || |TypeText(k)| != |TypeText(l)| || k == l;
  }

  // Text before the first NUL, when the head holds none.
  lemma SplitAtNul(a: string, b: string, c: string, d: string)
    requires NulFree(a) && NulFree(c)
    requires a + [NUL] + b == c + [NUL] + d
    ensures a == c && b == d
  {
    var l, r := a + [NUL] + b, c + [NUL] + d;
    assert l[|a|] == NUL && r[|c|] == NUL;
    assert forall i :: 0 <= i < |a| ==> l[i] == a[i];
    assert forall i :: 0 <= i < |c| ==> r[i] == c[i];
    assert |a| == |c|;
    assert a == l[..|a|] && c == r[..|c|];
    assert b == l[|a| + 1..] && d == r[|c| + 1..];
  }

  // Text after the last NUL, when the tail holds none.
  lemma SplitAtLastNul(a: string, k: string, b: string, l: string)
    requires NulFree(k) && NulFree(l)
    requires a + [NUL] + k == b + [NUL] + l
    ensures a == b && k == l
  {
    var u, v := a + [NUL] + k, b + [NUL] + l;
    assert u[|a|] == NUL && v[|b|] == NUL;
    assert forall i :: |a| < i < |u| ==> u[i] == k[i - |a| - 1];
    assert forall i :: |b| < i < |v| ==> v[i] == l[i - |b| - 1];
    assert |a| == |b|;
    assert a == u[..|a|] && b == v[..|b|];
    assert k == u[|a| + 1..] && l == v[|b| + 1..];
  }

  lemma NulCount(a: string, b: string)
    ensures multiset(a + [NUL] + b)[NUL] == multiset(a)[NUL] + 1 + multiset(b)[NUL]
    ensures NulFree(a) <==> multiset(a)[NUL] == 0
    ensures NulFree(b) <==> multiset(b)[NUL] == 0
  {
    assert NUL in a <==> NUL in multiset(a);
    assert NUL in b <==> NUL in multiset(b);
  }

  lemma EdgeKeyIdentifies(e: Edge, f: Edge)
    requires CleanEdge(e) && EdgeKey(e) == EdgeKey(f)
    ensures e == f
  {
    TypeTextInjective(e.kind, f.kind);
    TypeTextInjective(f.kind, e.kind);
    SplitAtLastNul(e.from + [NUL] + e.to, TypeText(e.kind), f.from + [NUL] + f.to, TypeText(f.kind));
    NulCount(e.from, e.to);
    NulCount(f.from, f.to);
    SplitAtNul(e.from, e.to, f.from, f.to);
  }

  lemma DirtyEdgeCollides(e: Edge) returns (f: Edge)
    requires !CleanEdge(e)
    ensures f != e && EdgeKey(f) == EdgeKey(e)
  {
    if !NulFree(e.from) {
      var i :| 0 <= i < |e.from| && e.from[i] == NUL;
      f := Edge(e.from[..i], e.from[i + 1..] + [NUL] + e.to, e.kind);
      assert e.from == e.from[..i] + [NUL] + e.from[i + 1..];
      assert f.from + [NUL] + f.to == e.from + [NUL] + e.to;
    } else {
      var i :| 0 <= i < |e.to| && e.to[i] == NUL;
      f := Edge(e.from + [NUL] + e.to[..i], e.to[i + 1..], e.kind);
      assert e.to == e.to[..i] + [NUL] + e.to[i + 1..];
      assert f.from + [NUL] + f.to == e.from + [NUL] + e.to;
    }
  }

  // An edge shares its key with a different edge exactly when one of its endpoints holds a NUL.
  lemma KeyCollisionExactly(e: Edge)
    ensures (exists f :: f != e && EdgeKey(f) == EdgeKey(e)) <==> !CleanEdge(e)
  {
    hide EdgeKey;
    if CleanEdge(e) {
      forall f | EdgeKey(f) == EdgeKey(e)
        ensures f == e
      {
        EdgeKeyIdentifies(e, f);
      }
    } else {
      var f := DirtyEdgeCollides(e);
    }
  }

  lemma EdgeLessTransitive(e: Edge, f: Edge, g: Edge)
    requires EdgeLess(e, f) && EdgeLess(f, g)
    ensures EdgeLess(e, g)
  {
    hide StringLess, TypeText;
    StringOrder();
    assert forall a, b, c :: StringLess(a, b) && StringLess(b, c) ==> StringLess(a, c);
    assert forall a :: !StringLess(a, a);
  }

  lemma EdgeLessTotal(e: Edge, f: Edge)
    ensures !EdgeLess(e, e)
    ensures EdgeLess(e, f) || e == f || EdgeLess(f, e)
  {
    StringLessIrreflexive(TypeText(e.kind));
    TypeTextInjective(e.kind, f.kind);
    hide StringLess, TypeText;
    StringLessTotal(e.from, f.from);
    StringLessTotal(e.to, f.to);
    StringLessTotal(TypeText(e.kind), TypeText(f.kind));
  }

  lemma EdgeOrder()
    ensures StrictTotalOrder(EdgeLess)
  {
    hide EdgeLess;
    forall e, f, g
      ensures !EdgeLess(e, e)
      ensures EdgeLess(e, f) && EdgeLess(f, g) ==> EdgeLess(e, g)
      ensures EdgeLess(e, f) || e == f || EdgeLess(f, e)
    {
      EdgeLessTotal(e, f);
      if EdgeLess(e, f) && EdgeLess(f, g) {
        EdgeLessTransitive(e, f, g);
      }
    }
  }
}
