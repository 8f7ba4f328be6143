// Reachability over an edge list, restricted to a set of edge types.
module Reach {
  import opened GraphTypes

  ghost predicate Hop(es: seq<Edge>, kinds: set<EdgeType>, x: string, y: string) {
    exists k :: k in kinds && Edge(x, y, k) in es
  }

  ghost predicate IsPath(es: seq<Edge>, kinds: set<EdgeType>, p: seq<string>) {
    p != [] && forall i :: 0 <= i < |p| - 1 ==> Hop(es, kinds, p[i], p[i + 1])
  }

  ghost predicate PathBetween(es: seq<Edge>, kinds: set<EdgeType>, p: seq<string>, x: string, y: string) {
    IsPath(es, kinds, p) && p[0] == x && p[|p| - 1] == y
  }

  ghost predicate Reaches(es: seq<Edge>, kinds: set<EdgeType>, x: string, y: string) {
    exists p :: PathBetween(es, kinds, p, x, y)
  }

  lemma ReachesSelf(es: seq<Edge>, kinds: set<EdgeType>, x: string)
    ensures Reaches(es, kinds, x, x)
  {
    assert PathBetween(es, kinds, [x], x, x);
  }

  lemma PathExtends(es: seq<Edge>, kinds: set<EdgeType>, p: seq<string>, y: string)
    requires IsPath(es, kinds, p) && Hop(es, kinds, p[|p| - 1], y)
    ensures IsPath(es, kinds, p + [y])
  {
    hide Hop;
    var q := p + [y];
    forall i | 0 <= i < |q| - 1
      ensures Hop(es, kinds, q[i], q[i + 1])
    {
      if i < |p| - 1 {
        assert Hop(es, kinds, p[i], p[i + 1]);
      }
    }
  }

  lemma PathPrefix(es: seq<Edge>, kinds: set<EdgeType>, p: seq<string>, n: nat)
    requires IsPath(es, kinds, p) && 0 < n <= |p|
    ensures IsPath(es, kinds, p[..n])
  {
    hide Hop;
    forall i | 0 <= i < n - 1
      ensures Hop(es, kinds, p[..n][i], p[..n][i + 1])
    {
      assert Hop(es, kinds, p[i], p[i + 1]);
    }
  }

  lemma ReachesStep(es: seq<Edge>, kinds: set<EdgeType>, x: string, y: string, z: string)
    requires Reaches(es, kinds, x, y) && Hop(es, kinds, y, z)
    ensures Reaches(es, kinds, x, z)
  {
    hide Hop;
    var p :| PathBetween(es, kinds, p, x, y);
    PathExtends(es, kinds, p, z);
    assert PathBetween(es, kinds, p + [z], x, z);
  }

  // A set that holds the start and is closed under hops holds everything reachable.
  lemma {:induction false} ClosedHoldsPath(es: seq<Edge>, kinds: set<EdgeType>, s: set<string>, p: seq<string>, n: nat)
    requires IsPath(es, kinds, p) && p[0] in s && n < |p|
    requires forall x, y :: x in s && Hop(es, kinds, x, y) ==> y in s
    ensures p[n] in s
    decreases n
  {
    hide Hop;
    if n > 0 {
      ClosedHoldsPath(es, kinds, s, p, n - 1);
      assert Hop(es, kinds, p[n - 1], p[n - 1 + 1]);
    }
  }

  lemma ClosedHoldsReachable(es: seq<Edge>, kinds: set<EdgeType>, s: set<string>, x: string, y: string)
    requires x in s && Reaches(es, kinds, x, y)
    requires forall u, v :: u in s && Hop(es, kinds, u, v) ==> v in s
    ensures y in s
  {
    hide Hop;
    var p :| PathBetween(es, kinds, p, x, y);
    ClosedHoldsPath(es, kinds, s, p, |p| - 1);
  }

  lemma {:induction false} ReachesAlongPath(es: seq<Edge>, kinds: set<EdgeType>, x: string, p: seq<string>, n: nat)
    requires IsPath(es, kinds, p) && Reaches(es, kinds, x, p[0]) && n < |p|
    ensures Reaches(es, kinds, x, p[n])
    decreases n
  {
    hide Hop, Reaches;
    if n > 0 {
      ReachesAlongPath(es, kinds, x, p, n - 1);
      assert Hop(es, kinds, p[n - 1], p[n - 1 + 1]);
      ReachesStep(es, kinds, x, p[n - 1], p[n]);
    }
  }

  lemma ReachesTransitive(es: seq<Edge>, kinds: set<EdgeType>, x: string, y: string, z: string)
    requires Reaches(es, kinds, x, y) && Reaches(es, kinds, y, z)
    ensures Reaches(es, kinds, x, z)
  {
    hide Hop;
    var p :| PathBetween(es, kinds, p, y, z);
    ReachesAlongPath(es, kinds, x, p, |p| - 1);
  }

  lemma ReachesMonotone(es: seq<Edge>, fs: seq<Edge>, kinds: set<EdgeType>, x: string, y: string)
    requires forall e :: e in es ==> e in fs
    requires Reaches(es, kinds, x, y)
    ensures Reaches(fs, kinds, x, y)
  {
    var p :| PathBetween(es, kinds, p, x, y);
    forall i | 0 <= i < |p| - 1
      ensures Hop(fs, kinds, p[i], p[i + 1])
    {
      assert Hop(es, kinds, p[i], p[i + 1]);
    }
    assert PathBetween(fs, kinds, p, x, y);
  }

  lemma HopsReach(es: seq<Edge>, kinds: set<EdgeType>, x: string, y: string)
    requires Hop(es, kinds, x, y)
    ensures Reaches(es, kinds, x, y)
  {
    hide Hop;
    ReachesSelf(es, kinds, x);
    ReachesStep(es, kinds, x, x, y);
  }

  // ----- Adjacency lists -----

  // The targets of x, in edge order: the value of adj[x] in the source's searches.
  function Targets(es: seq<Edge>, kinds: set<EdgeType>, x: string): seq<string> {
    if es == [] then []
    else
      var rest := Targets(es[..|es| - 1], kinds, x);
      var e := es[|es| - 1];
      if e.from == x && e.kind in kinds then rest + [e.to] else rest
  }

  lemma {:induction false} TargetsAreHops(es: seq<Edge>, kinds: set<EdgeType>, x: string, y: string)
    ensures y in Targets(es, kinds, x) <==> Hop(es, kinds, x, y)
  {
    if es != [] {
      var e := es[|es| - 1];
      TargetsAreHops(es[..|es| - 1], kinds, x, y);
      assert es == es[..|es| - 1] + [e];
      if Hop(es, kinds, x, y) && !Hop(es[..|es| - 1], kinds, x, y) {
        var k :| k in kinds && Edge(x, y, k) in es;
        assert Edge(x, y, k) == e;
      }
      if Hop(es[..|es| - 1], kinds, x, y) {
        var k :| k in kinds && Edge(x, y, k) in es[..|es| - 1];
        assert Edge(x, y, k) in es;
      }
      if e.from == x && e.kind in kinds && e.to == y {
        assert Edge(x, y, e.kind) in es;
      }
    }
  }

  type Adjacency = map<string, seq<string>>

  function At(adj: Adjacency, x: string): seq<string> {
    if x in adj then adj[x] else []
  }

  // Every search starts by filing each edge's target under its source.
  method BuildAdjacency(es: seq<Edge>, kinds: set<EdgeType>) returns (adj: Adjacency)
    ensures forall x :: At(adj, x) == Targets(es, kinds, x)
    ensures adj == map[] <==> forall e :: e in es ==> e.kind !in kinds
  {
    adj := map[];
    for i := 0 to |es|
      invariant forall x :: At(adj, x) == Targets(es[..i], kinds, x)
      invariant adj == map[] <==> forall j :: 0 <= j < i ==> es[j].kind !in kinds
    {
      assert es[..i + 1][..i] == es[..i];
      if es[i].kind in kinds {
        adj := adj[es[i].from := At(adj, es[i].from) + [es[i].to]];
        assert es[i].from in adj;
      }
    }
    assert es[..|es|] == es;
  }

  // ----- Breadth-first visits -----

  // A visit from x: seen holds only reachable vertices, and every hop out of it is seen or queued.
  // The queue may hold vertices twice, and vertices already seen.
  ghost predicate Visiting(es: seq<Edge>, kinds: set<EdgeType>, x: string, seen: set<string>, queue: seq<string>) {
    && x in seen
    && (forall y :: y in seen || y in queue ==> Reaches(es, kinds, x, y))
    && (forall u, v :: u in seen && Hop(es, kinds, u, v) ==> v in seen || v in queue)
  }

  // Everything a visit can meet.
  ghost function Universe(es: seq<Edge>, x: string): set<string> {
    {x} + set e | e in es :: e.to
  }

  ghost predicate Within(es: seq<Edge>, x: string, seen: set<string>, queue: seq<string>) {
    seen <= Universe(es, x) && forall y :: y in queue ==> y in Universe(es, x)
  }

  lemma TargetsWithin(es: seq<Edge>, kinds: set<EdgeType>, x: string, u: string)
    ensures forall y :: y in Targets(es, kinds, u) ==> y in Universe(es, x)
  {
    hide Targets;
    forall y | y in Targets(es, kinds, u)
      ensures y in Universe(es, x)
    {
      TargetsAreHops(es, kinds, u, y);
      var k :| k in kinds && Edge(u, y, k) in es;
    }
  }

  lemma VisitStarts(es: seq<Edge>, kinds: set<EdgeType>, x: string)
    ensures Visiting(es, kinds, x, {x}, Targets(es, kinds, x))
    ensures Within(es, x, {x}, Targets(es, kinds, x))
  {
    hide Hop, Reaches, Targets;
    ReachesSelf(es, kinds, x);
    TargetsWithin(es, kinds, x, x);
    forall y
      ensures y in Targets(es, kinds, x) <==> Hop(es, kinds, x, y)
      ensures Hop(es, kinds, x, y) ==> Reaches(es, kinds, x, y)
    {
      TargetsAreHops(es, kinds, x, y);
      if Hop(es, kinds, x, y) {
        HopsReach(es, kinds, x, y);
      }
    }
  }

  lemma VisitSkips(es: seq<Edge>, kinds: set<EdgeType>, x: string, seen: set<string>, queue: seq<string>)
    requires Visiting(es, kinds, x, seen, queue) && Within(es, x, seen, queue)
    requires queue != [] && queue[0] in seen
    ensures Visiting(es, kinds, x, seen, queue[1..]) && Within(es, x, seen, queue[1..])
  {
    hide Hop, Reaches;
    assert queue == [queue[0]] + queue[1..];
  }

  lemma VisitAdvances(es: seq<Edge>, kinds: set<EdgeType>, x: string, seen: set<string>, queue: seq<string>)
    requires Visiting(es, kinds, x, seen, queue) && Within(es, x, seen, queue) && queue != []
    ensures var id := queue[0];
            && Visiting(es, kinds, x, seen + {id}, queue[1..] + Targets(es, kinds, id))
            && Within(es, x, seen + {id}, queue[1..] + Targets(es, kinds, id))
            && id in Universe(es, x) && Reaches(es, kinds, x, id)
  {
    hide Hop, Reaches, Targets;
    var id := queue[0];
    assert queue == [id] + queue[1..];
    TargetsWithin(es, kinds, x, id);
    forall y
      ensures y in Targets(es, kinds, id) <==> Hop(es, kinds, id, y)
      ensures Hop(es, kinds, id, y) ==> Reaches(es, kinds, x, y)
    {
      TargetsAreHops(es, kinds, id, y);
      if Hop(es, kinds, id, y) {
        ReachesStep(es, kinds, x, id, y);
      }
    }
  }

  // An emptied queue means everything reachable has been seen.
  lemma VisitEnds(es: seq<Edge>, kinds: set<EdgeType>, x: string, seen: set<string>)
    requires Visiting(es, kinds, x, seen, [])
    ensures forall y :: y in seen <==> Reaches(es, kinds, x, y)
  {
    hide Hop, Reaches;
    forall y | Reaches(es, kinds, x, y)
      ensures y in seen
    {
      ClosedHoldsReachable(es, kinds, seen, x, y);
    }
  }
}
