// How deep each node of a resolver's answer sits: its distance from the queried coordinate.
module ResolvedDepths {
  import opened ExpandTypes

  // An edge of the answer between two of its nodes; edges that name no node are ignored.
  predicate Step(rg: ResolvedGraph, a: int, b: int) {
    0 <= a < |rg.nodes| && 0 <= b < |rg.nodes| && (a, b) in rg.edges
  }

  // A path from the queried coordinate, index 0.
  ghost predicate IndexPath(rg: ResolvedGraph, p: seq<int>) {
    p != [] && p[0] == 0 && forall i :: 0 <= i < |p| - 1 ==> Step(rg, p[i], p[i + 1])
  }

  ghost predicate PathTo(rg: ResolvedGraph, p: seq<int>, i: int) {
    IndexPath(rg, p) && p[|p| - 1] == i
  }

  // Node i is exactly k steps from the queried coordinate.
  ghost predicate IsDistance(rg: ResolvedGraph, i: int, k: int) {
    && (exists p :: PathTo(rg, p, i) && |p| == k + 1)
    && (forall p :: PathTo(rg, p, i) ==> |p| >= k + 1)
  }

  // The depth of node i below a coordinate at rootDepth: its distance, or one layer when the edges
  // never reach it.
  ghost predicate IsDepth(rg: ResolvedGraph, rootDepth: int, i: int, d: int) {
    if exists p :: PathTo(rg, p, i) then IsDistance(rg, i, d - rootDepth) else d == rootDepth + 1
  }

  lemma DepthIsUnique(rg: ResolvedGraph, rootDepth: int, i: int, d: int, e: int)
    requires IsDepth(rg, rootDepth, i, d) && IsDepth(rg, rootDepth, i, e)
    ensures d == e
  {
    hide PathTo;
    if exists p :: PathTo(rg, p, i) {
      var p :| PathTo(rg, p, i) && |p| == d - rootDepth + 1;
      var q :| PathTo(rg, q, i) && |q| == e - rootDepth + 1;
    }
  }

  // Only the queried coordinate sits at its own depth: anything else the edges reach is below it.
  lemma OnlyTheRootIsAtRootDepth(rg: ResolvedGraph, rootDepth: int, i: int, d: int)
    requires i != 0 && IsDepth(rg, rootDepth, i, d)
    ensures d > rootDepth
  {
    if exists p :: PathTo(rg, p, i) {
      var p :| PathTo(rg, p, i) && |p| == d - rootDepth + 1;
      assert |p| > 1;
    }
  }

  lemma PathSteps(rg: ResolvedGraph, p: seq<int>, a: int, b: int)
    requires PathTo(rg, p, a) && Step(rg, a, b)
    ensures PathTo(rg, p + [b], b)
  {
    hide Step;
    var q := p + [b];
    forall i | 0 <= i < |q| - 1
      ensures Step(rg, q[i], q[i + 1])
    {
      if i < |p| - 1 {
        assert Step(rg, p[i], p[i + 1]);
      }
    }
  }

  // ----- The search -----

  function Unseen(depth: seq<int>): set<int> {
    set i | 0 <= i < |depth| && depth[i] < 0
  }

  // Depths found so far are lengths of paths; the queue is in order of depth and never more than one
  // layer behind; what has been taken off it has all its targets seen.
  ghost predicate Searching(rg: ResolvedGraph, depth: seq<int>, queue: seq<int>, done: set<int>) {
    && |depth| == |rg.nodes| && 0 < |depth| && depth[0] == 0
    && (forall i :: 0 <= i < |depth| ==> depth[i] >= -1)
    && (forall j :: 0 <= j < |queue| ==> 0 <= queue[j] < |depth| && depth[queue[j]] >= 0)
    && (forall j, k :: 0 <= j < k < |queue| ==> depth[queue[j]] <= depth[queue[k]])
    && (forall i :: 0 <= i < |depth| && depth[i] >= 0 ==> i in done || i in queue)
    && (forall i :: i in done ==> 0 <= i < |depth| && depth[i] >= 0)
    && (forall i :: 0 <= i < |depth| && depth[i] >= 0 ==> FoundAt(rg, i, depth[i]))
    && (forall u, v :: u in done && Step(rg, u, v) ==> 0 <= depth[v] <= depth[u] + 1)
    && (forall i, j :: 0 <= i < |depth| && 0 <= j < |queue| ==> depth[i] <= depth[queue[j]] + 1)
  }

  ghost predicate FoundAt(rg: ResolvedGraph, i: int, k: int) {
    exists p :: PathTo(rg, p, i) && |p| == k + 1
  }

  // The same while cur, just taken off the queue, has had its first j targets visited.
  ghost predicate Visiting(rg: ResolvedGraph, depth: seq<int>, queue: seq<int>, done: set<int>, cur: int, ts: seq<int>,
                           j: nat) {
    && |depth| == |rg.nodes| && 0 <= cur < |depth| && depth[0] == 0 && depth[cur] >= 0 && j <= |ts|
    && (forall i :: 0 <= i < |depth| ==> -1 <= depth[i] <= depth[cur] + 1)
    && (forall k :: 0 <= k < |queue| ==> 0 <= queue[k] < |depth| && depth[cur] <= depth[queue[k]])
    && (forall k, l :: 0 <= k < l < |queue| ==> depth[queue[k]] <= depth[queue[l]])
    && (forall i :: 0 <= i < |depth| && depth[i] >= 0 ==> i in done || i == cur || i in queue)
    && (forall i :: i in done ==> 0 <= i < |depth| && depth[i] >= 0)
    && (forall i :: 0 <= i < |depth| && depth[i] >= 0 ==> FoundAt(rg, i, depth[i]))
    && (forall u, v :: u in done && Step(rg, u, v) ==> 0 <= depth[v] <= depth[u] + 1)
    && (forall k :: 0 <= k < j ==> 0 <= ts[k] < |depth| && depth[ts[k]] >= 0)
  }

  lemma SearchStarts(rg: ResolvedGraph, depth: seq<int>)
    requires |depth| == |rg.nodes| && 0 < |depth| && depth[0] == 0
    requires forall i :: 0 < i < |depth| ==> depth[i] == -1
    ensures Searching(rg, depth, [0], {})
  {
    assert PathTo(rg, [0], 0);
  }

  lemma SearchTakes(rg: ResolvedGraph, depth: seq<int>, queue: seq<int>, done: set<int>, ts: seq<int>)
    requires Searching(rg, depth, queue, done) && queue != []
    ensures Visiting(rg, depth, queue[1..], done, queue[0], ts, 0)
  {
    hide FoundAt, Step;
    assert queue == [queue[0]] + queue[1..];
  }

  lemma VisitSkips(rg: ResolvedGraph, depth: seq<int>, queue: seq<int>, done: set<int>, cur: int, ts: seq<int>, j: nat)
    requires Visiting(rg, depth, queue, done, cur, ts, j) && j < |ts| && Step(rg, cur, ts[j]) && depth[ts[j]] != -1
    ensures Visiting(rg, depth, queue, done, cur, ts, j + 1)
  {
    hide FoundAt;
  }

  lemma VisitFinds(rg: ResolvedGraph, depth: seq<int>, queue: seq<int>, done: set<int>, cur: int, ts: seq<int>, j: nat)
    requires Visiting(rg, depth, queue, done, cur, ts, j) && j < |ts| && Step(rg, cur, ts[j]) && depth[ts[j]] == -1
    ensures Visiting(rg, depth[ts[j] := depth[cur] + 1], queue + [ts[j]], done, cur, ts, j + 1)
    ensures Unseen(depth[ts[j] := depth[cur] + 1]) < Unseen(depth)
  {
    var v := ts[j];
    var p :| PathTo(rg, p, cur) && |p| == depth[cur] + 1;
    PathSteps(rg, p, cur, v);
    assert FoundAt(rg, v, depth[cur] + 1);
    hide FoundAt;
    assert v in Unseen(depth) && v !in Unseen(depth[v := depth[cur] + 1]);
  }

  lemma VisitEnds(rg: ResolvedGraph, depth: seq<int>, queue: seq<int>, done: set<int>, cur: int, ts: seq<int>)
    requires Visiting(rg, depth, queue, done, cur, ts, |ts|)
    requires forall v :: Step(rg, cur, v) ==> v in ts
    ensures Searching(rg, depth, queue, done + {cur})
  {
    hide FoundAt;
    forall v | Step(rg, cur, v)
      ensures 0 <= depth[v] <= depth[cur] + 1
    {
      var k :| 0 <= k < |ts| && ts[k] == v;
    }
  }

  // Once the queue is empty no path is shorter than the depth found for its end.
  lemma {:induction false} NoShorterPath(rg: ResolvedGraph, depth: seq<int>, done: set<int>, p: seq<int>, n: nat)
    requires Searching(rg, depth, [], done) && IndexPath(rg, p) && n < |p|
    ensures 0 <= p[n] < |depth| && 0 <= depth[p[n]] <= n
  {
    hide FoundAt;
    if n > 0 {
      NoShorterPath(rg, depth, done, p, n - 1);
      assert Step(rg, p[n - 1], p[n - 1 + 1]);
    }
  }

  lemma SearchEnds(rg: ResolvedGraph, rootDepth: int, depth: seq<int>, done: set<int>, i: nat)
    requires Searching(rg, depth, [], done) && i < |depth|
    ensures IsDepth(rg, rootDepth, i, rootDepth + if depth[i] < 0 then 1 else depth[i])
  {
    forall p | PathTo(rg, p, i)
      ensures 0 <= depth[i] < |p|
    {
      NoShorterPath(rg, depth, done, p, |p| - 1);
    }
    if depth[i] >= 0 {
      assert FoundAt(rg, i, depth[i]);
    }
  }

  type Adjacency = map<int, seq<int>>

  function At(adj: Adjacency, a: int): seq<int> {
    if a in adj then adj[a] else []
  }

  method BuildAdjacency(rg: ResolvedGraph) returns (adj: Adjacency)
    ensures forall a, b :: b in At(adj, a) <==> Step(rg, a, b)
  {
    adj := map[];
    for i := 0 to |rg.edges|
      invariant forall a, b :: b in At(adj, a) <==> Step(rg, a, b) && (a, b) in rg.edges[..i]
    {
      var (from, to) := rg.edges[i];
      assert rg.edges[..i + 1] == rg.edges[..i] + [(from, to)];
      if from >= 0 && from < |rg.nodes| && to >= 0 && to < |rg.nodes| {
        adj := adj[from := At(adj, from) + [to]];
      }
    }
    assert rg.edges[..|rg.edges|] == rg.edges;
  }

  // Fills the depth array breadth first, then shifts it below the queried coordinate.
  method AssertedDepths(rg: ResolvedGraph, rootDepth: int) returns (depth: array<int>)
    ensures fresh(depth) && depth.Length == |rg.nodes|
    ensures forall i :: 0 <= i < depth.Length ==> IsDepth(rg, rootDepth, i, depth[i])
  {
    hide Searching, Visiting, IsDepth, Step, Unseen;
    depth := new int[|rg.nodes|](_ => -1);
    if |rg.nodes| == 0 {
      return;
    }
    var adj := BuildAdjacency(rg);
    ghost var done := Search(rg, depth, adj);
    ghost var found := depth[..];
    forall i | 0 <= i < |found|
      ensures IsDepth(rg, rootDepth, i, rootDepth + if found[i] < 0 then 1 else found[i])
    {
      SearchEnds(rg, rootDepth, found, done, i);
    }
    for i := 0 to depth.Length
      invariant forall j :: i <= j < depth.Length ==> depth[j] == found[j]
      invariant forall j :: 0 <= j < i ==> depth[j] == rootDepth + if found[j] < 0 then 1 else found[j]
    {
      if depth[i] < 0 {
        depth[i] := 1;
      }
      depth[i] := depth[i] + rootDepth;
    }
  }

  method Search(rg: ResolvedGraph, depth: array<int>, adj: Adjacency) returns (ghost done: set<int>)
    requires depth.Length == |rg.nodes| > 0 && forall i :: 0 <= i < depth.Length ==> depth[i] == -1
    requires forall a, b :: b in At(adj, a) <==> Step(rg, a, b)
    modifies depth
    ensures Searching(rg, depth[..], [], done)
  {
    hide Searching, Visiting, Step, Unseen;
    depth[0] := 0;
    var queue := [0];
    done := {};
    SearchStarts(rg, depth[..]);
    while queue != []
      invariant Searching(rg, depth[..], queue, done)
      decreases Unseen(depth[..]), |queue|
    {
      var cur := queue[0];
      SearchTakes(rg, depth[..], queue, done, At(adj, cur));
      queue := Visit(rg, depth, queue[1..], done, cur, At(adj, cur));
      VisitEnds(rg, depth[..], queue, done, cur, At(adj, cur));
      done := done + {cur};
    }
  }

  // Gives every unseen target of cur its depth, and queues it.
  method Visit(rg: ResolvedGraph, depth: array<int>, rest: seq<int>, ghost done: set<int>, cur: int,
               ts: seq<int>) returns (queue: seq<int>)
    requires Visiting(rg, depth[..], rest, done, cur, ts, 0)
    requires forall j :: 0 <= j < |ts| ==> Step(rg, cur, ts[j])
    modifies depth
    ensures Visiting(rg, depth[..], queue, done, cur, ts, |ts|)
    ensures Unseen(depth[..]) < Unseen(old(depth[..])) || (Unseen(depth[..]) == Unseen(old(depth[..])) && queue == rest)
  {
    hide FoundAt, Unseen;
    queue := rest;
    ghost var before := depth[..];
    for j := 0 to |ts|
      invariant Visiting(rg, depth[..], queue, done, cur, ts, j)
      invariant Unseen(depth[..]) < Unseen(before) || (Unseen(depth[..]) == Unseen(before) && queue == rest)
    {
      ghost var now := depth[..];
      var to := ts[j];
      assert 0 <= to < depth.Length && now[to] == depth[to] && now[cur] == depth[cur];
      if depth[to] == -1 {
        VisitFinds(rg, now, queue, done, cur, ts, j);
        depth[to] := depth[cur] + 1;
        assert depth[..] == now[to := now[cur] + 1];
        queue := queue + [to];
      } else {
        VisitSkips(rg, now, queue, done, cur, ts, j);
      }
    }
  }
}
