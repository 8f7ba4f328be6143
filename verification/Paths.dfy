// Which path PathToNode reports: the shortest from a root in the graph, and of those the first in order.
module Paths {
  import opened GraphTypes
  import opened Sorting
  import opened Reach
  import opened GraphState

  const DEPENDS: set<EdgeType> := {DependsOn}

  // A path to target that starts at one of the given roots.
  ghost predicate Leads(es: seq<Edge>, starts: set<string>, target: string, p: seq<string>) {
    IsPath(es, DEPENDS, p) && p[0] in starts && p[|p| - 1] == target
  }

  ghost predicate Connected(es: seq<Edge>, starts: set<string>, target: string) {
    exists p :: Leads(es, starts, target, p)
  }

  // ----- The order paths are preferred in: shorter first, then by identifiers -----

  ghost predicate PathLess(p: seq<string>, q: seq<string>) {
    || |p| < |q|
    || (|p| == |q| && exists i :: 0 <= i < |p| && p[..i] == q[..i] && StringLess(p[i], q[i]))
  }

  ghost predicate PathAtMost(p: seq<string>, q: seq<string>) {
    p == q || PathLess(p, q)
  }

  // The path PathToNode looks for.
  ghost predicate IsBest(es: seq<Edge>, starts: set<string>, target: string, p: seq<string>) {
    && Leads(es, starts, target, p)
    && forall q :: Leads(es, starts, target, q) ==> PathAtMost(p, q)
  }

  lemma PathLessAsymmetric(p: seq<string>, q: seq<string>)
    requires PathLess(p, q)
    ensures !PathAtMost(q, p)
  {
    PathLessIrreflexive(p);
    if PathLess(q, p) {
      PathLessTransitive(p, q, p);
    }
  }

  lemma PathLessIrreflexive(p: seq<string>)
    ensures !PathLess(p, p)
  {
    forall i | 0 <= i < |p|
      ensures !StringLess(p[i], p[i])
    {
      StringLessIrreflexive(p[i]);
    }
  }

  lemma PathLessTransitive(p: seq<string>, q: seq<string>, r: seq<string>)
    requires PathLess(p, q) && PathLess(q, r)
    ensures PathLess(p, r)
  {
    hide StringLess;
    if |p| == |q| == |r| {
      var i :| 0 <= i < |p| && p[..i] == q[..i] && StringLess(p[i], q[i]);
      var j :| 0 <= j < |q| && q[..j] == r[..j] && StringLess(q[j], r[j]);
      if i < j {
        assert q[i] == q[..j][i] == r[..j][i] == r[i];
        assert q[..j][..i] == r[..j][..i];
        assert p[..i] == r[..i];
      } else if j < i {
        assert q[j] == q[..i][j] == p[..i][j] == p[j];
        assert q[..i][..j] == p[..i][..j];
        assert p[..j] == r[..j];
      } else {
        StringLessTransitive(p[i], q[i], r[i]);
      }
    }
  }

  lemma PathLessExtends(p: seq<string>, q: seq<string>, x: string, y: string)
    requires PathLess(p, q)
    ensures PathLess(p + [x], q + [y])
  {
    hide StringLess;
    if |p| == |q| {
      var i :| 0 <= i < |p| && p[..i] == q[..i] && StringLess(p[i], q[i]);
      assert (p + [x])[..i] == (q + [y])[..i];
      assert StringLess((p + [x])[i], (q + [y])[i]);
    }
  }

  lemma PathLessLast(p: seq<string>, x: string, y: string)
    requires StringLess(x, y)
    ensures PathLess(p + [x], p + [y])
  {
    assert (p + [x])[..|p|] == (p + [y])[..|p|];
    assert StringLess((p + [x])[|p|], (p + [y])[|p|]);
  }

  lemma BestIsUnique(es: seq<Edge>, starts: set<string>, target: string, p: seq<string>, q: seq<string>)
    requires IsBest(es, starts, target, p) && IsBest(es, starts, target, q)
    ensures p == q
  {
    hide Leads, PathLess;
    if PathLess(p, q) {
      PathLessAsymmetric(p, q);
    }
  }

  // The choice depends only on which edges there are, not on the order they were added in.
  lemma BestIgnoresEdgeOrder(es: seq<Edge>, fs: seq<Edge>, starts: set<string>, target: string, p: seq<string>)
    requires forall e :: e in es <==> e in fs
    requires IsBest(es, starts, target, p)
    ensures IsBest(fs, starts, target, p)
  {
    hide PathLess;
    forall q
      ensures Leads(es, starts, target, q) <==> Leads(fs, starts, target, q)
    {
      SamePaths(es, fs, q);
    }
  }

  lemma SamePaths(es: seq<Edge>, fs: seq<Edge>, p: seq<string>)
    requires forall e :: e in es <==> e in fs
    ensures IsPath(es, DEPENDS, p) <==> IsPath(fs, DEPENDS, p)
  {
    forall x, y
      ensures Hop(es, DEPENDS, x, y) <==> Hop(fs, DEPENDS, x, y)
    {
    }
    hide Hop;
  }

  // ----- The search invariant -----

  // What a breadth-first search knows: found lists the discovered nodes in order, the first done of
  // them fully explored, and path records the tree path to each.
  ghost predicate Searching(es: seq<Edge>, starts: set<string>, found: seq<string>, done: nat,
                            path: map<string, seq<string>>) {
    && done <= |found|
    && NoDuplicates(found)
    && (forall x :: x in found <==> x in path)
    && (forall x :: x in starts ==> x in found)
    && (forall x :: x in path ==> IsBest(es, starts, x, path[x]))
    && (forall i, j :: 0 <= i < j < |found| ==> PathLess(path[found[i]], path[found[j]]))
    && (forall i, y :: 0 <= i < done && Hop(es, DEPENDS, found[i], y) ==> y in found)
  }

  // A path that ends outside the explored nodes is no better than the path to the next node to
  // explore, and longer than it when it ends outside the discovered ones.
  lemma {:induction false} UnexploredIsNoBetter(es: seq<Edge>, starts: set<string>, found: seq<string>, done: nat,
                                                path: map<string, seq<string>>, u: string, q: seq<string>)
    requires Searching(es, starts, found, done, path) && done < |found|
    requires Leads(es, starts, u, q) && u !in found[..done]
    ensures PathAtMost(path[found[done]], q)
    ensures u !in found ==> |path[found[done]]| < |q|
    decreases |q|
  {
    hide Hop, PathLess;
    if u in found {
      var k :| done <= k < |found| && found[k] == u;
      assert PathAtMost(path[u], q);
      if k > done {
        assert PathLess(path[found[done]], path[found[k]]);
        if path[u] != q {
          PathLessTransitive(path[found[done]], path[u], q);
        }
      }
    } else {
      assert |q| > 1;
      var init := q[..|q| - 1];
      var v := init[|init| - 1];
      PathPrefix(es, DEPENDS, q, |q| - 1);
      assert Hop(es, DEPENDS, q[|q| - 2], q[|q| - 2 + 1]);
      NotExplored(es, starts, found, done, path, v, u);
      UnexploredIsNoBetter(es, starts, found, done, path, v, init);
      NotLonger(path[found[done]], init);
      ShorterIsLess(path[found[done]], q);
    }
  }

  lemma NotLonger(p: seq<string>, q: seq<string>)
    requires PathAtMost(p, q)
    ensures |p| <= |q|
  {
  }

  lemma ShorterIsLess(p: seq<string>, q: seq<string>)
    requires |p| < |q|
    ensures PathLess(p, q)
  {
  }

  lemma ViaUnexplored(es: seq<Edge>, starts: set<string>, found: seq<string>, done: nat,
                      path: map<string, seq<string>>, y: string, q: seq<string>)
    requires Searching(es, starts, found, done, path) && done < |found|
    requires y !in found && Leads(es, starts, y, q)
    ensures PathAtMost(path[found[done]] + [y], q)
  {
    hide Hop, PathLess, IsBest;
    assert |q| > 1;
    var init := q[..|q| - 1];
    var v := init[|init| - 1];
    PathPrefix(es, DEPENDS, q, |q| - 1);
    assert Hop(es, DEPENDS, q[|q| - 2], q[|q| - 2 + 1]);
    NotExplored(es, starts, found, done, path, v, y);
    UnexploredIsNoBetter(es, starts, found, done, path, v, init);
    hide Searching;
    assert q == init + [y];
    if path[found[done]] != init {
      PathLessExtends(path[found[done]], init, y, y);
    }
  }

  // Extending the path of the node being explored by an undiscovered neighbour gives the best path
  // to that neighbour.
  lemma DiscoveredIsBest(es: seq<Edge>, starts: set<string>, found: seq<string>, done: nat,
                         path: map<string, seq<string>>, y: string)
    requires Searching(es, starts, found, done, path) && done < |found|
    requires Hop(es, DEPENDS, found[done], y) && y !in found
    ensures IsBest(es, starts, y, path[found[done]] + [y])
  {
    hide Hop, PathAtMost;
    assert IsBest(es, starts, found[done], path[found[done]]);
    PathExtends(es, DEPENDS, path[found[done]], y);
    forall q | Leads(es, starts, y, q)
      ensures PathAtMost(path[found[done]] + [y], q)
    {
      ViaUnexplored(es, starts, found, done, path, y, q);
    }
  }

  lemma NotExplored(es: seq<Edge>, starts: set<string>, found: seq<string>, done: nat,
                    path: map<string, seq<string>>, v: string, y: string)
    requires Searching(es, starts, found, done, path)
    requires Hop(es, DEPENDS, v, y) && y !in found
    ensures v !in found[..done]
  {
    hide Hop, PathLess, IsBest;
  }

  // Nodes discovered while exploring cur come after every node found before.
  lemma SearchAppends(es: seq<Edge>, starts: set<string>, found: seq<string>, done: nat,
                      path: map<string, seq<string>>, y: string)
    requires Searching(es, starts, found, done, path) && done < |found|
    requires Hop(es, DEPENDS, found[done], y) && y !in found
    requires forall x :: x in found ==> PathLess(path[x], path[found[done]] + [y])
    ensures Searching(es, starts, found + [y], done, path[y := path[found[done]] + [y]])
  {
    hide Hop, PathLess, IsBest;
    DiscoveredIsBest(es, starts, found, done, path, y);
    var found', path' := found + [y], path[y := path[found[done]] + [y]];
    forall i, j | 0 <= i < j < |found'|
      ensures PathLess(path'[found'[i]], path'[found'[j]])
    {
      assert found'[i] in found;
    }
  }

  lemma SearchStarts(es: seq<Edge>, starts: seq<string>, path: map<string, seq<string>>)
    requires Increasing(starts)
    requires NoDuplicates(starts)
    requires path == map x | x in starts :: [x]
    ensures Searching(es, (set x | x in starts), starts, 0, path)
  {
    hide Hop;
    var s := set x | x in starts;
    forall x | x in path
      ensures IsBest(es, s, x, path[x])
    {
      forall q | Leads(es, s, x, q)
        ensures PathAtMost([x], q)
      {
        if |q| > 1 {
          ShorterIsLess([x], q);
        }
      }
    }
    forall i, j | 0 <= i < j < |starts|
      ensures PathLess(path[starts[i]], path[starts[j]])
    {
      PathLessLast([], starts[i], starts[j]);
      assert [] + [starts[i]] == [starts[i]] && [] + [starts[j]] == [starts[j]];
    }
  }

  // When every discovered node is explored, nothing else can be reached.
  lemma SearchExhausted(es: seq<Edge>, starts: set<string>, found: seq<string>, path: map<string, seq<string>>,
                        target: string, p: seq<string>)
    requires Searching(es, starts, found, |found|, path)
    requires Leads(es, starts, target, p)
    ensures target in found
  {
    hide Hop, PathLess, IsBest;
    ClosedHoldsPath(es, DEPENDS, (set x | x in found), p, |p| - 1);
  }

  // Every discovered node comes before any extension of the next node to explore.
  ghost predicate Behind(found: seq<string>, path: map<string, seq<string>>, known: seq<string>, cur: string) {
    && cur in path
    && (forall x :: x in known ==> x in path)
    && (forall x, y :: x in known ==> PathLess(path[x], path[cur] + [y]))
  }

  lemma LaterTargetNotLess(es: seq<Edge>, e: Edge, y: string)
    requires Sorted(es + [e], EdgeLess)
    requires Edge(e.from, y, e.kind) in es
    ensures !StringLess(e.to, y)
  {
    StringLessIrreflexive(y);
    hide StringLess;
    var k :| 0 <= k < |es| && es[k] == Edge(e.from, y, e.kind);
    assert (es + [e])[k] == es[k] && (es + [e])[|es|] == e;
    assert !EdgeLess(e, es[k]);
  }

  lemma {:induction false} TargetsSorted(es: seq<Edge>, x: string)
    requires Sorted(es, EdgeLess)
    ensures Sorted(Targets(es, DEPENDS, x), StringLess)
    ensures forall y :: y in Targets(es, DEPENDS, x) ==> Edge(x, y, DependsOn) in es
  {
    hide StringLess;
    if es != [] {
      var rest, e := es[..|es| - 1], es[|es| - 1];
      assert es == rest + [e];
      assert Sorted(rest, EdgeLess);
      TargetsSorted(rest, x);
      var ts := Targets(rest, DEPENDS, x);
      if e.from == x && e.kind == DependsOn {
        forall i | 0 <= i < |ts|
          ensures !StringLess(e.to, ts[i])
        {
          assert ts[i] in ts;
          LaterTargetNotLess(rest, e, ts[i]);
        }
      }
    }
  }

  // One neighbour of the node being explored: either already discovered, or appended with its path.
  lemma ExploreNeighbour(es: seq<Edge>, starts: set<string>, found: seq<string>, done: nat,
                         path: map<string, seq<string>>,
                         known: seq<string>, ts: seq<string>, k: nat)
    requires Searching(es, starts, found, done, path) && done < |found|
    requires Behind(found, path, known, found[done])
    requires Sorted(ts, StringLess) && k < |ts| && Hop(es, DEPENDS, found[done], ts[k]) && ts[k] !in found
    requires forall x :: x in found && x !in known ==> x in ts[..k] && path[x] == path[found[done]] + [x]
    ensures Searching(es, starts, found + [ts[k]], done, path[ts[k] := path[found[done]] + [ts[k]]])
  {
    hide Hop, PathLess, IsBest;
    var cur := found[done];
    forall x | x in found
      ensures PathLess(path[x], path[cur] + [ts[k]])
    {
      if x !in known {
        var j :| 0 <= j < k && ts[j] == x;
        assert !StringLess(ts[k], ts[j]);
        StringLessTotal(ts[j], ts[k]);
        PathLessLast(path[cur], ts[j], ts[k]);
      }
    }
    SearchAppends(es, starts, found, done, path, ts[k]);
  }

  // Once all neighbours of a node are discovered the search moves to the next one.
  lemma MoveOn(es: seq<Edge>, starts: set<string>, found: seq<string>, done: nat, path: map<string, seq<string>>,
               known: seq<string>)
    requires Searching(es, starts, found, done, path) && done < |found|
    requires Behind(found, path, known, found[done])
    requires forall x :: x in found && x !in known ==> path[x] == path[found[done]] + [x]
    requires forall y :: Hop(es, DEPENDS, found[done], y) ==> y in found
    ensures Searching(es, starts, found, done + 1, path)
    ensures done + 1 < |found| ==> Behind(found, path, found, found[done + 1])
  {
    hide Hop, PathLess, IsBest;
    if done + 1 < |found| {
      var cur, next := found[done], found[done + 1];
      assert PathLess(path[cur], path[next]);
      forall x, y | x in found
        ensures PathLess(path[x], path[next] + [y])
      {
        if x in known {
          PathLessExtends(path[cur], path[next], y, y);
          PathLessTransitive(path[x], path[cur] + [y], path[next] + [y]);
        } else {
          PathLessExtends(path[cur], path[next], x, y);
        }
      }
    }
  }

  lemma BehindGrows(found: seq<string>, path: map<string, seq<string>>, known: seq<string>, cur: string, y: string)
    requires Behind(found, path, known, cur) && y !in path
    ensures Behind(found + [y], path[y := path[cur] + [y]], known, cur)
  {
    hide PathLess;
  }

  lemma StartsBehind(starts: seq<string>, path: map<string, seq<string>>)
    requires path == map x | x in starts :: [x]
    ensures forall cur :: cur in starts ==> Behind(starts, path, starts, cur)
  {
    hide PathLess;
    forall x, cur, y | x in starts && cur in starts
      ensures PathLess(path[x], path[cur] + [y])
    {
      ShorterIsLess(path[x], path[cur] + [y]);
    }
  }

  lemma {:induction false} NoMoreThan(s: seq<string>, t: set<string>)
    requires NoDuplicates(s) && forall x :: x in s ==> x in t
    ensures |s| <= |t|
  {
    if s != [] {
      var last := s[|s| - 1];
      NoMoreThan(s[..|s| - 1], t - {last});
    }
  }

  // ----- Reconstruction -----

  // The part of a path after its last empty identifier.  PathToNode follows predecessors until it
  // meets the empty string, so this is what it can recover.
  function AfterLastEmpty(p: seq<string>): seq<string> {
    if p == [] || p[|p| - 1] == "" then []
    else AfterLastEmpty(p[..|p| - 1]) + [p[|p| - 1]]
  }

  // What PathToNode answers: the best path, as far as predecessors can be followed.
  ghost predicate IsAnswer(es: seq<Edge>, starts: set<string>, target: string, chain: seq<string>) {
    exists p :: IsBest(es, starts, target, p) && chain == AfterLastEmpty(p)
  }

  // The predecessor map agrees with the tree paths.
  ghost predicate Predecessors(prev: map<string, string>, path: map<string, seq<string>>) {
    forall x :: x in path ==>
      if x in prev then prev[x] in path && path[x] == path[prev[x]] + [x] else path[x] == [x]
  }

  lemma AfterLastEmptyStep(p: seq<string>, x: string)
    ensures AfterLastEmpty(p + [x]) == if x == "" then [] else AfterLastEmpty(p) + [x]
  {
    assert (p + [x])[..|p|] == p;
  }

  lemma {:induction false} AfterLastEmptyWhole(p: seq<string>)
    ensures AfterLastEmpty(p) == p <==> "" !in p
  {
    if p != [] && p[|p| - 1] != "" {
      AfterLastEmptyWhole(p[..|p| - 1]);
      assert p == p[..|p| - 1] + [p[|p| - 1]];
    }
  }

  // The best path follows depends-on edges from a start to the target, and no other such path is shorter
  // or, of the same length, has a smaller identifier where they first differ.
  lemma BestInEdges(es: seq<Edge>, starts: set<string>, target: string, p: seq<string>, q: seq<string>)
    requires IsBest(es, starts, target, p)
    ensures p != [] && p[0] in starts && p[|p| - 1] == target
    ensures forall i :: 0 <= i < |p| - 1 ==> Edge(p[i], p[i + 1], DependsOn) in es
    ensures q != [] && q[0] in starts && q[|q| - 1] == target && p != q &&
            (forall i :: 0 <= i < |q| - 1 ==> Edge(q[i], q[i + 1], DependsOn) in es) ==>
              |p| < |q| || (|p| == |q| && exists i, j: nat :: 0 <= i < |p| && p[..i] == q[..i] &&
                                           TextBeforeAt(p[i], q[i], j))
  {
    forall i | 0 <= i < |p| - 1
      ensures Edge(p[i], p[i + 1], DependsOn) in es
    {
      assert Hop(es, DEPENDS, p[i], p[i + 1]);
    }
    if q != [] && q[0] in starts && q[|q| - 1] == target && p != q &&
        forall i :: 0 <= i < |q| - 1 ==> Edge(q[i], q[i + 1], DependsOn) in es {
      forall i | 0 <= i < |q| - 1
        ensures Hop(es, DEPENDS, q[i], q[i + 1])
      {
        assert Edge(q[i], q[i + 1], DependsOn) in es;
      }
      assert Leads(es, starts, target, q);
      assert PathAtMost(p, q);
      if |p| == |q| {
        var i :| 0 <= i < |p| && p[..i] == q[..i] && StringLess(p[i], q[i]);
        StringLessExactly(p[i], q[i]);
      }
    }
    hide StringLess, TextBeforeAt;
  }

  // A root has an answer as well: the path that is just itself.
  lemma RootAnswersItself(es: seq<Edge>, starts: set<string>, target: string, chain: seq<string>)
    requires IsAnswer(es, starts, target, chain) && target in starts && target != ""
    ensures chain == [target]
  {
    var p :| IsBest(es, starts, target, p) && chain == AfterLastEmpty(p);
    assert Leads(es, starts, target, [target]);
    assert PathAtMost(p, [target]);
    assert p == [target];
    AfterLastEmptyWhole([target]);
  }

  // Without empty identifiers nothing is cut off: the answer is the best path itself.
  lemma AnswerIsBest(es: seq<Edge>, starts: set<string>, target: string, chain: seq<string>)
    requires IsAnswer(es, starts, target, chain)
    requires "" !in starts && forall e :: e in es ==> e.to != ""
    ensures IsBest(es, starts, target, chain)
  {
    hide PathAtMost;
    var p :| IsBest(es, starts, target, p) && chain == AfterLastEmpty(p);
    forall i | 0 <= i < |p|
      ensures p[i] != ""
    {
      if i > 0 {
        assert Hop(es, DEPENDS, p[i - 1], p[i - 1 + 1]);
      }
    }
    AfterLastEmptyWhole(p);
  }

  // With one, the reported chain can miss the root.
  lemma AnswerCanBeCut()
    ensures var es := [Edge("app", "", DependsOn), Edge("", "lib", DependsOn)];
            IsBest(es, {"app"}, "lib", ["app", "", "lib"]) && IsAnswer(es, {"app"}, "lib", ["lib"])
  {
    var es := [Edge("app", "", DependsOn), Edge("", "lib", DependsOn)];
    var best := ["app", "", "lib"];
    assert es[0] in es && es[1] in es;
    assert Hop(es, DEPENDS, "app", "") && Hop(es, DEPENDS, "", "lib");
    forall q | Leads(es, {"app"}, "lib", q)
      ensures PathAtMost(best, q)
    {
      assert q[0] == "app" && q[|q| - 1] == "lib";
      assert |q| > 1;
      assert Hop(es, DEPENDS, q[0], q[0 + 1]);
      assert |q| > 2;
      assert Hop(es, DEPENDS, q[1], q[1 + 1]);
      if |q| == 3 {
        assert q == best;
      } else {
        ShorterIsLess(best, q);
      }
    }
    assert IsBest(es, {"app"}, "lib", best);
    AfterLastEmptyStep(["app", ""], "lib");
    AfterLastEmptyStep(["app"], "");
    assert ["app"] + [""] == ["app", ""] && ["app", ""] + ["lib"] == best;
    assert AfterLastEmpty(best) == ["lib"];
  }
}
