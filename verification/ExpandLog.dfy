// The log of a run's layers: what each one heard, lacked, chose, created and queued, and how one follows from
// those before it.
module ExpandLog {
  import opened Prelude
  import opened GraphTypes
  import opened Reach
  import opened GraphState
  import opened ExpandTypes
  import opened ExpandRegion
  import opened ExpandLedger
  import opened ExpandSteps
  import opened ExpandChoices
  import opened ExpandSeed
  import opened ExpandLayers
  import opened ExpandCreate

  // What one layer is remembered by: what its nodes declared, the names the subtree held then, the
  // version chosen for each package it lacked, the nodes it created, which nodes were expanded when it
  // had read, and what it queued.
  datatype LayerRecord = LayerRecord(
    heard: Layer,
    byName: map<NameKey, string>,
    chosen: Choices,
    created: set<string>,
    expanded: set<string>,
    next: set<string>)

  // The queue held exactly what the layer asked for and the subtree lacked, with every parent and every
  // constraint; each package on it had its version chosen from all of them and was linked below all its
  // parents; and each created node was made that way.
  ghost predicate Answered(wk: Walker, opts: Options, s: State, root: string, rec: LayerRecord, queue: Queue) {
    && Accumulated(wk, opts, rec.heard, queue, rec.byName) && QueueOk(wk, s, root, queue)
    && rec.chosen.Keys == queue.Keys
    && (forall k :: k in queue ==> DrawnAs(wk, opts, s, k, queue[k], rec.chosen[k]))
    && AllMade(wk, opts, s.nodes, rec.created, queue, rec.chosen)
  }

  // And what was queued is what the choices lead to: nodes that were created, or found in the graph.
  ghost predicate LayerDid(wk: Walker, opts: Options, s: State, root: string, rec: LayerRecord) {
    && (exists queue :: Answered(wk, opts, s, root, rec, queue))
    && (forall k :: k in rec.chosen ==> IsThere(wk, s.nodes, k, rec.chosen[k]))
    && (forall id :: id in rec.next <==> IsNext(wk, s.nodes, rec.expanded, rec.chosen, id))
  }

  lemma LayerDidStays(wk: Walker, opts: Options, s: State, t: State, root: string, rec: LayerRecord)
    requires LayerDid(wk, opts, s, root, rec) && Progress(s, t, root)
    ensures LayerDid(wk, opts, t, root, rec)
  {
    hide Progress, Accumulated, QueueOk, DrawnAs, AllMade, IsThere, IsNext;
    var queue :| Answered(wk, opts, s, root, rec, queue);
    QueueOkStays(wk, s, t, root, queue);
    AllMadeStays(wk, opts, s, t, root, rec.created, queue, rec.chosen);
    forall k | k in queue
      ensures DrawnAs(wk, opts, t, k, queue[k], rec.chosen[k])
    {
      DrawnStays(wk, opts, s, t, root, k, queue[k], rec.chosen[k]);
    }
    assert Answered(wk, opts, t, root, rec, queue);
    ProgressNodes(s, t, root);
    NextStays(wk, s.nodes, t.nodes, rec.expanded, rec.chosen);
    hide NodesEvolve;
  }

  // What the layers start from: what is queued, the names held, and what is expanded.
  datatype Departure = Departure(queued: set<string>, byName: map<NameKey, string>, expanded: set<string>)

  // What the i-th layer reads.
  ghost function FrontierAt(from: Departure, log: seq<LayerRecord>, i: nat): set<string>
    requires i <= |log|
  {
    if i == 0 then from.queued else log[i - 1].next
  }

  // k was held at the start, or an earlier layer chose a version for it.
  ghost predicate KnownBefore(from: Departure, log: seq<LayerRecord>, i: nat, k: NameKey)
    requires i <= |log|
  {
    k in from.byName || exists j :: 0 <= j < i && k in log[j].chosen
  }

  ghost predicate Expands(wk: Walker, nodes: map<string, Node>, frontier: set<string>, expanded: set<string>) {
    forall x :: x in frontier && x in nodes && nodes[x].ecosystem in wk.declarers ==> x in expanded
  }

  // Each layer expands what the one before it queued, nothing expanded is forgotten, and a name is held
  // from the start or because a version was chosen for it.
  ghost predicate InOrder(wk: Walker, nodes: map<string, Node>, from: Departure, log: seq<LayerRecord>) {
    && (forall i :: 0 <= i < |log| ==> from.expanded <= log[i].expanded)
    && (forall i, j :: 0 <= i <= j < |log| ==> log[i].expanded <= log[j].expanded)
    && (forall i: nat :: i < |log| ==> Expands(wk, nodes, FrontierAt(from, log, i), log[i].expanded))
    && (forall i, x :: 0 <= i < |log| && x in log[i].expanded ==> x in from.expanded || QueuedIn(from, log, x))
    && (forall i, k :: 0 <= i < |log| && k in from.byName ==> k in log[i].byName)
    && (forall i: nat, k :: i < |log| && k in log[i].byName ==> KnownBefore(from, log, i, k))
  }

  ghost predicate QueuedIn(from: Departure, log: seq<LayerRecord>, id: string) {
    id in from.queued || exists i :: 0 <= i < |log| && id in log[i].next
  }

  // How the walk stands after these layers.
  ghost predicate StandsAt(from: Departure, log: seq<LayerRecord>, w: Walk, queued: set<string>) {
    && (forall id :: id in w.frontier <==> id in FrontierAt(from, log, |log|))
    && from.expanded <= w.expanded && (forall i :: 0 <= i < |log| ==> log[i].expanded <= w.expanded)
    && (forall x :: x in w.expanded ==> x in from.expanded || QueuedIn(from, log, x))
    && (forall k :: k in from.byName ==> k in w.byName)
    && (forall k :: k in w.byName ==> KnownBefore(from, log, |log|, k))
    && (forall id :: id in queued <==> QueuedIn(from, log, id))
  }

  // The layers of a run: every node that is new after the resolver came from one of them, everything a
  // read node declares was heard in one of them, each one answered for what it heard, and what they
  // queued, with what was queued before, is all that was.
  ghost predicate InLayers(wk: Walker, opts: Options, resolved: State, t: State, tr: Trace, from: Departure,
                           log: seq<LayerRecord>) {
    && (forall id :: id in t.nodes ==> id in resolved.nodes || exists i :: 0 <= i < |log| && id in log[i].created)
    && (forall i :: 0 <= i < |log| ==> LayerDid(wk, opts, t, tr.root, log[i]))
    && (forall p :: p in tr.told ==>
       p.0 in t.nodes && (p.0 == tr.root || HeardAt(log, p.0, t.nodes[p.0].ecosystem, p.1)))
    && (forall x :: x in tr.read ==> exists i :: ReadAt(wk, t.nodes, x, from, log, i))
    && InOrder(wk, t.nodes, from, log)
    && (forall id :: id in tr.queued <==> QueuedIn(from, log, id))
    && tr.read <= tr.queued
  }

  ghost predicate HeardAt(log: seq<LayerRecord>, x: string, e: string, d: Declaration) {
    exists i :: 0 <= i < |log| && (x, e, d) in log[i].heard
  }

  // x was read in the i-th layer, which was to read it, and not expanded before: all it declares was heard
  // there.
  ghost predicate ReadAt(wk: Walker, nodes: map<string, Node>, x: string, from: Departure, log: seq<LayerRecord>,
                         i: int) {
    && 0 <= i < |log| && x in FrontierAt(from, log, i) && x !in from.expanded
    && HeardIn(wk, nodes, x, log[i].heard)
  }

  lemma LayersStart(wk: Walker, opts: Options, s: State, w: Walk, tr: Trace)
    requires Inv(wk, opts, s, w, tr) && tr.read == {} && forall p :: p in tr.told ==> p.0 == tr.root
    requires forall id :: id in tr.queued <==> id in w.frontier
    ensures InLayers(wk, opts, s, s, tr, Departure(tr.queued, w.byName, w.expanded), [])
    ensures StandsAt(Departure(tr.queued, w.byName, w.expanded), [], w, tr.queued)
  {
    hide Sound, Explained, Confines, Evolves, WalkContained, NamesAnswer, Accounted, NothingLost, NewAccounted,
         Counted, WasTold;
  }

  lemma InOrderStays(wk: Walker, s: State, t: State, root: string, from: Departure, log: seq<LayerRecord>)
    requires InOrder(wk, s.nodes, from, log) && Progress(s, t, root)
    requires forall id :: QueuedIn(from, log, id) ==> id in s.nodes
    ensures InOrder(wk, t.nodes, from, log)
  {
    hide Progress, KnownBefore;
    forall i: nat, x | i < |log| && x in FrontierAt(from, log, i) && x in t.nodes &&
        t.nodes[x].ecosystem in wk.declarers
      ensures x in log[i].expanded
    {
      assert QueuedIn(from, log, x);
      ProgressKeeps(s, t, root, x);
      assert Expands(wk, s.nodes, FrontierAt(from, log, i), log[i].expanded);
    }
  }

  lemma QueuedAreNodes(wk: Walker, opts: Options, s: State, w: Walk, tr: Trace)
    requires Inv(wk, opts, s, w, tr)
    ensures forall id :: id in tr.queued ==> id in s.nodes
  {
    hide Sound, Explained, Confines, Evolves, WalkContained, NamesAnswer, Heard, NothingLost, NewAccounted, Counted;
  }

  lemma LayersKeep(wk: Walker, opts: Options, resolved: State, s: State, t: State, tr: Trace, ur: Trace,
                   from: Departure, log: seq<LayerRecord>)
    requires InLayers(wk, opts, resolved, s, tr, from, log) && Progress(s, t, tr.root) && t.nodes.Keys == s.nodes.Keys
    requires ur.told == tr.told && ur.read == tr.read && ur.root == tr.root && ur.queued == tr.queued
    requires forall id :: id in tr.queued ==> id in s.nodes
    ensures InLayers(wk, opts, resolved, t, ur, from, log)
  {
    hide Progress, LayerDid, HeardIn, InOrder, QueuedIn;
    forall i | 0 <= i < |log|
      ensures LayerDid(wk, opts, t, tr.root, log[i])
    {
      LayerDidStays(wk, opts, s, t, tr.root, log[i]);
    }
    forall x | x in s.nodes
      ensures x in t.nodes && t.nodes[x].ecosystem == s.nodes[x].ecosystem
    {
      ProgressKeeps(s, t, tr.root, x);
    }
    forall x | x in tr.read
      ensures exists i :: ReadAt(wk, t.nodes, x, from, log, i)
    {
      var i :| ReadAt(wk, s.nodes, x, from, log, i);
      HeardInStays(wk, s, t, tr.root, x, log[i].heard, log[i].heard);
      assert ReadAt(wk, t.nodes, x, from, log, i);
    }
    InOrderStays(wk, s, t, tr.root, from, log);
  }

  // What one layer does to the walk.
  ghost predicate Advances(wk: Walker, nodes: map<string, Node>, w0: Walk, w: Walk, tr0: Trace, tr: Trace,
                           rec: LayerRecord) {
    && rec.byName == w0.byName && rec.expanded == w.expanded && w0.expanded <= w.expanded
    && (forall x :: x in w0.frontier && x in nodes && nodes[x].ecosystem in wk.declarers ==> x in rec.expanded)
    && (forall x :: x in rec.expanded ==> x in w0.expanded || x in w0.frontier)
    && (forall id :: id in rec.next <==> id in w.frontier)
    && (forall id :: id in tr.queued <==> id in tr0.queued || id in rec.next)
    && (forall k :: k in w0.byName ==> k in w.byName)
    && (forall k :: k in w.byName ==> k in w0.byName || k in rec.chosen)
    && (forall x :: x in tr.read ==> x in tr0.read || (x in w0.frontier && x !in w0.expanded))
  }

  // Another layer.
  lemma LayersGrow(wk: Walker, opts: Options, resolved: State, s: State, t: State, w: Walk, v: Walk, tr: Trace,
                   ur: Trace, from: Departure, log: seq<LayerRecord>, rec: LayerRecord)
    requires InLayers(wk, opts, resolved, s, tr, from, log) && Progress(s, t, tr.root) && ur.root == tr.root
    requires LayerDid(wk, opts, t, tr.root, rec) && HeardSince(wk, t.nodes, tr.(layer := {}), ur)
    requires rec.heard == ur.layer && rec.created == t.nodes.Keys - s.nodes.Keys
    requires StandsAt(from, log, w, tr.queued) && Advances(wk, t.nodes, w, v, tr, ur, rec)
    requires forall id :: id in tr.queued ==> id in s.nodes
    ensures InLayers(wk, opts, resolved, t, ur, from, log + [rec]) && StandsAt(from, log + [rec], v, ur.queued)
  {
    hide Progress, LayerDid, HeardIn, InOrder, QueuedIn, StandsAt, Advances;
    var more := log + [rec];
    assert more[|log|] == rec && forall i :: 0 <= i < |log| ==> more[i] == log[i];
    forall i | 0 <= i < |log|
      ensures LayerDid(wk, opts, t, tr.root, log[i])
    {
      LayerDidStays(wk, opts, s, t, tr.root, log[i]);
    }
    CreatedInLayers(resolved, s, t, log, rec);
    ToldInLayers(wk, s, t, tr, ur, log, rec);
    AdvanceReads(wk, t.nodes, from, w, v, tr, ur, log, rec);
    ReadInLayers(wk, s, t, w, tr, ur, from, log, rec);
    InOrderStays(wk, s, t, tr.root, from, log);
    OrderGrows(wk, t.nodes, w, v, tr, ur, from, log, rec);
    StandGrows(wk, t.nodes, w, v, tr, ur, from, log, rec);
    StandQueued(from, more, v, ur.queued);
  }

  lemma StandQueued(from: Departure, log: seq<LayerRecord>, w: Walk, queued: set<string>)
    requires StandsAt(from, log, w, queued)
    ensures forall id :: id in queued <==> QueuedIn(from, log, id)
  {
    hide KnownBefore, QueuedIn;
  }

  lemma AdvanceReads(wk: Walker, nodes: map<string, Node>, from: Departure, w: Walk, v: Walk, tr: Trace, ur: Trace,
                     log: seq<LayerRecord>, rec: LayerRecord)
    requires StandsAt(from, log, w, tr.queued) && Advances(wk, nodes, w, v, tr, ur, rec)
    ensures forall x :: x in ur.read ==> x in tr.read || (x in w.frontier && x !in from.expanded)
    ensures forall id :: id in w.frontier ==> id in FrontierAt(from, log, |log|)
    ensures tr.queued <= ur.queued && forall x :: x in w.frontier ==> x in tr.queued
  {
    hide KnownBefore;
  }

  lemma KnownStays(from: Departure, log: seq<LayerRecord>, rec: LayerRecord, i: nat, k: NameKey)
    requires i <= |log|
    ensures KnownBefore(from, log, i, k) <==> KnownBefore(from, log + [rec], i, k)
  {
    var more := log + [rec];
    if j :| 0 <= j < i && k in log[j].chosen {
      assert k in more[j].chosen;
    }
    if j :| 0 <= j < i && k in more[j].chosen {
      assert k in log[j].chosen;
    }
  }

  lemma OrderGrows(wk: Walker, nodes: map<string, Node>, w: Walk, v: Walk, tr: Trace, ur: Trace, from: Departure,
                   log: seq<LayerRecord>, rec: LayerRecord)
    requires InOrder(wk, nodes, from, log) && StandsAt(from, log, w, tr.queued)
    requires Advances(wk, nodes, w, v, tr, ur, rec)
    ensures InOrder(wk, nodes, from, log + [rec])
  {
    hide KnownBefore, QueuedIn, Expands;
    FrontiersGrow(wk, nodes, w, v, tr, ur, from, log, rec);
    NamesGrow(wk, nodes, w, v, tr, ur, from, log, rec);
    ExpandedGrow(wk, nodes, w, v, tr, ur, from, log, rec);
    var more := log + [rec];
    assert more[|log|] == rec && forall i :: 0 <= i < |log| ==> more[i] == log[i];
  }

  lemma FrontiersGrow(wk: Walker, nodes: map<string, Node>, w: Walk, v: Walk, tr: Trace, ur: Trace, from: Departure,
                      log: seq<LayerRecord>, rec: LayerRecord)
    requires InOrder(wk, nodes, from, log) && StandsAt(from, log, w, tr.queued)
    requires Advances(wk, nodes, w, v, tr, ur, rec)
    ensures forall i: nat :: i <= |log| ==>
              Expands(wk, nodes, FrontierAt(from, log + [rec], i), (log + [rec])[i].expanded)
  {
    hide KnownBefore, QueuedIn;
    var more := log + [rec];
    forall i: nat | i <= |log|
      ensures Expands(wk, nodes, FrontierAt(from, more, i), more[i].expanded)
    {
      assert FrontierAt(from, more, i) == FrontierAt(from, log, i);
      if i < |log| {
        assert Expands(wk, nodes, FrontierAt(from, log, i), log[i].expanded);
      }
    }
  }

  lemma ExpandedGrow(wk: Walker, nodes: map<string, Node>, w: Walk, v: Walk, tr: Trace, ur: Trace, from: Departure,
                     log: seq<LayerRecord>, rec: LayerRecord)
    requires InOrder(wk, nodes, from, log) && StandsAt(from, log, w, tr.queued)
    requires Advances(wk, nodes, w, v, tr, ur, rec)
    ensures forall i: nat, x :: i <= |log| && x in (log + [rec])[i].expanded ==>
              x in from.expanded || QueuedIn(from, log + [rec], x)
  {
    hide KnownBefore, QueuedIn, Expands;
    var more := log + [rec];
    forall i: nat, x | i <= |log| && x in more[i].expanded
      ensures x in from.expanded || QueuedIn(from, more, x)
    {
      QueuedGrows(from, log, rec, x);
      FrontierIsQueued(from, log, x);
      assert i < |log| ==> more[i] == log[i];
    }
  }

  lemma FrontierIsQueued(from: Departure, log: seq<LayerRecord>, x: string)
    ensures x in FrontierAt(from, log, |log|) ==> QueuedIn(from, log, x)
  {
  }

  lemma NamesGrow(wk: Walker, nodes: map<string, Node>, w: Walk, v: Walk, tr: Trace, ur: Trace, from: Departure,
                  log: seq<LayerRecord>, rec: LayerRecord)
    requires InOrder(wk, nodes, from, log) && StandsAt(from, log, w, tr.queued)
    requires Advances(wk, nodes, w, v, tr, ur, rec)
    ensures forall i: nat, k :: i <= |log| && k in (log + [rec])[i].byName ==> KnownBefore(from, log + [rec], i, k)
  {
    hide KnownBefore, QueuedIn, Expands;
    var more := log + [rec];
    forall i: nat, k | i <= |log| && k in more[i].byName
      ensures KnownBefore(from, more, i, k)
    {
      KnownStays(from, log, rec, i, k);
    }
  }

  lemma StandGrows(wk: Walker, nodes: map<string, Node>, w: Walk, v: Walk, tr: Trace, ur: Trace, from: Departure,
                   log: seq<LayerRecord>, rec: LayerRecord)
    requires StandsAt(from, log, w, tr.queued) && Advances(wk, nodes, w, v, tr, ur, rec)
    ensures StandsAt(from, log + [rec], v, ur.queued)
  {
    var more := log + [rec];
    assert more[|log|] == rec && forall i :: 0 <= i < |log| ==> more[i] == log[i];
    forall k | k in v.byName
      ensures KnownBefore(from, more, |more|, k)
    {
      KnownGrows(from, log, rec, k);
    }
    forall id
      ensures QueuedIn(from, more, id) <==> QueuedIn(from, log, id) || id in rec.next
    {
      QueuedGrows(from, log, rec, id);
    }
    hide KnownBefore, QueuedIn;
  }

  lemma KnownGrows(from: Departure, log: seq<LayerRecord>, rec: LayerRecord, k: NameKey)
    requires KnownBefore(from, log, |log|, k) || k in rec.chosen
    ensures KnownBefore(from, log + [rec], |log| + 1, k)
  {
    var more := log + [rec];
    if j :| 0 <= j < |log| && k in log[j].chosen {
      assert k in more[j].chosen;
    }
    if k in rec.chosen {
      assert k in more[|log|].chosen;
    }
  }

  lemma QueuedGrows(from: Departure, log: seq<LayerRecord>, rec: LayerRecord, id: string)
    ensures QueuedIn(from, log + [rec], id) <==> QueuedIn(from, log, id) || id in rec.next
  {
    var more := log + [rec];
    if i :| 0 <= i < |log| && id in log[i].next {
      assert id in more[i].next;
    }
    if id in rec.next {
      assert id in more[|log|].next;
    }
    if i :| 0 <= i < |more| && id in more[i].next {
      assert i < |log| ==> id in log[i].next;
    }
  }

  lemma CreatedInLayers(resolved: State, s: State, t: State, log: seq<LayerRecord>, rec: LayerRecord)
    requires forall id :: id in s.nodes ==> id in resolved.nodes || exists i :: 0 <= i < |log| && id in log[i].created
    requires rec.created == t.nodes.Keys - s.nodes.Keys
    ensures forall id :: id in t.nodes ==>
              id in resolved.nodes || exists i :: 0 <= i < |log + [rec]| && id in (log + [rec])[i].created
  {
    var more := log + [rec];
    forall id | id in t.nodes && id !in resolved.nodes
      ensures exists i :: 0 <= i < |more| && id in more[i].created
    {
      if id in s.nodes {
        var i :| 0 <= i < |log| && id in log[i].created;
        assert more[i] == log[i];
      } else {
        assert id in more[|log|].created;
      }
    }
  }

  lemma ToldInLayers(wk: Walker, s: State, t: State, tr: Trace, ur: Trace, log: seq<LayerRecord>, rec: LayerRecord)
    requires Progress(s, t, tr.root) && HeardSince(wk, t.nodes, tr.(layer := {}), ur) && rec.heard == ur.layer
    requires forall p :: p in tr.told ==>
               p.0 in s.nodes && (p.0 == tr.root || HeardAt(log, p.0, s.nodes[p.0].ecosystem, p.1))
    ensures forall p :: p in ur.told ==>
              p.0 in t.nodes && (p.0 == tr.root || HeardAt(log + [rec], p.0, t.nodes[p.0].ecosystem, p.1))
  {
    hide Progress, HeardIn;
    var more := log + [rec];
    forall p | p in ur.told
      ensures p.0 in t.nodes && (p.0 == tr.root || HeardAt(more, p.0, t.nodes[p.0].ecosystem, p.1))
    {
      if p in tr.told {
        ProgressKeeps(s, t, tr.root, p.0);
        if p.0 != tr.root {
          var i :| 0 <= i < |log| && (p.0, s.nodes[p.0].ecosystem, p.1) in log[i].heard;
          assert more[i] == log[i];
        }
      } else {
        assert (p.0, t.nodes[p.0].ecosystem, p.1) in more[|log|].heard;
      }
    }
  }

  lemma ReadInLayers(wk: Walker, s: State, t: State, w: Walk, tr: Trace, ur: Trace, from: Departure,
                     log: seq<LayerRecord>, rec: LayerRecord)
    requires Progress(s, t, tr.root) && HeardSince(wk, t.nodes, tr.(layer := {}), ur) && rec.heard == ur.layer
    requires forall x :: x in tr.read ==> exists i :: ReadAt(wk, s.nodes, x, from, log, i)
    requires forall x :: x in ur.read ==> x in tr.read || (x in w.frontier && x !in from.expanded)
    requires forall id :: id in w.frontier ==> id in FrontierAt(from, log, |log|)
    ensures forall x :: x in ur.read ==> exists i :: ReadAt(wk, t.nodes, x, from, log + [rec], i)
  {
    hide Progress, HeardIn;
    var more := log + [rec];
    forall x | x in ur.read
      ensures exists i :: ReadAt(wk, t.nodes, x, from, more, i)
    {
      if x in tr.read {
        var i :| ReadAt(wk, s.nodes, x, from, log, i);
        HeardInStays(wk, s, t, tr.root, x, log[i].heard, log[i].heard);
        assert ReadAt(wk, t.nodes, x, from, more, i);
      } else {
        assert ReadAt(wk, t.nodes, x, from, more, |log|);
      }
    }
  }
}
