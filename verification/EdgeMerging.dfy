/** merge(): collapse every chain, then report each allowed edge that is left as a path of its own.
    The promise of the original's documentation, that each edge is part of exactly one path, is proved
    with its exact reading. */
module EdgeMerging {
  import opened TileHierarchy
  import opened Wrappers
  import opened RoadGraph
  import opened EdgeTracking
  import opened MergeChains
  import opened EdgeCollapsing

  /** All edges reported, in the order they were reported. */
  function EdgesFound(found: seq<FoundPath>): seq<GraphId> {
    if found == [] then [] else EdgesFound(found[..|found| - 1]) + found[|found| - 1].edges
  }

  lemma EdgesFoundAppend(found: seq<FoundPath>, p: FoundPath)
    ensures EdgesFound(found + [p]) == EdgesFound(found) + p.edges
  {
    assert (found + [p])[..|found|] == found;
  }

  /** A path that ends at a mergeable node, although it is no loop, does so because the way on leaves
      the tile set. */
  ghost predicate Maximal(g: Graph, rules: Rules, p: FoundPath)
    requires WellFormed(g)
  {
    && (Mergeable(g, rules, p.start) ==>
          || p.start == p.end
          || Neighbours(g, rules, p.start).value.0.tile !in g
          || Neighbours(g, rules, p.start).value.1.tile !in g)
    && (Mergeable(g, rules, p.end) ==> p.start == p.end)
  }

  /** Wherever an edge of the path ends and another goes on, merging is possible. */
  ghost predicate MergedInside(g: Graph, rules: Rules, es: seq<GraphId>)
    requires WellFormed(g)
  {
    forall k | 0 <= k < |es| - 1 :: ValidEdge(g, es[k]) && Mergeable(g, rules, End(g, es[k]))
  }

  /** The edges join head to tail from the path's start to its end, over mergeable nodes, and nothing could be merged
      on. */
  ghost predicate Sound(g: Graph, rules: Rules, p: FoundPath)
    requires WellFormed(g)
  {
    p.edges != [] && Connects(g, p.start, p.edges, p.end) && MergedInside(g, rules, p.edges) && Maximal(g, rules, p)
  }

  /** Every edge along a run of nodes leads to the next of them, and only the last to the last. */
  lemma {:induction false} AlongLeads(g: Graph, rules: Rules, us: seq<GraphId>, k: nat) returns (j: nat)
    requires WellFormed(g) && k < |Along(g, rules, us)|
    ensures 0 < j < |us| && ValidEdge(g, Along(g, rules, us)[k]) && End(g, Along(g, rules, us)[k]) == us[j]
    ensures k < |Along(g, rules, us)| - 1 ==> j < |us| - 1
    decreases us
  {
    hide WellFormed, EdgeBetween;
    var step := Step(g, rules, us[0], us[1]);
    if k < |step| {
      EdgeBetweenLeads(g, rules, us[0], us[1]);
      j := 1;
    } else {
      var i := AlongLeads(g, rules, us[1..], k - |step|);
      j := i + 1;
    }
  }

  lemma ChainMergesInside(g: Graph, rules: Rules, c: seq<GraphId>)
    requires WellFormed(g) && Chain(g, rules, c)
    ensures MergedInside(g, rules, Along(g, rules, c))
  {
    hide WellFormed, Neighbours, Along;
    forall k | 0 <= k < |Along(g, rules, c)| - 1
      ensures ValidEdge(g, Along(g, rules, c)[k]) && Mergeable(g, rules, End(g, Along(g, rules, c)[k]))
    {
      var j := AlongLeads(g, rules, c, k);
      assert Interior(c, j);
      assert Joins(Neighbours(g, rules, c[j]), c[j - 1], c[j + 1]);
    }
  }

  lemma CompleteChainIsSound(g: Graph, rules: Rules, c: seq<GraphId>)
    requires WellFormed(g) && Symmetric(g, rules) && Complete(g, rules, c)
    ensures Sound(g, rules, PathOf(g, rules, c))
  {
    hide WellFormed, Symmetric, Neighbours, EdgeBetween, Connects, Along, MergedInside;
    ChainMergesInside(g, rules, c);
    assert Interior(c, 1) && Interior(c, |c| - 2);
    assert Joins(Neighbours(g, rules, c[1]), c[0], c[2]);
    NeighbourHasEdge(g, rules, c[1], c[0], c[2]);
    EdgeBetweenLeads(g, rules, c[1], c[0]);
    AlongHas(g, rules, c, 1);
    if Mergeable(g, rules, c[0]) {
      MergeableIsNode(g, rules, c[0]);
    }
    if c[0].tile in g {
      EndIsNode(g, EdgeBetween(g, rules, c[1], c[0]).value);
    }
    ChainConnects(g, rules, c);
  }

  lemma MergeableIsNode(g: Graph, rules: Rules, n: GraphId)
    requires WellFormed(g) && Mergeable(g, rules, n)
    ensures ValidNode(g, n)
  {
  }

  lemma ReversedIsComplete(g: Graph, rules: Rules, c: seq<GraphId>)
    requires WellFormed(g) && Complete(g, rules, c)
    ensures Complete(g, rules, Reversed(c)) && Reversed(Reversed(c)) == c
  {
    hide WellFormed, Neighbours, Chain;
    assert |c| >= 3 by { ChainIsLong(g, rules, c); }
    ReversedChain(g, rules, c);
    ReversedEnds(c);
    ReversedEnds(Reversed(c));
  }

  lemma ChainIsLong(g: Graph, rules: Rules, c: seq<GraphId>)
    requires WellFormed(g) && Chain(g, rules, c)
    ensures |c| >= 3
  {
  }

  /** Every edge of `tracked` is allowed and touches a mergeable node. */
  ghost predicate TouchesMergeable(g: Graph, rules: Rules, tracked: set<GraphId>)
    requires WellFormed(g)
  {
    forall e | e in tracked ::
      && ValidEdge(g, e) && rules.allowed(Edge(g, e))
      && (Mergeable(g, rules, Start(g, e)) || Mergeable(g, rules, End(g, e)))
  }

  lemma ChainTouchesMergeable(g: Graph, rules: Rules, c: seq<GraphId>)
    requires WellFormed(g) && Chain(g, rules, c)
    ensures TouchesMergeable(g, rules, EdgesOf(g, rules, c))
  {
    hide WellFormed, Neighbours, EdgeBetween, EdgesOf;
    forall e | e in EdgesOf(g, rules, c)
      ensures ValidEdge(g, e) && rules.allowed(Edge(g, e))
      ensures Mergeable(g, rules, Start(g, e)) || Mergeable(g, rules, End(g, e))
    {
      var i := BetweenConsecutive(g, rules, c, e);
      assert Interior(c, i) || Interior(c, i + 1);
      var k := if Interior(c, i) then i else i + 1;
      assert Joins(Neighbours(g, rules, c[k]), c[k - 1], c[k + 1]);
      if EdgeBetween(g, rules, c[i], c[i + 1]) == Some(e) {
        EdgeBetweenLeads(g, rules, c[i], c[i + 1]);
      } else {
        EdgeBetweenLeads(g, rules, c[i + 1], c[i]);
      }
    }
  }

  /** What holds of the report and the tracker while chains are being collapsed. */
  ghost predicate Collapsing(g: Graph, rules: Rules, found: seq<FoundPath>, tracked: set<GraphId>)
    requires WellFormed(g)
  {
    && Distinct(EdgesFound(found)) && (forall e :: e in EdgesFound(found) <==> e in tracked)
    && AllOrNone(g, rules, tracked) && TouchesMergeable(g, rules, tracked)
    && forall p | p in found :: Sound(g, rules, p)
  }

  lemma CollapsingFromNothing(g: Graph, rules: Rules)
    requires WellFormed(g)
    ensures Collapsing(g, rules, [], {})
  {
  }

  lemma CollapsingIsAllOrNone(g: Graph, rules: Rules, found: seq<FoundPath>, tracked: set<GraphId>)
    requires WellFormed(g) && Collapsing(g, rules, found, tracked)
    ensures AllOrNone(g, rules, tracked)
  {
  }

  lemma ReportTwo(found: seq<FoundPath>, reported: set<GraphId>, p: FoundPath, q: FoundPath)
    requires Distinct(EdgesFound(found)) && forall e :: e in EdgesFound(found) <==> e in reported
    requires Distinct(p.edges + q.edges) && forall e | e in p.edges + q.edges :: e !in reported
    ensures Distinct(EdgesFound(found + [p, q]))
    ensures forall e :: e in EdgesFound(found + [p, q]) <==> e in reported || e in p.edges || e in q.edges
  {
    EdgesFoundAppend(found, p);
    EdgesFoundAppend(found + [p], q);
    assert found + [p, q] == (found + [p]) + [q];
    DistinctConcat(EdgesFound(found), p.edges + q.edges);
    assert EdgesFound(found + [p, q]) == EdgesFound(found) + (p.edges + q.edges);
  }

  lemma MergeableBothTouch(g: Graph, rules: Rules, a: set<GraphId>, b: set<GraphId>)
    requires WellFormed(g) && TouchesMergeable(g, rules, a)
    ensures TouchesMergeable(g, rules, b) ==> TouchesMergeable(g, rules, a + b)
  {
  }

  lemma CollapseOne(g: Graph, rules: Rules, found: seq<FoundPath>, tracked: set<GraphId>, c: seq<GraphId>)
    requires WellFormed(g) && Symmetric(g, rules) && Collapsing(g, rules, found, tracked)
    requires Complete(g, rules, c) && EdgesOf(g, rules, c) !! tracked
    ensures |c| >= 2 && Collapsing(g, rules, found + [PathOf(g, rules, c), PathOf(g, rules, Reversed(c))],
                                   tracked + EdgesOf(g, rules, c))
  {
    hide WellFormed, Symmetric, Neighbours, Along, AllOrNone, Sound, Chain, Distinct, EdgesFound, TouchesMergeable;
    ChainIsLong(g, rules, c);
    var p, q := PathOf(g, rules, c), PathOf(g, rules, Reversed(c));
    ChainEdgesDistinct(g, rules, c);
    ReportTwo(found, tracked, p, q);
    MergeableBothTouch(g, rules, tracked, EdgesOf(g, rules, c));
    ChainKeepsAllOrNone(g, rules, tracked, c);
    ChainTouchesMergeable(g, rules, c);
    ReversedIsComplete(g, rules, c);
    CompleteChainIsSound(g, rules, c);
    CompleteChainIsSound(g, rules, Reversed(c));
  }

  /** All edges at `n` have been reported if merging is possible there. */
  ghost predicate Settled(g: Graph, rules: Rules, tracked: set<GraphId>, n: GraphId)
    requires WellFormed(g)
  {
    Mergeable(g, rules, n) ==> forall e | Incident(g, rules, e, n) :: e in tracked
  }

  lemma ExploredIsSettled(g: Graph, rules: Rules, c: seq<GraphId>, n: GraphId)
    requires WellFormed(g) && Symmetric(g, rules) && Complete(g, rules, c) && n in c
    ensures Settled(g, rules, EdgesOf(g, rules, c), n)
  {
    hide WellFormed, Symmetric, Neighbours, EdgesOf, Complete, Chain;
    if Mergeable(g, rules, n) {
      var i :| 0 <= i < |c| && c[i] == n;
      forall e | Incident(g, rules, e, n)
        ensures e in EdgesOf(g, rules, c)
      {
        Swallows(g, rules, c, i, e);
      }
    }
  }

  lemma SettledGrows(g: Graph, rules: Rules, tracked: set<GraphId>, more: set<GraphId>, n: GraphId)
    requires WellFormed(g) && Settled(g, rules, tracked, n) && tracked <= more
    ensures Settled(g, rules, more, n)
  {
  }

  /** Merging has been settled at the nodes of the tiles `done` and the first `i` nodes of `tile`. */
  ghost predicate SettledSoFar(g: Graph, rules: Rules, tracked: set<GraphId>, done: set<TileId>, tile: TileId, i: nat)
    requires WellFormed(g)
  {
    forall n: GraphId | n.tile in done || (n.tile == tile && n.id < i) ::
      ValidNode(g, n) ==> Settled(g, rules, tracked, n)
  }

  lemma SettledOneMore(g: Graph, rules: Rules, tracked: set<GraphId>, more: set<GraphId>, done: set<TileId>,
                       tile: TileId, i: nat)
    requires WellFormed(g) && SettledSoFar(g, rules, tracked, done, tile, i) && tracked <= more
    requires Settled(g, rules, more, GraphId(tile, i))
    ensures SettledSoFar(g, rules, more, done, tile, i + 1)
  {
    hide WellFormed, Settled;
    forall n: GraphId | n.tile in done || (n.tile == tile && n.id < i + 1)
      ensures ValidNode(g, n) ==> Settled(g, rules, more, n)
    {
      if ValidNode(g, n) && n != GraphId(tile, i) {
        SettledGrows(g, rules, tracked, more, n);
      }
    }
  }

  lemma AfterExplore(g: Graph, rules: Rules, found: seq<FoundPath>, tracked: set<GraphId>, n: GraphId, c: seq<GraphId>)
    requires WellFormed(g) && Symmetric(g, rules) && Collapsing(g, rules, found, tracked)
    requires c == [] ==> Mergeable(g, rules, n) ==> exists e | Incident(g, rules, e, n) :: e in tracked
    requires c != [] ==> Complete(g, rules, c) && n in c && EdgesOf(g, rules, c) !! tracked
    ensures c == [] ==> Settled(g, rules, tracked, n)
    ensures c != [] ==> 2 <= |c|
    ensures c != [] ==> Collapsing(g, rules, found + [PathOf(g, rules, c), PathOf(g, rules, Reversed(c))],
                                   tracked + EdgesOf(g, rules, c))
    ensures c != [] ==> Settled(g, rules, tracked + EdgesOf(g, rules, c), n)
  {
    if c != [] {
      hide *;
      CollapseOne(g, rules, found, tracked, c);
      ExploredIsSettled(g, rules, c, n);
      SettledGrows(g, rules, EdgesOf(g, rules, c), tracked + EdgesOf(g, rules, c), n);
    } else {
      hide WellFormed, Symmetric, Neighbours, Sound, EdgesFound, Distinct, TouchesMergeable;
    }
  }

  /** Which edges a finished merge has reported. */
  ghost predicate Reported(g: Graph, rules: Rules, e: GraphId)
    requires WellFormed(g)
  {
    && ValidEdge(g, e) && rules.allowed(Edge(g, e))
    && (End(g, e).tile in g || Mergeable(g, rules, Start(g, e)))
  }

  lemma SingleIsSound(g: Graph, rules: Rules, tracked: set<GraphId>, e: GraphId)
    requires WellFormed(g) && Symmetric(g, rules)
    requires forall n | ValidNode(g, n) :: Settled(g, rules, tracked, n)
    requires ValidEdge(g, e) && rules.allowed(Edge(g, e)) && End(g, e).tile in g && e !in tracked
    ensures Sound(g, rules, FoundPath(Start(g, e), End(g, e), [e]))
    ensures ValidNode(g, End(g, e)) && ValidEdge(g, RawOpp(g, e)) && End(g, RawOpp(g, e)) == Start(g, e)
  {
    hide WellFormed, Neighbours;
    EndIsNode(g, e);
    OpposingTurnsAround(g, e);
    assert Incident(g, rules, e, Start(g, e)) && Incident(g, rules, e, End(g, e));
    assert Settled(g, rules, tracked, Start(g, e)) && Settled(g, rules, tracked, End(g, e));
    assert Connects(g, End(g, e), [e][1..], End(g, e));
  }

  lemma ReportOne(found: seq<FoundPath>, p: FoundPath, e: GraphId)
    requires Distinct(EdgesFound(found)) && e !in EdgesFound(found) && p.edges == [e]
    ensures Distinct(EdgesFound(found + [p]))
    ensures forall f :: f in EdgesFound(found + [p]) <==> f in EdgesFound(found) || f == e
  {
    EdgesFoundAppend(found, p);
    DistinctConcat(EdgesFound(found), [e]);
  }

  lemma AllReported(g: Graph, rules: Rules, tracked: set<GraphId>, e: GraphId)
    requires WellFormed(g) && Symmetric(g, rules) && TouchesMergeable(g, rules, tracked)
    requires forall n | ValidNode(g, n) :: Settled(g, rules, tracked, n)
    ensures Reported(g, rules, e) <==>
              e in tracked || (ValidEdge(g, e) && rules.allowed(Edge(g, e)) && End(g, e).tile in g)
  {
    hide WellFormed, Neighbours, Symmetric;
    if e in tracked {
      if Mergeable(g, rules, End(g, e)) {
        MergeableIsNode(g, rules, End(g, e));
      }
    } else if Reported(g, rules, e) {
      assert Settled(g, rules, tracked, Start(g, e));
    }
  }

  method ExploreNode(collapser: EdgeCollapser, n: GraphId)
    requires collapser.Valid()
    requires Collapsing(collapser.g, collapser.rules, collapser.found, collapser.tracker.Tracked())
    modifies collapser`found, collapser.tracker.edgeSet.bits
    ensures Collapsing(collapser.g, collapser.rules, collapser.found, collapser.tracker.Tracked())
    ensures Settled(collapser.g, collapser.rules, collapser.tracker.Tracked(), n)
    ensures old(collapser.tracker.Tracked()) <= collapser.tracker.Tracked()
  {
    hide WellFormed, Symmetric, Neighbours, Settled, Collapsing, Complete, EdgesOf, AllOrNone, PathOf,
      EdgeTracker.Tracked, EdgeTracker.Valid;
    ghost var g, rules, found, tracked := collapser.g, collapser.rules, collapser.found, collapser.tracker.Tracked();
    CollapsingIsAllOrNone(g, rules, found, tracked);
    ghost var c := collapser.Explore(n);
    AfterExplore(g, rules, found, tracked, n, c);
  }

  method CollapseTile(tile: TileId, collapser: EdgeCollapser, ghost done: set<TileId>)
    requires collapser.Valid() && tile in collapser.g
    requires Collapsing(collapser.g, collapser.rules, collapser.found, collapser.tracker.Tracked())
    requires SettledSoFar(collapser.g, collapser.rules, collapser.tracker.Tracked(), done, tile, 0)
    modifies collapser`found, collapser.tracker.edgeSet.bits
    ensures Collapsing(collapser.g, collapser.rules, collapser.found, collapser.tracker.Tracked())
    ensures SettledSoFar(collapser.g, collapser.rules, collapser.tracker.Tracked(), done, tile,
                         |collapser.g[tile].nodes|)
  {
    hide WellFormed, Symmetric, Settled, SettledSoFar, Collapsing, EdgeTracker.Tracked, EdgeTracker.Valid;
    for i := 0 to |collapser.g[tile].nodes|
      invariant Collapsing(collapser.g, collapser.rules, collapser.found, collapser.tracker.Tracked())
      invariant SettledSoFar(collapser.g, collapser.rules, collapser.tracker.Tracked(), done, tile, i)
    {
      ghost var tracked := collapser.tracker.Tracked();
      ExploreNode(collapser, GraphId(tile, i));
      SettledOneMore(collapser.g, collapser.rules, tracked, collapser.tracker.Tracked(), done, tile, i);
    }
  }

  /** The first pass: explore every node of every tile. */
  method CollapseAll(tiles: seq<TileId>, collapser: EdgeCollapser)
    requires collapser.Valid() && (set t | t in tiles) == collapser.g.Keys
    requires collapser.found == [] && collapser.tracker.Tracked() == {}
    modifies collapser`found, collapser.tracker.edgeSet.bits
    ensures Collapsing(collapser.g, collapser.rules, collapser.found, collapser.tracker.Tracked())
    ensures forall n | ValidNode(collapser.g, n) ::
              Settled(collapser.g, collapser.rules, collapser.tracker.Tracked(), n)
  {
    hide WellFormed, Symmetric, Settled, Collapsing, EdgeTracker.Tracked, EdgeTracker.Valid;
    CollapsingFromNothing(collapser.g, collapser.rules);
    ghost var done: set<TileId> := {};
    for t := 0 to |tiles|
      invariant done == set k | 0 <= k < t :: tiles[k]
      invariant Collapsing(collapser.g, collapser.rules, collapser.found, collapser.tracker.Tracked())
      invariant SettledSoFar(collapser.g, collapser.rules, collapser.tracker.Tracked(), done, INVALID_ID.tile, 0)
    {
      assert tiles[t] in tiles;
      CollapseTile(tiles[t], collapser, done);
      done := done + {tiles[t]};
    }
    assert forall n | n in tiles :: n in done;
  }

  /** The second pass is done with the edge when it has finished the tiles `done` and the first `i`
      edges of tile `tile`. */
  ghost predicate LeftOver(g: Graph, rules: Rules, done: set<TileId>, tile: TileId, i: nat, e: GraphId)
    requires WellFormed(g)
  {
    && ValidEdge(g, e) && rules.allowed(Edge(g, e)) && End(g, e).tile in g
    && (e.tile in done || (e.tile == tile && e.id < i))
  }

  /** The second pass over one tile: what is not tracked becomes a path of one edge. */
  method ReportTile(tile: TileId, g: Graph, rules: Rules, tracker: EdgeTracker, found0: seq<FoundPath>,
                    ghost done: set<TileId>)
    returns (found: seq<FoundPath>)
    requires WellFormed(g) && Symmetric(g, rules) && tile in g && tile !in done
    requires tracker.Valid() && tracker.g == g && tracker.edgesInTiles.Keys == g.Keys
    requires forall n | ValidNode(g, n) :: Settled(g, rules, tracker.Tracked(), n)
    requires Distinct(EdgesFound(found0)) && forall p | p in found0 :: Sound(g, rules, p)
    requires forall e :: e in EdgesFound(found0) <==> e in tracker.Tracked() || LeftOver(g, rules, done, tile, 0, e)
    ensures Distinct(EdgesFound(found)) && forall p | p in found :: Sound(g, rules, p)
    ensures forall e :: e in EdgesFound(found) <==>
              e in tracker.Tracked() || LeftOver(g, rules, done + {tile}, INVALID_ID.tile, 0, e)
  {
    hide WellFormed, Symmetric, Neighbours, Settled, Sound, EdgesFound, Distinct, EdgeTracker.Tracked,
      EdgeTracker.Valid;
    found := found0;
    ghost var tracked := tracker.Tracked();
    for i := 0 to |g[tile].edges|
      invariant Distinct(EdgesFound(found)) && forall p | p in found :: Sound(g, rules, p)
      invariant forall e :: e in EdgesFound(found) <==> e in tracked || LeftOver(g, rules, done, tile, i, e)
    {
      var e := GraphId(tile, i);
      var seen := tracker.Get(e);
      if !seen && rules.allowed(Edge(g, e)) {
        // The start node is where the opposing edge ends; it is not known when the end node's tile is
        // not part of a regional extract.
        if End(g, e).tile in g {
          SingleIsSound(g, rules, tracked, e);
          var path := FoundPath(End(g, RawOpp(g, e)), End(g, e), [e]);
          ReportOne(found, path, e);
          found := found + [path];
        }
      }
    }
  }

  /** The second pass. */
  method ReportSingles(tiles: seq<TileId>, g: Graph, rules: Rules, tracker: EdgeTracker, found0: seq<FoundPath>)
    returns (found: seq<FoundPath>)
    requires WellFormed(g) && Symmetric(g, rules)
    requires tracker.Valid() && tracker.g == g && tracker.edgesInTiles.Keys == g.Keys
    requires (set t | t in tiles) == g.Keys && forall i, j | 0 <= i < j < |tiles| :: tiles[i] != tiles[j]
    requires Collapsing(g, rules, found0, tracker.Tracked())
    requires forall n | ValidNode(g, n) :: Settled(g, rules, tracker.Tracked(), n)
    ensures Distinct(EdgesFound(found)) && forall p | p in found :: Sound(g, rules, p)
    ensures forall e :: e in EdgesFound(found) <==> Reported(g, rules, e)
  {
    hide WellFormed, Symmetric, Neighbours, Settled, Sound, EdgesFound, Distinct, EdgeTracker.Tracked,
      EdgeTracker.Valid;
    found := found0;
    ghost var tracked := tracker.Tracked();
    ghost var done: set<TileId> := {};
    for t := 0 to |tiles|
      invariant done == set k | 0 <= k < t :: tiles[k]
      invariant Distinct(EdgesFound(found)) && forall p | p in found :: Sound(g, rules, p)
      invariant forall e :: e in EdgesFound(found) <==> e in tracked || LeftOver(g, rules, done, INVALID_ID.tile, 0, e)
    {
      assert tiles[t] in tiles;
      found := ReportTile(tiles[t], g, rules, tracker, found, done);
      done := done + {tiles[t]};
    }
    assert forall n | n in tiles :: n in done;
    forall e
      ensures e in EdgesFound(found) <==> Reported(g, rules, e)
    {
      AllReported(g, rules, tracked, e);
    }
  }

  /** Merging is possible at the node: no edge there forbids it, and of its edges exactly two are allowed, which end at
      different nodes. */
  ghost predicate MergesAt(g: Graph, rules: Rules, n: GraphId) {
    && ValidNode(g, n)
    && (forall d | Leaves(g, d, n) && ValidEdge(g, d) :: rules.merges(Edge(g, d)))
    && exists e, f :: AllowedAre(g, rules, n, e, f)
  }

  ghost predicate AllowedAre(g: Graph, rules: Rules, n: GraphId, e: GraphId, f: GraphId)
    requires ValidNode(g, n)
  {
    && Leaves(g, e, n) && ValidEdge(g, e) && Leaves(g, f, n) && ValidEdge(g, f) && End(g, e) != End(g, f)
    && forall d | Leaves(g, d, n) && ValidEdge(g, d) :: rules.allowed(Edge(g, d)) <==> d == e || d == f
  }

  lemma {:induction false} AllowedDistinct(g: Graph, rules: Rules, es: seq<GraphId>)
    requires AllValid(g, es) && forall i, j :: 0 <= i < j < |es| ==> es[i] != es[j]
    ensures forall i, j :: 0 <= i < j < |Allowed(g, rules, es)| ==>
              Allowed(g, rules, es)[i] != Allowed(g, rules, es)[j]
  {
    if es != [] {
      AllowedDistinct(g, rules, es[1..]);
    }
  }

  lemma TwoOfThem(es: seq<GraphId>, e: GraphId, f: GraphId)
    requires e != f && e in es && f in es && forall i | 0 <= i < |es| :: es[i] == e || es[i] == f
    requires forall i, j :: 0 <= i < j < |es| ==> es[i] != es[j]
    ensures es == [e, f] || es == [f, e]
  {
    var i :| 0 <= i < |es| && es[i] == e;
    var j :| 0 <= j < |es| && es[j] == f;
    OneOfTwoPlaces(es, e, f, i, j, 0);
    OneOfTwoPlaces(es, e, f, i, j, 1);
    OneOfTwoPlaces(es, e, f, i, j, |es| - 1);
  }

  lemma OneOfTwoPlaces(es: seq<GraphId>, e: GraphId, f: GraphId, i: nat, j: nat, k: nat)
    requires i < |es| && j < |es| && k < |es| && es[i] == e && es[j] == f && (es[k] == e || es[k] == f)
    requires forall x, y :: 0 <= x < y < |es| ==> es[x] != es[y]
    ensures k == i || k == j
  {
  }

  lemma TwoAllowed(g: Graph, rules: Rules, n: GraphId)
    requires WellFormed(g) && Mergeable(g, rules, n)
    ensures MergesAt(g, rules, n)
  {
    OutEdgesValid(g, n);
    var out := OutEdges(g, n);
    var all := Allowed(g, rules, out);
    hide WellFormed, Allowed, Start;
    assert forall d :: d in out <==> Leaves(g, d, n);
    assert all == [all[0], all[1]];
    assert all[0] in all && all[1] in all;
    assert AllowedAre(g, rules, n, all[0], all[1]);
  }

  lemma AllowedIsTwo(g: Graph, rules: Rules, n: GraphId, e: GraphId, f: GraphId)
    requires WellFormed(g) && ValidNode(g, n) && AllowedAre(g, rules, n, e, f)
    ensures AllValid(g, OutEdges(g, n))
    ensures Allowed(g, rules, OutEdges(g, n)) == [e, f] || Allowed(g, rules, OutEdges(g, n)) == [f, e]
  {
    OutEdgesValid(g, n);
    var out := OutEdges(g, n);
    var all := Allowed(g, rules, out);
    AllowedDistinct(g, rules, out);
    hide WellFormed, Allowed, Start, OutEdges;
    assert e in out && f in out;
    forall i | 0 <= i < |all|
      ensures all[i] == e || all[i] == f
    {
      assert all[i] in all;
    }
    TwoOfThem(all, e, f);
  }

  lemma MergesAtIff(g: Graph, rules: Rules, n: GraphId)
    requires WellFormed(g)
    ensures Mergeable(g, rules, n) <==> MergesAt(g, rules, n)
  {
    hide WellFormed, Allowed, AllowedAre, Start;
    if Mergeable(g, rules, n) {
      TwoAllowed(g, rules, n);
    } else if MergesAt(g, rules, n) {
      var e, f :| AllowedAre(g, rules, n, e, f);
      AllowedIsTwo(g, rules, n, e, f);
      TwoEndsDiffer(g, rules, n, e, f);
    }
  }

  lemma TwoEndsDiffer(g: Graph, rules: Rules, n: GraphId, e: GraphId, f: GraphId)
    requires WellFormed(g) && ValidNode(g, n) && AllowedAre(g, rules, n, e, f)
    requires forall d | Leaves(g, d, n) && ValidEdge(g, d) :: rules.merges(Edge(g, d))
    requires AllValid(g, OutEdges(g, n))
    requires Allowed(g, rules, OutEdges(g, n)) == [e, f] || Allowed(g, rules, OutEdges(g, n)) == [f, e]
    ensures Mergeable(g, rules, n)
  {
    hide WellFormed, Allowed, Start;
  }

  /** What is reported of a path, in terms of the edges at its nodes. */
  ghost predicate RightPath(g: Graph, rules: Rules, p: FoundPath)
    requires WellFormed(g)
  {
    && p.edges != [] && Connects(g, p.start, p.edges, p.end)
    && (forall k | 0 <= k < |p.edges| - 1 :: ValidEdge(g, p.edges[k]) && MergesAt(g, rules, End(g, p.edges[k])))
    && (MergesAt(g, rules, p.end) ==> p.start == p.end)
    && (MergesAt(g, rules, p.start) ==> p.start == p.end || LeavesTiles(g, rules, p.start))
  }

  ghost predicate LeavesTiles(g: Graph, rules: Rules, n: GraphId) {
    exists d :: && ValidNode(g, n) && Leaves(g, d, n) && ValidEdge(g, d) && rules.allowed(Edge(g, d))
                && End(g, d).tile !in g
  }

  lemma NeighbourOutside(g: Graph, rules: Rules, n: GraphId)
    requires WellFormed(g) && Mergeable(g, rules, n)
    requires Neighbours(g, rules, n).value.0.tile !in g || Neighbours(g, rules, n).value.1.tile !in g
    ensures LeavesTiles(g, rules, n)
  {
    OutEdgesValid(g, n);
    var all := Allowed(g, rules, OutEdges(g, n));
    hide WellFormed, Allowed;
    assert all[0] in all && all[1] in all;
  }

  lemma SoundIsRight(g: Graph, rules: Rules, p: FoundPath)
    requires WellFormed(g) && Sound(g, rules, p)
    ensures RightPath(g, rules, p)
  {
    hide WellFormed, MergesAt, Neighbours, Connects, LeavesTiles;
    forall n
      ensures Mergeable(g, rules, n) <==> MergesAt(g, rules, n)
    {
      MergesAtIff(g, rules, n);
    }
    if Mergeable(g, rules, p.start) && p.start != p.end {
      NeighbourOutside(g, rules, p.start);
    }
  }

  lemma PathsAreRight(g: Graph, rules: Rules, found: seq<FoundPath>)
    requires WellFormed(g) && forall p | p in found :: Sound(g, rules, p)
    ensures forall p | p in found :: RightPath(g, rules, p)
    ensures forall e | ValidEdge(g, e) :: Mergeable(g, rules, Start(g, e)) <==> MergesAt(g, rules, Start(g, e))
  {
    hide WellFormed, Sound, RightPath, MergesAt, Neighbours, Start;
    forall p | p in found
      ensures RightPath(g, rules, p)
    {
      SoundIsRight(g, rules, p);
    }
    forall e | ValidEdge(g, e)
      ensures Mergeable(g, rules, Start(g, e)) <==> MergesAt(g, rules, Start(g, e))
    {
      MergesAtIff(g, rules, Start(g, e));
    }
  }

  /** merge: the paths that the user-defined function is called with. Each edge is part of exactly one
      of them, once, if it is allowed and its end node is there; an allowed edge that leaves the tile
      set is reported exactly when merging is possible at its start. */
  method Merge(tiles: seq<TileId>, g: Graph, rules: Rules) returns (found: seq<FoundPath>)
    requires WellFormed(g) && Symmetric(g, rules)
    requires (set t | t in tiles) == g.Keys && forall i, j | 0 <= i < j < |tiles| :: tiles[i] != tiles[j]
    ensures Distinct(EdgesFound(found))
    ensures forall e :: e in EdgesFound(found) <==> Reported(g, rules, e)
    ensures forall p | p in found :: Sound(g, rules, p)
    ensures forall p | p in found :: RightPath(g, rules, p)
    ensures forall e :: e in EdgesFound(found) <==>
              && ValidEdge(g, e) && rules.allowed(Edge(g, e))
              && (End(g, e).tile in g || MergesAt(g, rules, Start(g, e)))
  {
    var tracker := new EdgeTracker.Create(tiles, g);
    var collapser := new EdgeCollapser(g, rules, tracker);
    CollapseAll(tiles, collapser);
    found := ReportSingles(tiles, g, rules, tracker, collapser.found);
    PathsAreRight(g, rules, found);
  }
}
