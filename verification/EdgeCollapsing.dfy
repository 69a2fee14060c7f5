/** edge_collapser and merge: walk the mergeable chains of the graph, report each chain as two paths,
    then report every edge that is left as a path of its own. */
module EdgeCollapsing {
  import opened TileHierarchy
  import opened Wrappers
  import opened RoadGraph
  import opened EdgeTracking
  import opened MergeChains

  /** A path as the user-defined function receives it. */
  datatype FoundPath = FoundPath(start: GraphId, end: GraphId, edges: seq<GraphId>)

  function PathOf(g: Graph, rules: Rules, c: seq<GraphId>): FoundPath
    requires WellFormed(g) && |c| >= 2
  {
    FoundPath(PathStart(g, c), c[|c| - 1], Along(g, rules, c))
  }

  /** The path under construction; a segment can only be joined where it fits. */
  class Path {
    var start: GraphId
    var end: GraphId
    var edges: seq<GraphId>

    constructor AtNode(node: GraphId)
      ensures start == end == node && edges == []
    {
      start, end, edges := node, node, [];
    }

    method PushBack(from: GraphId, edge: GraphId, to: GraphId)
      requires from == end
      modifies this
      ensures start == old(start) && end == to && edges == old(edges) + [edge]
    {
      end := to;
      edges := edges + [edge];
    }

    method PushFront(from: GraphId, edge: GraphId, to: GraphId)
      requires to == start
      modifies this
      ensures start == from && end == old(end) && edges == [edge] + old(edges)
    {
      start := from;
      edges := [edge] + edges;
    }
  }

  class EdgeCollapser {
    const g: Graph
    const rules: Rules
    const tracker: EdgeTracker
    var found: seq<FoundPath>

    ghost predicate Valid() {
      && WellFormed(g) && Symmetric(g, rules)
      && tracker.Valid() && tracker.g == g && tracker.edgesInTiles.Keys == g.Keys
    }

    constructor (g: Graph, rules: Rules, tracker: EdgeTracker)
      requires WellFormed(g) && Symmetric(g, rules)
      requires tracker.Valid() && tracker.g == g && tracker.edgesInTiles.Keys == g.Keys
      ensures Valid() && this.g == g && this.rules == rules && this.tracker == tracker && found == []
    {
      this.g, this.rules, this.tracker, found := g, rules, tracker, [];
    }

    /** The loop over the edges of a node, which leaves early at the first reason to give up. */
    method EndsOf(out: seq<GraphId>) returns (ns: Option<(GraphId, GraphId)>)
      requires AllValid(g, out)
      ensures ns == TwoEnds(g, rules, out)
    {
      hide TwoEnds;
      var first: Option<GraphId>, second: Option<GraphId> := None, None;
      ScanIsTwoEnds(g, rules, out);
      assert out[0..] == out;
      for i := 0 to |out|
        invariant ScanEdges(g, rules, out, None, None) == ScanEdges(g, rules, out[i..], first, second)
      {
        var edge := Edge(g, out[i]);
        assert out[i..][1..] == out[i + 1..];
        if !rules.merges(edge) {
          return None;
        }
        if !rules.allowed(edge) {
          continue;
        }
        if first == Some(edge.endnode) || second == Some(edge.endnode) {
          return None;
        }
        if first.Some? {
          if second.Some? {
            return None;
          } else {
            second := Some(edge.endnode);
          }
        } else {
          first := Some(edge.endnode);
        }
      }
      if first.Some? && second.Some? {
        return Some((first.value, second.value));
      } else {
        return None;
      }
    }

    method NodesReachableFrom(n: GraphId) returns (ns: Option<(GraphId, GraphId)>)
      requires WellFormed(g)
      ensures ns == Neighbours(g, rules, n)
    {
      if !ValidNode(g, n) {
        return None;
      }
      OutEdgesValid(g, n);
      ns := EndsOf(OutEdges(g, n));
    }

    method FindEdgeBetween(cur: GraphId, next: GraphId) returns (e: Option<GraphId>)
      requires WellFormed(g)
      ensures e == EdgeBetween(g, rules, cur, next)
    {
      if !ValidNode(g, cur) {
        return None;
      }
      OutEdgesValid(g, cur);
      var out := OutEdges(g, cur);
      for i := 0 to |out|
        invariant FirstTo(g, rules, out, next) == FirstTo(g, rules, out[i..], next)
      {
        if End(g, out[i]) == next && rules.allowed(Edge(g, out[i])) {
          return Some(out[i]);
        }
        assert out[i..][1..] == out[i + 1..];
      }
      return None;
    }

    /** The requirement is the assertion the original makes about the node it came from. */
    method NextNodeId(last: GraphId, n: GraphId) returns (next: Option<GraphId>)
      requires WellFormed(g)
      requires Mergeable(g, rules, n) ==>
                 var ns := Neighbours(g, rules, n).value; ns.0 == last || ns.1 == last
      ensures next.None? <==> !Mergeable(g, rules, n)
      ensures next.Some? ==> Joins(Neighbours(g, rules, n), last, next.value)
    {
      var nodes := NodesReachableFrom(n);
      if nodes.None? {
        return None;
      }
      OutEdgesValid(g, n);
      if nodes.value.0 == last {
        return Some(nodes.value.1);
      } else {
        return Some(nodes.value.0);
      }
    }

    /** Adds one road to both paths and marks its two halves: the inner block of the walk, which the
        original writes out a second time for the road that closes a loop. False means the road could
        not be found in one of the directions. */
    method AddRoad(prev: GraphId, cur: GraphId, forward: Path, reverse: Path) returns (ok: bool)
      requires Valid() && forward != reverse
      requires forward.end == prev && reverse.start == prev
      requires EdgeBetween(g, rules, prev, cur).Some?
      modifies forward, reverse, tracker.edgeSet.bits
      ensures ok <==> EdgeBetween(g, rules, cur, prev).Some?
      ensures forward.start == old(forward.start) && forward.end == cur
      ensures reverse.end == old(reverse.end) && reverse.start == if ok then cur else prev
      ensures forward.edges == old(forward.edges) + Step(g, rules, prev, cur)
      ensures reverse.edges == Step(g, rules, cur, prev) + old(reverse.edges)
      ensures tracker.Tracked() == old(tracker.Tracked()) + RoadOf(g, rules, prev, cur)
    {
      hide WellFormed, Symmetric, EdgeBetween, EdgeTracker.Tracked, EdgeTracker.Valid;
      EdgeBetweenLeads(g, rules, prev, cur);
      var e1 := FindEdgeBetween(prev, cur);
      if e1.None? {
        return false;
      }
      forward.PushBack(prev, e1.value, cur);
      tracker.Set(e1.value);
      var e2 := FindEdgeBetween(cur, prev);
      if e2.None? {
        return false;
      }
      EdgeBetweenLeads(g, rules, cur, prev);
      reverse.PushFront(cur, e2.value, prev);
      tracker.Set(e2.value);
      return true;
    }

    /** The paths, from what they were at first, follow the nodes walked, and their roads are marked. */
    ghost predicate Laid(forward: Path, reverse: Path, walked: seq<GraphId>, f0: seq<GraphId>, r0: seq<GraphId>,
                         marked0: set<GraphId>)
      requires WellFormed(g)
      reads forward, reverse, tracker.edgeSet.bits
    {
      && forward.edges == f0 + Along(g, rules, walked)
      && reverse.edges == Along(g, rules, Reversed(walked)) + r0
      && tracker.Tracked() == marked0 + EdgesOf(g, rules, walked)
    }

    /** Adds the road from the last of the nodes walked to one more. */
    method AddNext(prev: GraphId, cur: GraphId, forward: Path, reverse: Path, ghost walked: seq<GraphId>,
                   ghost f0: seq<GraphId>, ghost r0: seq<GraphId>, ghost marked0: set<GraphId>) returns (ok: bool)
      requires Valid() && forward != reverse && walked != [] && walked[|walked| - 1] == prev
      requires forward.end == prev && reverse.start == prev && Laid(forward, reverse, walked, f0, r0, marked0)
      requires EdgeBetween(g, rules, prev, cur).Some?
      modifies forward, reverse, tracker.edgeSet.bits
      ensures ok <==> EdgeBetween(g, rules, cur, prev).Some?
      ensures forward.start == old(forward.start) && forward.end == cur
      ensures reverse.end == old(reverse.end) && reverse.start == if ok then cur else prev
      ensures Laid(forward, reverse, walked + [cur], f0, r0, marked0)
    {
      hide WellFormed, Symmetric, EdgeBetween, Along, EdgesOf, RoadOf, Reversed, Step, EdgeTracker.Tracked,
        EdgeTracker.Valid;
      ok := AddRoad(prev, cur, forward, reverse);
      EdgesOfAppend(g, rules, walked, cur);
    }

    /** Walks in one direction and returns true if a loop is found. `us0` is the chain known so far,
        whose last two nodes are `prev0` and `cur0`; on the second walk of a node its far end is where
        the first walk stopped. `walked` are the nodes from `prev0` on. */
    method ExploreFrom(prev0: GraphId, cur0: GraphId, forward: Path, reverse: Path, ghost us0: seq<GraphId>)
      returns (loop: bool, ghost us: seq<GraphId>, ghost walked: seq<GraphId>)
      requires Valid() && forward != reverse
      requires Chain(g, rules, us0) && us0[|us0| - 2] == prev0 && us0[|us0| - 1] == cur0
      requires Mergeable(g, rules, us0[0]) ==> |us0| == 3
      requires forward.end == prev0 && reverse.start == prev0
      modifies forward, reverse, tracker.edgeSet.bits
      ensures Continues(us0, walked, us)
      ensures forward.start == old(forward.start) && forward.end == us[|us| - 1]
      ensures forward.edges == old(forward.edges) + Along(g, rules, walked)
      ensures reverse.end == old(reverse.end) && reverse.start == PathStart(g, Reversed(us))
      ensures reverse.edges == Along(g, rules, Reversed(walked)) + old(reverse.edges)
      ensures tracker.Tracked() == old(tracker.Tracked()) + EdgesOf(g, rules, walked)
      ensures !loop ==> Chain(g, rules, us) && !Mergeable(g, rules, us[|us| - 1])
      ensures loop ==> Mergeable(g, rules, us0[0]) && Complete(g, rules, us[1..])
    {
      hide WellFormed, Symmetric, Neighbours, EdgeBetween, Along, EdgesOf, RoadOf, Chain, Complete, InteriorNodes,
        Reversed, Continues, Step, ValidNode, EdgeTracker.Tracked, EdgeTracker.Valid;
      ghost var f0, r0, marked0 := forward.edges, reverse.edges, tracker.Tracked();
      var prev, cur := prev0, cur0;
      us := us0;
      walked := [prev0];
      NoEdgesAtOneNode(g, rules, prev0);
      ChainTail(g, rules, us0);
      ContinuesFromStart(us0);
      while true
        invariant Chain(g, rules, us) && Continues(us0, walked + [cur], us)
        invariant walked != [] && walked[|walked| - 1] == prev
        invariant forward.start == old(forward.start) && forward.end == prev
        invariant reverse.end == old(reverse.end) && reverse.start == prev
        invariant Laid(forward, reverse, walked, f0, r0, marked0)
        decreases AllNodes(g) - InteriorNodes(us)
      {
        ContinuesOn(us0, walked + [cur], us, cur);
        ReversedEnds(us);
        ChainTail(g, rules, us);
        var ok := AddNext(prev, cur, forward, reverse, walked, f0, r0, marked0);
        walked := walked + [cur];
        if !ok {
          return false, us, walked;
        }
        var maybeNext := NextNodeId(prev, cur);
        if maybeNext.None? {
          return false, us, walked;
        }
        ContinuesOn(us0, walked, us, maybeNext.value);
        WalkGoesOn(g, rules, us, |us0| - 2, maybeNext.value);
        us := us + [maybeNext.value];
        prev, cur := cur, maybeNext.value;
        if cur == prev0 {
          // Loop is detected: add the last road
          ok := AddNext(prev, cur, forward, reverse, walked, f0, r0, marked0);
          walked := walked + [cur];
          ReversedEnds(us);
          return ok, us, walked;
        }
      }
    }

    /** The two walks from a node in the middle of an untracked chain, and the report of both paths. */
    method ExploreBothWays(n: GraphId, first: GraphId, second: GraphId) returns (ghost c: seq<GraphId>)
      requires Valid() && ValidNode(g, n) && Neighbours(g, rules, n) == Some((first, second))
      requires Chain(g, rules, [second, n, first])
      modifies this`found, tracker.edgeSet.bits
      ensures Complete(g, rules, c)
      ensures exists k :: 0 <= k < |c| - 1 && c[k] == n && c[k + 1] == first
      ensures tracker.Tracked() == old(tracker.Tracked()) + EdgesOf(g, rules, c)
      ensures found == old(found) + [PathOf(g, rules, c), PathOf(g, rules, Reversed(c))]
    {
      hide WellFormed, Symmetric, Neighbours, EdgeBetween, Along, EdgesOf, EdgeTracker.Tracked, EdgeTracker.Valid,
        Chain, Reversed, Continues, PathStart;
      // If a loop is detected on the first walk do not walk the other way as it would overlap.
      var forward := new Path.AtNode(n);
      var reverse := new Path.AtNode(n);
      var loop: bool;
      ghost var us, fwd, bwd;
      ghost var us0 := [second, n, first];
      loop, us, fwd := ExploreFrom(n, first, forward, reverse, us0);
      FirstRun(g, us0, fwd, us);
      ReversedEnds(us);
      if loop {
        c := fwd;
      } else {
        ReversedChain(g, rules, us);
        ghost var us2;
        loop, us2, bwd := ExploreFrom(n, second, reverse, forward, Reversed(us));
        ReversedRun(g, us0, fwd, us, Reversed(us), bwd, us2);
        WalksJoin(g, rules, fwd, bwd);
        ReversedEnds(us2);
        ReversedChain(g, rules, us2);
        c := Reversed(us2);
      }
      assert forward.edges == Along(g, rules, c) && reverse.edges == Along(g, rules, Reversed(c));
      assert forward.start == PathStart(g, c) && forward.end == c[|c| - 1];
      assert reverse.start == PathStart(g, Reversed(c)) && reverse.end == Reversed(c)[|c| - 1];
      found := found + [FoundPath(forward.start, forward.end, forward.edges)];
      found := found + [FoundPath(reverse.start, reverse.end, reverse.edges)];
    }

    /** Explores from one node: reports the two mirrored paths of its chain, unless merging at the node
        is impossible or one of its two roads has been reported already. */
    method Explore(n: GraphId) returns (ghost c: seq<GraphId>)
      requires Valid() && AllOrNone(g, rules, tracker.Tracked())
      modifies this`found, tracker.edgeSet.bits
      ensures c == [] ==> found == old(found) && tracker.Tracked() == old(tracker.Tracked())
      ensures c == [] ==> Mergeable(g, rules, n) ==> exists e | Incident(g, rules, e, n) :: e in tracker.Tracked()
      ensures c != [] ==> Complete(g, rules, c) && n in c && EdgesOf(g, rules, c) !! old(tracker.Tracked())
      ensures c != [] ==> tracker.Tracked() == old(tracker.Tracked()) + EdgesOf(g, rules, c)
      ensures c != [] ==> found == old(found) + [PathOf(g, rules, c), PathOf(g, rules, Reversed(c))]
    {
      hide WellFormed, Symmetric, Neighbours, EdgeBetween, Along, EdgesOf, EdgeTracker.Tracked, EdgeTracker.Valid,
        AllOrNone, Reversed, Chain, StepUntracked;
      c := [];
      var nodes := NodesReachableFrom(n);
      if nodes.None? {
        return;
      }
      var first, second := nodes.value.0, nodes.value.1;
      FirstChain(g, rules, n);
      NeighbourHasEdge(g, rules, n, first, second);
      var e1 := FindEdgeBetween(n, first);
      EdgeBetweenLeads(g, rules, n, first);
      var seen := tracker.Get(e1.value);
      if seen {
        assert Incident(g, rules, e1.value, n);
        return;
      }
      var e2 := FindEdgeBetween(n, second);
      EdgeBetweenLeads(g, rules, n, second);
      seen := tracker.Get(e2.value);
      if seen {
        assert Incident(g, rules, e2.value, n);
        return;
      }
      UntrackedSpreads(g, rules, tracker.Tracked(), n, first, second);
      c := ExploreBothWays(n, first, second);
      ghost var k :| 0 <= k < |c| - 1 && c[k] == n && c[k + 1] == first;
      UntrackedChain(g, rules, old(tracker.Tracked()), c, k);
    }
  }
}
