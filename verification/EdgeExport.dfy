/** valhalla_export_edges: greedily grow lines of like-named, connected edges, forward and backward,
    marking both halves of every road it uses. */
module EdgeExport {
  import opened TileHierarchy
  import opened Wrappers
  import opened RoadGraph
  import opened EdgeTracking

  /** The two command line switches. */
  datatype Options = Options(ferries: bool, unnamed: bool)

  /** One output row. */
  datatype Line = Line(edges: seq<GraphId>, names: seq<string>)

  /** An edge the growth of a line may step on. */
  predicate Growable(opts: Options, edge: DirectedEdge) {
    && (opts.ferries || edge.use != Ferry)
    && edge.use != TransitConnection && !edge.IsTransitLine()
  }

  /** What a line may be made of besides its first road: no transit, and no ferry unless ferries are asked for. */
  predicate FitsLine(opts: Options, edge: DirectedEdge, names: seq<string>) {
    && edge.names == names
    && edge.use !in {TransitConnection, RailLine, BusLine} && (edge.use == Ferry ==> opts.ferries)
  }

  /** An edge the growth may step on that leaves the tile set. */
  ghost predicate Stub(g: Graph, opts: Options, b: GraphId) {
    ValidEdge(g, b) && Growable(opts, Edge(g, b)) && End(g, b).tile !in g
  }

  /** Road `h`, which has both halves, meets the stub `b` at its start and has its names. */
  ghost predicate MeetsStub(g: Graph, opts: Options, h: GraphId, b: GraphId)
    requires WellFormed(g) && ValidEdge(g, b)
  {
    && ValidEdge(g, h) && Opposing(g, h).Some? && Growable(opts, Edge(g, h)) && Edge(g, h).names == Edge(g, b).names
    && (Start(g, h) == Start(g, b) || End(g, h) == Start(g, b))
  }

  /** A line could grow onto `b` and out of the tile set, where the original dereferences the missing
      tile. */
  ghost predicate RunsOut(g: Graph, opts: Options, b: GraphId)
    requires WellFormed(g)
  {
    Stub(g, opts, b) && exists h :: MeetsStub(g, opts, h, b)
  }

  predicate Candidate(g: Graph, opts: Options, marked: set<GraphId>, names: seq<string>, e: GraphId) {
    ValidEdge(g, e) && e !in marked && Growable(opts, Edge(g, e)) && Edge(g, e).names == names
  }

  /** No edge that leaves `n` could be added to a line with these names. */
  ghost predicate DeadEnd(g: Graph, opts: Options, marked: set<GraphId>, names: seq<string>, n: GraphId) {
    ValidNode(g, n) && forall e | Leaves(g, e, n) :: !Candidate(g, opts, marked, names, e)
  }

  ghost predicate SameRoad(g: Graph, e: GraphId, h: GraphId)
    requires WellFormed(g)
  {
    ValidEdge(g, e) && (h == e || Opposing(g, e) == Some(h))
  }

  /** No road occurs twice, in either direction. */
  ghost predicate RoadsDistinct(g: Graph, es: seq<GraphId>)
    requires WellFormed(g)
  {
    forall i, j | 0 <= i < j < |es| :: !SameRoad(g, es[i], es[j])
  }

  /** Both halves of every edge in `es` exist and are marked. */
  ghost predicate BothMarked(g: Graph, marked: set<GraphId>, es: seq<GraphId>)
    requires WellFormed(g)
  {
    forall e | e in es ::
      ValidEdge(g, e) && Opposing(g, e).Some? && e in marked && Opposing(g, e).value in marked
  }

  /** The halves of a road are marked together, unless one is a transit connection. */
  ghost predicate MarkedInPairs(g: Graph, marked: set<GraphId>)
    requires WellFormed(g)
  {
    forall e | e in marked ::
      ValidEdge(g, e) && (Opposing(g, e).Some? && Edge(g, e).use != TransitConnection ==>
                            Opposing(g, e).value in marked)
  }

  /** The edge, one way or the other, is one the growth may step on and carries the line's names. */
  ghost predicate Belongs(g: Graph, opts: Options, names: seq<string>, e: GraphId)
    requires WellFormed(g)
  {
    exists h :: SameRoad(g, e, h) && ValidEdge(g, h) && Growable(opts, Edge(g, h)) && Edge(g, h).names == names
  }

  /** A line runs head to tail from `a` to `b`, and all its roads belong to it. */
  ghost predicate LineFrom(g: Graph, opts: Options, line: Line, a: GraphId, b: GraphId)
    requires WellFormed(g)
  {
    && line.edges != [] && Connects(g, a, line.edges, b)
    && forall e | e in line.edges :: Belongs(g, opts, line.names, e)
  }

  lemma {:induction false} ConnectsStart(g: Graph, a: GraphId, es: seq<GraphId>, b: GraphId)
    requires WellFormed(g) && Connects(g, a, es, b) && es != []
    ensures ValidEdge(g, es[0]) && a == Start(g, es[0])
    ensures ValidEdge(g, es[|es| - 1]) && b == End(g, es[|es| - 1])
    decreases es
  {
    if |es| > 1 {
      ConnectsStart(g, End(g, es[0]), es[1..], b);
    }
  }

  /** One road more, at whatever place in the sequence. */
  lemma InsertRoad(g: Graph, marked: set<GraphId>, before: seq<GraphId>, e: GraphId, after: seq<GraphId>)
    requires WellFormed(g) && RoadsDistinct(g, before + after) && BothMarked(g, marked, before + after)
    requires ValidEdge(g, e) && Opposing(g, e).Some?
    requires e !in marked || Opposing(g, e).value !in marked
    ensures RoadsDistinct(g, before + [e] + after)
  {
    hide WellFormed, Opposing;
    var rest, all := before + after, before + [e] + after;
    OpposingTurnsAround(g, e);
    forall x | x in rest
      ensures !SameRoad(g, x, e) && !SameRoad(g, e, x)
    {
      OpposingTurnsAround(g, x);
    }
    forall i, j | 0 <= i < j < |all|
      ensures !SameRoad(g, all[i], all[j])
    {
      var i' := if i < |before| then i else i - 1;
      var j' := if j < |before| then j else j - 1;
      if i == |before| {
        assert all[j] == rest[j'];
      } else if j == |before| {
        assert all[i] == rest[i'];
      } else {
        assert all[i] == rest[i'] && all[j] == rest[j'];
      }
    }
  }

  lemma InsertMarked(g: Graph, marked: set<GraphId>, before: seq<GraphId>, e: GraphId, after: seq<GraphId>)
    requires WellFormed(g) && BothMarked(g, marked, before + after)
    requires ValidEdge(g, e) && Opposing(g, e).Some?
    ensures BothMarked(g, marked + {e, Opposing(g, e).value}, before + [e] + after)
  {
    hide WellFormed;
    var all := before + [e] + after;
    forall x | x in all && x != e
      ensures x in before + after
    {
    }
  }

  /** None of the line's roads was a candidate to continue an earlier line: when the line was begun,
      with the edges `earlier` marked, whichever half could be grown onto was unmarked. */
  ghost predicate BegunAfter(g: Graph, opts: Options, earlier: set<GraphId>, es: seq<GraphId>)
    requires WellFormed(g)
  {
    forall e, h | e in es && SameRoad(g, e, h) && ValidEdge(g, h) && Growable(opts, Edge(g, h)) :: h !in earlier
  }

  lemma BegunBoth(g: Graph, opts: Options, earlier: set<GraphId>, es: seq<GraphId>, fs: seq<GraphId>)
    requires WellFormed(g)
    ensures BegunAfter(g, opts, earlier, es) && BegunAfter(g, opts, earlier, fs) ==>
              BegunAfter(g, opts, earlier, es + fs)
  {
    hide WellFormed;
  }

  lemma NewRoad(g: Graph, opts: Options, earlier: set<GraphId>, e: GraphId)
    requires WellFormed(g) && MarkedInPairs(g, earlier)
    requires ValidEdge(g, e) && e !in earlier && Opposing(g, e).Some?
    ensures BegunAfter(g, opts, earlier, [e]) && BegunAfter(g, opts, earlier, [Opposing(g, e).value])
  {
    OpposingTurnsAround(g, e);
    hide WellFormed;
  }

  ghost predicate InSome(g: Graph, es: seq<GraphId>, e: GraphId)
    requires WellFormed(g)
  {
    exists x | x in es :: SameRoad(g, x, e)
  }

  /** Everything marked since the line was begun belongs to one of its roads. */
  ghost predicate AccountedFor(g: Graph, earlier: set<GraphId>, marked: set<GraphId>, es: seq<GraphId>)
    requires WellFormed(g)
  {
    forall e | e in marked && e !in earlier :: InSome(g, es, e)
  }

  lemma AccountForRoad(g: Graph, earlier: set<GraphId>, marked: set<GraphId>, es: seq<GraphId>, fs: seq<GraphId>,
                       e: GraphId)
    requires WellFormed(g) && AccountedFor(g, earlier, marked, es) && ValidEdge(g, e) && Opposing(g, e).Some?
    requires forall x | x in es :: x in fs
    requires e in fs || Opposing(g, e).value in fs
    ensures AccountedFor(g, earlier, marked + {e, Opposing(g, e).value}, fs)
  {
    OpposingTurnsAround(g, e);
    var o := Opposing(g, e).value;
    assert SameRoad(g, e, e) && SameRoad(g, e, o) && SameRoad(g, o, o) && SameRoad(g, o, e);
    hide WellFormed, SameRoad;
  }

  /** The state of a line while it grows: `flat` are the roads of the finished lines. */
  ghost predicate Growing(g: Graph, opts: Options, earlier: set<GraphId>, marked: set<GraphId>, flat: seq<GraphId>,
                          line: Line, a: GraphId, b: GraphId)
    requires WellFormed(g)
  {
    && LineFrom(g, opts, line, a, b)
    && MarkedInPairs(g, earlier) && MarkedInPairs(g, marked) && earlier <= marked
    && RoadsDistinct(g, flat + line.edges) && BothMarked(g, marked, flat + line.edges)
    && BegunAfter(g, opts, earlier, line.edges) && AccountedFor(g, earlier, marked, line.edges)
  }

  lemma MarkRoad(g: Graph, marked: set<GraphId>, e: GraphId)
    requires WellFormed(g) && MarkedInPairs(g, marked) && ValidEdge(g, e) && Opposing(g, e).Some?
    ensures MarkedInPairs(g, marked + {e, Opposing(g, e).value})
  {
    OpposingTurnsAround(g, e);
    hide WellFormed;
  }

  lemma PushBackRoad(g: Graph, opts: Options, earlier: set<GraphId>, marked: set<GraphId>, flat: seq<GraphId>,
                     line: Line, a: GraphId, b: GraphId, e: GraphId)
    requires WellFormed(g) && Growing(g, opts, earlier, marked, flat, line, a, b)
    requires Candidate(g, opts, marked, line.names, e) && Start(g, e) == b && Opposing(g, e).Some?
    ensures Growing(g, opts, earlier, marked + {e, Opposing(g, e).value}, flat,
                    Line(line.edges + [e], line.names), a, End(g, e))
  {
    hide WellFormed, Start, RoadsDistinct, BothMarked, BegunAfter, AccountedFor, MarkedInPairs;
    BegunBoth(g, opts, earlier, line.edges, [e]);
    var es := line.edges + [e];
    assert flat + es == (flat + line.edges) + [e] + [];
    assert (flat + line.edges) + [] == flat + line.edges;
    InsertRoad(g, marked, flat + line.edges, e, []);
    InsertMarked(g, marked, flat + line.edges, e, []);
    MarkRoad(g, marked, e);
    NewRoad(g, opts, earlier, e);
    AccountForRoad(g, earlier, marked, line.edges, es, e);
    assert Connects(g, End(g, e), [e][1..], End(g, e));
    ConnectsAppend(g, a, line.edges, b, [e], End(g, e));
    assert SameRoad(g, e, e) && Belongs(g, opts, line.names, e);
  }

  lemma PushFrontRoad(g: Graph, opts: Options, earlier: set<GraphId>, marked: set<GraphId>, flat: seq<GraphId>,
                      line: Line, a: GraphId, b: GraphId, e: GraphId)
    requires WellFormed(g) && Growing(g, opts, earlier, marked, flat, line, a, b)
    requires Candidate(g, opts, marked, line.names, e) && Start(g, e) == a && Opposing(g, e).Some?
    ensures Growing(g, opts, earlier, marked + {e, Opposing(g, e).value}, flat,
                    Line([Opposing(g, e).value] + line.edges, line.names), End(g, e), b)
  {
    hide WellFormed, Start, Opposing, RoadsDistinct, BothMarked, BegunAfter, AccountedFor, MarkedInPairs;
    OpposingTurnsAround(g, e);
    var o := Opposing(g, e).value;
    BegunBoth(g, opts, earlier, [o], line.edges);
    var es := [o] + line.edges;
    assert flat + es == flat + [o] + line.edges;
    InsertRoad(g, marked, flat, o, line.edges);
    InsertMarked(g, marked, flat, o, line.edges);
    MarkRoad(g, marked, e);
    NewRoad(g, opts, earlier, e);
    AccountForRoad(g, earlier, marked, line.edges, es, e);
    assert marked + {o, e} == marked + {e, o};
    assert es[1..] == line.edges;
    assert SameRoad(g, o, e) && Belongs(g, opts, line.names, o);
  }

  lemma DeadEndStays(g: Graph, opts: Options, marked: set<GraphId>, more: set<GraphId>, names: seq<string>, n: GraphId)
    requires DeadEnd(g, opts, marked, names, n) && marked <= more
    ensures DeadEnd(g, opts, more, names, n)
  {
  }

  /** The tests that skip an edge at the node, in their order. */
  method Fits(tracker: EdgeTracker, g: Graph, opts: Options, id: GraphId, names: seq<string>) returns (fits: bool)
    requires tracker.Valid() && tracker.g == g && tracker.edgesInTiles.Keys == g.Keys && ValidEdge(g, id)
    ensures fits <==> Candidate(g, opts, tracker.Tracked(), names, id)
  {
    hide EdgeTracker.Tracked, EdgeTracker.Valid;
    var used := tracker.Get(id);
    if used {
      return false;
    }
    var candidate := Edge(g, id);
    if !opts.ferries && candidate.use == Ferry {
      return false;
    }
    if candidate.use == TransitConnection || candidate.IsTransitLine() {
      return false;
    }
    fits := names == candidate.names;
  }

  /** The candidate with the lowest number of those that leave `n`. */
  ghost predicate FirstCandidate(g: Graph, opts: Options, marked: set<GraphId>, names: seq<string>, n: GraphId,
                                 e: GraphId)
    requires ValidNode(g, n)
  {
    && Leaves(g, e, n) && Candidate(g, opts, marked, names, e)
    && forall d | Leaves(g, d, n) && d.id < e.id :: !Candidate(g, opts, marked, names, d)
  }

  /** The first edge, unmarked and fitting, that leaves the end of `edge`. */
  method Next(tracker: EdgeTracker, g: Graph, opts: Options, edge: GraphId, names: seq<string>)
    returns (next: Option<GraphId>)
    requires WellFormed(g) && tracker.Valid() && tracker.g == g && tracker.edgesInTiles.Keys == g.Keys
    requires ValidEdge(g, edge) && End(g, edge).tile in g
    ensures ValidNode(g, End(g, edge))
    ensures next.None? ==> DeadEnd(g, opts, tracker.Tracked(), names, End(g, edge))
    ensures next.Some? ==> FirstCandidate(g, opts, tracker.Tracked(), names, End(g, edge), next.value)
    ensures next.Some? ==> ValidEdge(g, next.value) && Start(g, next.value) == End(g, edge)
  {
    hide WellFormed, EdgeTracker.Tracked, EdgeTracker.Valid, Candidate, Start, ValidEdge, ValidNode;
    EndIsNode(g, edge);
    var n := End(g, edge);
    OutEdgesValid(g, n);
    var first := Node(g, n).edgeIndex;
    for i := 0 to Node(g, n).edgeCount
      invariant forall e | Leaves(g, e, n) && e.id < first + i :: !Candidate(g, opts, tracker.Tracked(), names, e)
    {
      var id := GraphId(n.tile, first + i);
      assert Leaves(g, id, n);
      var fits := Fits(tracker, g, opts, id, names);
      if fits {
        return Some(id);
      }
    }
    return None;
  }

  lemma GrownEdge(g: Graph, opts: Options, e: GraphId)
    requires WellFormed(g) && ValidEdge(g, e) && Growable(opts, Edge(g, e))
    ensures Opposing(g, e).None? ==> Stub(g, opts, e)
    ensures Opposing(g, e).Some? ==> ValidEdge(g, Opposing(g, e).value) && End(g, e).tile in g
  {
    if Opposing(g, e).Some? {
      OpposingTurnsAround(g, e);
    }
  }

  /** Marks a road that the line has stepped on; an edge without an opposing one is marked alone. */
  method MarkBoth(tracker: EdgeTracker, g: Graph, opts: Options, e: GraphId) returns (other: Option<GraphId>)
    requires WellFormed(g) && tracker.Valid() && tracker.g == g && tracker.edgesInTiles.Keys == g.Keys
    requires ValidEdge(g, e) && Growable(opts, Edge(g, e))
    modifies tracker.edgeSet.bits
    ensures other == Opposing(g, e)
    ensures tracker.Tracked() == old(tracker.Tracked()) + if other.Some? then {e, other.value} else {e}
    ensures other.None? ==> Stub(g, opts, e)
    ensures other.Some? ==> End(g, e).tile in g
  {
    hide WellFormed, Start, Opposing, EdgeTracker.Tracked, EdgeTracker.Valid, Stub;
    GrownEdge(g, opts, e);
    tracker.Set(e);
    other := Opposing(g, e);
    if other.Some? {
      tracker.Set(other.value);
    }
  }

  /** The first and the last road of a line meet every stub at its ends that the line could grow onto. */
  lemma EndsMeetStub(g: Graph, opts: Options, earlier: set<GraphId>, marked: set<GraphId>, flat: seq<GraphId>,
                     line: Line, a: GraphId, b: GraphId, e: GraphId)
    requires WellFormed(g) && Growing(g, opts, earlier, marked, flat, line, a, b)
    requires Stub(g, opts, e) && Edge(g, e).names == line.names && (Start(g, e) == a || Start(g, e) == b)
    ensures RunsOut(g, opts, e)
  {
    hide WellFormed, Start, Opposing, RoadsDistinct, BegunAfter, AccountedFor, MarkedInPairs, Connects;
    ConnectsStart(g, a, line.edges, b);
    var x := if Start(g, e) == a then line.edges[0] else line.edges[|line.edges| - 1];
    assert x in flat + line.edges && Belongs(g, opts, line.names, x);
    var h :| SameRoad(g, x, h) && ValidEdge(g, h) && Growable(opts, Edge(g, h)) && Edge(g, h).names == line.names;
    OpposingTurnsAround(g, x);
    assert MeetsStub(g, opts, h, e);
  }

  /** Grows the line at its end. When it steps on an edge that leaves the tile set, `out`, the original
      goes on from there and dereferences a missing tile. */
  method GrowForward(tracker: EdgeTracker, g: Graph, opts: Options, edges0: seq<GraphId>, names: seq<string>,
                     ghost earlier: set<GraphId>, ghost flat: seq<GraphId>, ghost a: GraphId)
    returns (edges: seq<GraphId>, out: Option<GraphId>)
    requires WellFormed(g) && tracker.Valid() && tracker.g == g && tracker.edgesInTiles.Keys == g.Keys
    requires edges0 != [] && ValidEdge(g, edges0[|edges0| - 1]) && End(g, edges0[|edges0| - 1]).tile in g
    requires Growing(g, opts, earlier, tracker.Tracked(), flat, Line(edges0, names), a, End(g, edges0[|edges0| - 1]))
    modifies tracker.edgeSet.bits
    ensures edges0 <= edges && ValidEdge(g, edges[|edges| - 1]) && old(tracker.Tracked()) <= tracker.Tracked()
    ensures out.None? ==>
              Growing(g, opts, earlier, tracker.Tracked(), flat, Line(edges, names), a, End(g, edges[|edges| - 1]))
    ensures out.None? ==> DeadEnd(g, opts, tracker.Tracked(), names, End(g, edges[|edges| - 1]))
    ensures out.Some? ==> RunsOut(g, opts, out.value) && out.value !in old(tracker.Tracked())
  {
    hide WellFormed, Growing, DeadEnd, EdgeTracker.Tracked, EdgeTracker.Valid, Start, Opposing, Stub, RunsOut;
    edges := edges0;
    var edge := edges0[|edges0| - 1];
    while true
      invariant edges0 <= edges && edge == edges[|edges| - 1]
      invariant ValidEdge(g, edge) && End(g, edge).tile in g && old(tracker.Tracked()) <= tracker.Tracked()
      invariant Growing(g, opts, earlier, tracker.Tracked(), flat, Line(edges, names), a, End(g, edge))
      decreases AllEdges(g) - tracker.Tracked()
    {
      var next := Next(tracker, g, opts, edge, names);
      if next.None? {
        return edges, None;
      }
      ghost var marked := tracker.Tracked();
      var other := MarkBoth(tracker, g, opts, next.value);
      if other.None? {
        EndsMeetStub(g, opts, earlier, marked, flat, Line(edges, names), a, End(g, edge), next.value);
        return edges, next;
      }
      PushBackRoad(g, opts, earlier, marked, flat, Line(edges, names), a, End(g, edge), next.value);
      edge := next.value;
      edges := edges + [edge];
    }
  }

  method GrowBackward(tracker: EdgeTracker, g: Graph, opts: Options, opposing: GraphId, edges0: seq<GraphId>,
                      names: seq<string>, ghost earlier: set<GraphId>, ghost flat: seq<GraphId>, ghost b: GraphId)
    returns (edges: seq<GraphId>, out: Option<GraphId>, ghost a: GraphId)
    requires WellFormed(g) && tracker.Valid() && tracker.g == g && tracker.edgesInTiles.Keys == g.Keys
    requires ValidEdge(g, opposing) && End(g, opposing).tile in g
    requires Growing(g, opts, earlier, tracker.Tracked(), flat, Line(edges0, names), End(g, opposing), b)
    modifies tracker.edgeSet.bits
    ensures old(tracker.Tracked()) <= tracker.Tracked() && forall e | e in edges0 :: e in edges
    ensures out.None? ==> Growing(g, opts, earlier, tracker.Tracked(), flat, Line(edges, names), a, b)
    ensures out.None? ==> DeadEnd(g, opts, tracker.Tracked(), names, a)
    ensures out.Some? ==> RunsOut(g, opts, out.value) && out.value !in old(tracker.Tracked())
  {
    hide WellFormed, Growing, DeadEnd, EdgeTracker.Tracked, EdgeTracker.Valid, Start, Opposing, Stub, RunsOut;
    edges := edges0;
    var edge := opposing;
    a := End(g, edge);
    while true
      invariant ValidEdge(g, edge) && End(g, edge).tile in g && a == End(g, edge)
      invariant old(tracker.Tracked()) <= tracker.Tracked() && forall e | e in edges0 :: e in edges
      invariant Growing(g, opts, earlier, tracker.Tracked(), flat, Line(edges, names), a, b)
      decreases AllEdges(g) - tracker.Tracked()
    {
      var next := Next(tracker, g, opts, edge, names);
      if next.None? {
        return edges, None, a;
      }
      ghost var marked := tracker.Tracked();
      var other := MarkBoth(tracker, g, opts, next.value);
      if other.None? {
        EndsMeetStub(g, opts, earlier, marked, flat, Line(edges, names), a, b, next.value);
        return edges, next, a;
      }
      PushFrontRoad(g, opts, earlier, marked, flat, Line(edges, names), a, b, next.value);
      edge := next.value;
      a := End(g, edge);
      edges := [other.value] + edges;
    }
  }

  // ---------------------------------------------------------------------------------------------
  // All lines

  function Flat(lines: seq<Line>): seq<GraphId> {
    if lines == [] then [] else Flat(lines[..|lines| - 1]) + lines[|lines| - 1].edges
  }

  /** What the program means to export: a road, not a shortcut or a transit edge, with a name, and no
      ferry, unless the switches say otherwise. */
  ghost predicate Exportable(g: Graph, opts: Options, e: GraphId)
    requires WellFormed(g)
  {
    && ValidEdge(g, e) && Opposing(g, e).Some? && !Edge(g, e).isShortcut
    && Edge(g, e).use != TransitConnection && (opts.ferries || Edge(g, e).use != Ferry)
    && (opts.unnamed || Edge(g, e).names != [])
  }

  /** The main loop has come by edge `b` when it is at edge number i of tile number t. */
  ghost predicate Visited(tiles: seq<TileId>, t: nat, i: nat, b: GraphId)
    requires t <= |tiles|
  {
    b.tile in tiles[..t] || (t < |tiles| && b.tile == tiles[t] && b.id < i)
  }

  /** The main loop comes by `a` before it has come by `b`. */
  ghost predicate ComesFirst(tiles: seq<TileId>, a: GraphId, b: GraphId) {
    exists t: nat :: t < |tiles| && tiles[t] == a.tile && !Visited(tiles, t, a.id, b)
  }

  /** Where the main loop comes by this half of an unmarked road, it marks both halves and makes no line. */
  ghost predicate PassedOver(g: Graph, opts: Options, o: GraphId)
    requires WellFormed(g)
  {
    ValidEdge(g, o) && Opposing(g, o).Some? && Edge(g, o).use != TransitConnection && !Exportable(g, opts, o)
  }

  /** The other half of the road is passed over and comes first. */
  ghost predicate LeftOut(g: Graph, opts: Options, tiles: seq<TileId>, e: GraphId)
    requires WellFormed(g) && ValidEdge(g, e) && Opposing(g, e).Some?
  {
    PassedOver(g, opts, Opposing(g, e).value) && ComesFirst(tiles, Opposing(g, e).value, e)
  }

  ghost predicate Covered(g: Graph, opts: Options, tiles: seq<TileId>, marked: set<GraphId>, flat: seq<GraphId>)
    requires WellFormed(g)
  {
    forall e | e in marked && Exportable(g, opts, e) :: InSome(g, flat, e) || LeftOut(g, opts, tiles, e)
  }

  ghost predicate WellMade(g: Graph, opts: Options, l: Line)
    requires WellFormed(g)
  {
    && l.edges != [] && ValidEdge(g, l.edges[0]) && ValidEdge(g, l.edges[|l.edges| - 1])
    && LineFrom(g, opts, l, Start(g, l.edges[0]), End(g, l.edges[|l.edges| - 1]))
  }

  ghost predicate Finished(g: Graph, opts: Options, marked: set<GraphId>, l: Line)
    requires WellFormed(g)
  {
    && WellMade(g, opts, l)
    && DeadEnd(g, opts, marked, l.names, Start(g, l.edges[0]))
    && DeadEnd(g, opts, marked, l.names, End(g, l.edges[|l.edges| - 1]))
  }

  /** No road of the later line could have been grown onto either end of the earlier one. */
  ghost predicate Greedy(g: Graph, opts: Options, early: Line, late: Line)
    requires WellFormed(g)
  {
    WellMade(g, opts, early) &&
    forall e, h | e in late.edges && SameRoad(g, e, h) && ValidEdge(g, h) && Growable(opts, Edge(g, h))
                  && Edge(g, h).names == early.names ::
      Start(g, h) != Start(g, early.edges[0]) && Start(g, h) != End(g, early.edges[|early.edges| - 1])
  }

  ghost predicate AllGreedy(g: Graph, opts: Options, lines: seq<Line>)
    requires WellFormed(g)
  {
    forall i, j | 0 <= i < j < |lines| :: Greedy(g, opts, lines[i], lines[j])
  }

  ghost predicate Exporting(g: Graph, opts: Options, tiles: seq<TileId>, marked: set<GraphId>, lines: seq<Line>)
    requires WellFormed(g)
  {
    && MarkedInPairs(g, marked) && RoadsDistinct(g, Flat(lines)) && BothMarked(g, marked, Flat(lines))
    && (forall l | l in lines :: Finished(g, opts, marked, l))
    && AllGreedy(g, opts, lines)
    && Covered(g, opts, tiles, marked, Flat(lines))
  }

  lemma LaterIsGreedy(g: Graph, opts: Options, earlier: set<GraphId>, early: Line, late: Line)
    requires WellFormed(g) && Finished(g, opts, earlier, early) && BegunAfter(g, opts, earlier, late.edges)
    ensures Greedy(g, opts, early, late)
  {
    hide WellFormed, LineFrom;
    forall e, h | e in late.edges && SameRoad(g, e, h) && ValidEdge(g, h) && Growable(opts, Edge(g, h))
                  && Edge(g, h).names == early.names
      ensures Start(g, h) != Start(g, early.edges[0]) && Start(g, h) != End(g, early.edges[|early.edges| - 1])
    {
      assert h !in earlier && Candidate(g, opts, earlier, early.names, h);
    }
  }

  lemma FinishedStays(g: Graph, opts: Options, marked: set<GraphId>, more: set<GraphId>, lines: seq<Line>)
    requires WellFormed(g) && marked <= more && forall l | l in lines :: Finished(g, opts, marked, l)
    ensures forall l | l in lines :: Finished(g, opts, more, l)
  {
    hide WellFormed, LineFrom;
  }

  /** Every edge that the main loop has come by is marked. */
  ghost predicate VisitedMarked(g: Graph, tiles: seq<TileId>, t: nat, i: nat, marked: set<GraphId>)
    requires t <= |tiles|
  {
    forall b | ValidEdge(g, b) && Visited(tiles, t, i, b) :: b in marked
  }

  /** The other half of a road that is passed over now had not been come by. */
  lemma OtherHalfLater(g: Graph, opts: Options, tiles: seq<TileId>, t: nat, marked: set<GraphId>, o: GraphId,
                       e: GraphId)
    requires WellFormed(g) && MarkedInPairs(g, marked) && t < |tiles| && tiles[t] == o.tile
    requires ValidEdge(g, o) && o !in marked && VisitedMarked(g, tiles, t, o.id, marked)
    requires Opposing(g, o) == Some(e) && Exportable(g, opts, e) && PassedOver(g, opts, o)
    ensures LeftOut(g, opts, tiles, e)
  {
    OpposingTurnsAround(g, o);
    hide WellFormed, Opposing;
    assert !Visited(tiles, t, o.id, e);
  }

  /** Marking an edge, or both halves of a road, of which the main loop makes no line. */
  lemma SkipRoad(g: Graph, opts: Options, tiles: seq<TileId>, t: nat, marked: set<GraphId>, more: set<GraphId>,
                 lines: seq<Line>, e: GraphId)
    requires WellFormed(g) && Exporting(g, opts, tiles, marked, lines) && ValidEdge(g, e) && !Exportable(g, opts, e)
    requires t < |tiles| && tiles[t] == e.tile && e !in marked && VisitedMarked(g, tiles, t, e.id, marked)
    requires more == marked + if Opposing(g, e).Some? && Edge(g, e).use != TransitConnection
                              then {e, Opposing(g, e).value} else {e}
    ensures Exporting(g, opts, tiles, more, lines)
  {
    hide WellFormed, Finished, Flat, AllGreedy, RoadsDistinct, Opposing, Start, VisitedMarked, LeftOut, Exportable;
    FinishedStays(g, opts, marked, more, lines);
    if Opposing(g, e).Some? {
      OpposingTurnsAround(g, e);
      MarkRoad(g, marked, e);
      if Edge(g, e).use != TransitConnection && Exportable(g, opts, Opposing(g, e).value) {
        OtherHalfLater(g, opts, tiles, t, marked, e, Opposing(g, e).value);
      }
    }
  }

  lemma FlatAppend(lines: seq<Line>, l: Line)
    ensures Flat(lines + [l]) == Flat(lines) + l.edges
  {
    assert (lines + [l])[..|lines|] == lines;
  }

  lemma GreedyAppend(g: Graph, opts: Options, marked: set<GraphId>, lines: seq<Line>, l: Line)
    requires WellFormed(g) && AllGreedy(g, opts, lines) && BegunAfter(g, opts, marked, l.edges)
    requires forall k | k in lines :: Finished(g, opts, marked, k)
    ensures AllGreedy(g, opts, lines + [l])
  {
    hide WellFormed, LineFrom, DeadEnd, BegunAfter, Greedy;
    var all := lines + [l];
    forall i, j | 0 <= i < j < |all|
      ensures Greedy(g, opts, all[i], all[j])
    {
      assert all[i] == lines[i];
      if j == |lines| {
        LaterIsGreedy(g, opts, marked, lines[i], l);
      } else {
        assert all[j] == lines[j];
      }
    }
  }

  lemma CoverMore(g: Graph, opts: Options, tiles: seq<TileId>, earlier: set<GraphId>, marked: set<GraphId>,
                  flat: seq<GraphId>, es: seq<GraphId>)
    requires WellFormed(g) && Covered(g, opts, tiles, earlier, flat) && AccountedFor(g, earlier, marked, es)
    ensures Covered(g, opts, tiles, marked, flat + es)
  {
    hide WellFormed, SameRoad, LeftOut, Opposing;
    forall e | e in marked && Exportable(g, opts, e)
      ensures InSome(g, flat + es, e) || LeftOut(g, opts, tiles, e)
    {
      if !LeftOut(g, opts, tiles, e) {
        var x :| x in flat + es && SameRoad(g, x, e);
      }
    }
  }

  lemma AddLine(g: Graph, opts: Options, tiles: seq<TileId>, earlier: set<GraphId>, marked: set<GraphId>,
                lines: seq<Line>, l: Line, a: GraphId, b: GraphId)
    requires WellFormed(g) && Exporting(g, opts, tiles, earlier, lines)
    requires Growing(g, opts, earlier, marked, Flat(lines), l, a, b)
    requires DeadEnd(g, opts, marked, l.names, a) && DeadEnd(g, opts, marked, l.names, b)
    ensures Exporting(g, opts, tiles, marked, lines + [l])
  {
    ConnectsStart(g, a, l.edges, b);
    assert Finished(g, opts, marked, l);
    hide WellFormed, DeadEnd, BegunAfter, Greedy, RoadsDistinct, BothMarked, LineFrom, Finished, AccountedFor,
      Covered, MarkedInPairs, AllGreedy;
    FlatAppend(lines, l);
    FinishedStays(g, opts, earlier, marked, lines);
    GreedyAppend(g, opts, earlier, lines, l);
    CoverMore(g, opts, tiles, earlier, marked, Flat(lines), l.edges);
  }

  lemma BeginLine(g: Graph, opts: Options, marked: set<GraphId>, flat: seq<GraphId>, e: GraphId)
    requires WellFormed(g) && MarkedInPairs(g, marked) && RoadsDistinct(g, flat) && BothMarked(g, marked, flat)
    requires ValidEdge(g, e) && e !in marked && Opposing(g, e).Some? && Growable(opts, Edge(g, e))
    ensures Growing(g, opts, marked, marked + {e, Opposing(g, e).value}, flat, Line([e], Edge(g, e).names),
                    Start(g, e), End(g, e))
  {
    hide WellFormed, Start, RoadsDistinct, BothMarked, BegunAfter, AccountedFor, MarkedInPairs;
    assert flat + [] == flat && flat + [e] + [] == flat + [e];
    InsertRoad(g, marked, flat, e, []);
    InsertMarked(g, marked, flat, e, []);
    MarkRoad(g, marked, e);
    NewRoad(g, opts, marked, e);
    NothingYet(g, marked);
    AccountForRoad(g, marked, marked, [], [e], e);
    assert Connects(g, End(g, e), [e][1..], End(g, e));
    assert SameRoad(g, e, e) && Belongs(g, opts, Edge(g, e).names, e);
  }

  lemma NothingYet(g: Graph, marked: set<GraphId>)
    requires WellFormed(g)
    ensures AccountedFor(g, marked, marked, [])
  {
  }

  /** Every stub that could continue the line at either end was marked before the line was begun. */
  ghost predicate StubsMarked(g: Graph, opts: Options, earlier: set<GraphId>, l: Line)
    requires WellFormed(g)
  {
    WellMade(g, opts, l) && forall b | StubAtEnds(g, opts, l, b) :: b in earlier
  }

  ghost predicate StubAtEnds(g: Graph, opts: Options, l: Line, b: GraphId)
    requires WellFormed(g) && WellMade(g, opts, l)
  {
    && Stub(g, opts, b) && Edge(g, b).names == l.names
    && (Start(g, b) == Start(g, l.edges[0]) || Start(g, b) == End(g, l.edges[|l.edges| - 1]))
  }

  lemma MarkedSinceHasOpposing(g: Graph, opts: Options, earlier: set<GraphId>, marked: set<GraphId>, flat: seq<GraphId>,
                               l: Line, a: GraphId, b: GraphId, e: GraphId)
    requires WellFormed(g) && Growing(g, opts, earlier, marked, flat, l, a, b) && e in marked && e !in earlier
    ensures ValidEdge(g, e) && Opposing(g, e).Some?
  {
    hide WellFormed, Start, Opposing, RoadsDistinct, BegunAfter, LineFrom;
    assert InSome(g, l.edges, e);
    var x :| x in l.edges && SameRoad(g, x, e);
    assert x in flat + l.edges;
    OpposingTurnsAround(g, x);
  }

  lemma StubsWereMarked(g: Graph, opts: Options, earlier: set<GraphId>, marked: set<GraphId>, flat: seq<GraphId>,
                        l: Line, a: GraphId, b: GraphId)
    requires WellFormed(g) && Growing(g, opts, earlier, marked, flat, l, a, b)
    requires DeadEnd(g, opts, marked, l.names, a) && DeadEnd(g, opts, marked, l.names, b)
    ensures StubsMarked(g, opts, earlier, l)
  {
    hide WellFormed, Growing, LineFrom;
    LineIsWellMade(g, opts, earlier, marked, flat, l, a, b);
    forall e | StubAtEnds(g, opts, l, e)
      ensures e in earlier
    {
      assert e in marked;
      if e !in earlier {
        MarkedSinceHasOpposing(g, opts, earlier, marked, flat, l, a, b, e);
      }
    }
  }

  lemma LineIsWellMade(g: Graph, opts: Options, earlier: set<GraphId>, marked: set<GraphId>, flat: seq<GraphId>,
                       l: Line, a: GraphId, b: GraphId)
    requires WellFormed(g) && Growing(g, opts, earlier, marked, flat, l, a, b)
    ensures WellMade(g, opts, l) && a == Start(g, l.edges[0]) && b == End(g, l.edges[|l.edges| - 1])
  {
    hide WellFormed, RoadsDistinct, BegunAfter, BothMarked, AccountedFor, Connects;
    ConnectsStart(g, a, l.edges, b);
  }

  /** No half of the roads was marked, unless it is a transit connection. */
  ghost predicate NotMarked(g: Graph, marked: set<GraphId>, es: seq<GraphId>)
    requires WellFormed(g)
  {
    forall h | h in marked && ValidEdge(g, h) && Edge(g, h).use != TransitConnection :: !InSome(g, es, h)
  }

  /** The half that was grown onto, and so the other one too. */
  lemma RoadWasUnmarked(g: Graph, opts: Options, earlier: set<GraphId>, l: Line, x: GraphId, h: GraphId)
    requires WellFormed(g) && MarkedInPairs(g, earlier) && BegunAfter(g, opts, earlier, l.edges)
    requires x in l.edges && Belongs(g, opts, l.names, x) && SameRoad(g, x, h) && Opposing(g, x).Some?
    requires ValidEdge(g, h) && Edge(g, h).use != TransitConnection
    ensures h !in earlier
  {
    hide WellFormed, Opposing;
    OpposingTurnsAround(g, x);
    var k :| SameRoad(g, x, k) && ValidEdge(g, k) && Growable(opts, Edge(g, k)) && Edge(g, k).names == l.names;
    assert k !in earlier;
    assert k == h || Opposing(g, h) == Some(k);
  }

  lemma RoadsWereUnmarked(g: Graph, opts: Options, earlier: set<GraphId>, marked: set<GraphId>, flat: seq<GraphId>,
                          l: Line, a: GraphId, b: GraphId)
    requires WellFormed(g) && Growing(g, opts, earlier, marked, flat, l, a, b)
    ensures NotMarked(g, earlier, l.edges)
  {
    hide WellFormed, Opposing, Start, RoadsDistinct, AccountedFor, Connects, SameRoad, BegunAfter, Belongs,
      MarkedInPairs;
    forall x, h | x in l.edges && SameRoad(g, x, h) && ValidEdge(g, h) && Edge(g, h).use != TransitConnection
      ensures h !in earlier
    {
      assert x in flat + l.edges;
      RoadWasUnmarked(g, opts, earlier, l, x, h);
    }
  }

  /** Only `e` was marked alone since. */
  ghost predicate OnlyAlone(g: Graph, earlier: set<GraphId>, marked: set<GraphId>, e: GraphId)
    requires WellFormed(g)
  {
    forall b | b in marked && b !in earlier && b != e :: ValidEdge(g, b) && Opposing(g, b).Some?
  }

  lemma SkippedAlone(g: Graph, earlier: set<GraphId>, e: GraphId)
    requires WellFormed(g) && ValidEdge(g, e)
    ensures OnlyAlone(g, earlier, earlier + {e}, e)
    ensures Opposing(g, e).Some? ==> OnlyAlone(g, earlier, earlier + {e, Opposing(g, e).value}, e)
  {
    if Opposing(g, e).Some? {
      OpposingTurnsAround(g, e);
    }
  }

  lemma GrownAlone(g: Graph, opts: Options, earlier: set<GraphId>, marked: set<GraphId>, flat: seq<GraphId>,
                   l: Line, a: GraphId, b: GraphId, e: GraphId)
    requires WellFormed(g) && Growing(g, opts, earlier, marked, flat, l, a, b)
    ensures OnlyAlone(g, earlier, marked, e)
  {
    hide WellFormed, Growing, Opposing;
    forall x | x in marked && x !in earlier && x != e
      ensures ValidEdge(g, x) && Opposing(g, x).Some?
    {
      MarkedSinceHasOpposing(g, opts, earlier, marked, flat, l, a, b, x);
    }
  }

  /** Every edge that fits the line at one of its ends is marked. */
  ghost predicate NothingLeftAtEnds(g: Graph, opts: Options, marked: set<GraphId>, l: Line)
    requires WellFormed(g)
  {
    && l.edges != [] && ValidEdge(g, l.edges[0]) && ValidEdge(g, l.edges[|l.edges| - 1])
    && forall h | ValidEdge(g, h) && FitsLine(opts, Edge(g, h), l.names)
                  && (Start(g, h) == Start(g, l.edges[0]) || Start(g, h) == End(g, l.edges[|l.edges| - 1])) ::
         h in marked
  }

  lemma NothingIsLeft(g: Graph, opts: Options, earlier: set<GraphId>, marked: set<GraphId>, flat: seq<GraphId>,
                      l: Line, a: GraphId, b: GraphId)
    requires WellFormed(g) && Growing(g, opts, earlier, marked, flat, l, a, b)
    requires DeadEnd(g, opts, marked, l.names, a) && DeadEnd(g, opts, marked, l.names, b)
    ensures NothingLeftAtEnds(g, opts, marked, l)
  {
    hide WellFormed, Growing, LineFrom;
    LineIsWellMade(g, opts, earlier, marked, flat, l, a, b);
    forall h | ValidEdge(g, h) && FitsLine(opts, Edge(g, h), l.names) && (Start(g, h) == a || Start(g, h) == b)
      ensures h in marked
    {
      assert Growable(opts, Edge(g, h));
    }
  }

  /** The line has the edge and its names, and the main loop makes lines of such edges. */
  ghost predicate BegunWith(g: Graph, opts: Options, e: GraphId, l: Line)
    requires WellFormed(g)
  {
    e in l.edges && Exportable(g, opts, e) && Edge(g, e).names == l.names
  }

  /** One unmarked edge of the main loop: it is marked, and unless there is a reason not to it becomes
      the seed of a line that grows forward and then backward. */
  method ExportFrom(tracker: EdgeTracker, g: Graph, opts: Options, ghost tiles: seq<TileId>, ghost t: nat, e: GraphId,
                    lines0: seq<Line>)
    returns (lines: seq<Line>, out: Option<GraphId>)
    requires WellFormed(g) && tracker.Valid() && tracker.g == g && tracker.edgesInTiles.Keys == g.Keys
    requires ValidEdge(g, e) && e !in tracker.Tracked() && Exporting(g, opts, tiles, tracker.Tracked(), lines0)
    requires t < |tiles| && tiles[t] == e.tile && VisitedMarked(g, tiles, t, e.id, tracker.Tracked())
    modifies tracker.edgeSet.bits
    ensures out.None? ==> Exporting(g, opts, tiles, tracker.Tracked(), lines)
    ensures out.None? ==> old(tracker.Tracked()) + {e} <= tracker.Tracked()
    ensures out.None? ==> OnlyAlone(g, old(tracker.Tracked()), tracker.Tracked(), e)
    ensures lines == lines0
         || (out.None? && |lines| == |lines0| + 1 && lines0 <= lines
             && BegunWith(g, opts, e, lines[|lines0|]) && StubsMarked(g, opts, old(tracker.Tracked()), lines[|lines0|])
             && NotMarked(g, old(tracker.Tracked()), lines[|lines0|].edges)
             && NothingLeftAtEnds(g, opts, tracker.Tracked(), lines[|lines0|]))
    ensures out.Some? ==> RunsOut(g, opts, out.value)
  {
    hide WellFormed, Exporting, Growing, DeadEnd, EdgeTracker.Tracked, EdgeTracker.Valid, Start, Opposing, StubsMarked,
      OnlyAlone, RunsOut, VisitedMarked, NotMarked, NothingLeftAtEnds;
    lines, out := lines0, None;
    ghost var earlier := tracker.Tracked();
    tracker.Set(e);
    SkippedAlone(g, earlier, e);
    var edge := Edge(g, e);
    if edge.use == TransitConnection || edge.IsTransitLine() {
      TransitIsSkipped(g, opts, e);
      SkipRoad(g, opts, tiles, t, earlier, tracker.Tracked(), lines, e);
      return;
    }
    var opposing := Opposing(g, e);
    if opposing.None? {
      SkipRoad(g, opts, tiles, t, earlier, tracker.Tracked(), lines, e);
      return;
    }
    OpposingTurnsAround(g, e);
    tracker.Set(opposing.value);
    assert tracker.Tracked() == earlier + {e, opposing.value};
    if edge.isShortcut || (!opts.ferries && edge.use == Ferry) {
      SkipRoad(g, opts, tiles, t, earlier, tracker.Tracked(), lines, e);
      return;
    }
    var names := edge.names;
    if |names| == 0 && !opts.unnamed {
      SkipRoad(g, opts, tiles, t, earlier, tracker.Tracked(), lines, e);
      return;
    }
    ExportingMeans(g, opts, tiles, earlier, lines);
    BeginLine(g, opts, earlier, Flat(lines), e);
    var edges;
    edges, out := GrowForward(tracker, g, opts, [e], names, earlier, Flat(lines), Start(g, e));
    if out.Some? {
      return;
    }
    assert e in edges by { assert [e][0] == edges[0]; }
    ghost var b := End(g, edges[|edges| - 1]);
    ghost var grown := tracker.Tracked();
    ghost var a;
    edges, out, a := GrowBackward(tracker, g, opts, opposing.value, edges, names, earlier, Flat(lines), b);
    if out.Some? {
      return;
    }
    DeadEndStays(g, opts, grown, tracker.Tracked(), names, b);
    var line := Line(edges, names);
    AddLine(g, opts, tiles, earlier, tracker.Tracked(), lines, line, a, b);
    StubsWereMarked(g, opts, earlier, tracker.Tracked(), Flat(lines), line, a, b);
    RoadsWereUnmarked(g, opts, earlier, tracker.Tracked(), Flat(lines), line, a, b);
    NothingIsLeft(g, opts, earlier, tracker.Tracked(), Flat(lines), line, a, b);
    GrownAlone(g, opts, earlier, tracker.Tracked(), Flat(lines), line, a, b, e);
    lines := lines + [line];
  }

  lemma TransitIsSkipped(g: Graph, opts: Options, e: GraphId)
    requires WellFormed(g) && ValidEdge(g, e)
    requires Edge(g, e).use == TransitConnection || Edge(g, e).IsTransitLine()
    ensures !Exportable(g, opts, e) && (Edge(g, e).use == TransitConnection || Opposing(g, e).None?)
  {
  }

  lemma ExportingMeans(g: Graph, opts: Options, tiles: seq<TileId>, marked: set<GraphId>, lines: seq<Line>)
    requires WellFormed(g) && Exporting(g, opts, tiles, marked, lines)
    ensures MarkedInPairs(g, marked) && RoadsDistinct(g, Flat(lines)) && BothMarked(g, marked, Flat(lines))
    ensures AllGreedy(g, opts, lines) && forall l | l in lines :: WellMade(g, opts, l)
    ensures Covered(g, opts, tiles, marked, Flat(lines))
  {
  }

  /** The line was begun at edge number i of tile number t: before the main loop had come by any of its roads, but
      after all stubs that it could have grown onto from its ends. */
  ghost predicate BegunAt(g: Graph, opts: Options, tiles: seq<TileId>, t: nat, i: nat, l: Line)
    requires WellFormed(g)
  {
    && t < |tiles| && WellMade(g, opts, l) && BegunWith(g, opts, GraphId(tiles[t], i), l)
    && (forall b | StubAtEnds(g, opts, l, b) :: Visited(tiles, t, i, b))
    && (forall h | InSome(g, l.edges, h) && ValidEdge(g, h) && Edge(g, h).use != TransitConnection ::
          !Visited(tiles, t, i, h))
  }

  ghost predicate Begun(g: Graph, opts: Options, tiles: seq<TileId>, l: Line)
    requires WellFormed(g)
  {
    exists t, i :: BegunAt(g, opts, tiles, t, i, l)
  }

  /** Marked edges without an opposing one were come by in the main loop. */
  ghost predicate AloneVisited(g: Graph, tiles: seq<TileId>, t: nat, i: nat, marked: set<GraphId>)
    requires WellFormed(g) && t <= |tiles|
  {
    forall b | b in marked && ValidEdge(g, b) && Opposing(g, b).None? :: Visited(tiles, t, i, b)
  }

  ghost predicate AtTurn(g: Graph, tiles: seq<TileId>, t: nat, i: nat, marked: set<GraphId>)
    requires WellFormed(g) && t <= |tiles|
  {
    VisitedMarked(g, tiles, t, i, marked) && AloneVisited(g, tiles, t, i, marked)
  }

  lemma VisitNext(g: Graph, tiles: seq<TileId>, t: nat, i: nat, earlier: set<GraphId>, marked: set<GraphId>)
    requires WellFormed(g) && t < |tiles| && AtTurn(g, tiles, t, i, earlier) && earlier <= marked
    requires GraphId(tiles[t], i) in marked && OnlyAlone(g, earlier, marked, GraphId(tiles[t], i))
    ensures AtTurn(g, tiles, t, i + 1, marked)
  {
    hide WellFormed;
  }

  lemma VisitNextTile(g: Graph, tiles: seq<TileId>, t: nat, marked: set<GraphId>)
    requires WellFormed(g) && t < |tiles| && tiles[t] in g && AtTurn(g, tiles, t, |g[tiles[t]].edges|, marked)
    ensures AtTurn(g, tiles, t + 1, 0, marked)
  {
    hide WellFormed;
    assert tiles[..t + 1] == tiles[..t] + [tiles[t]];
  }

  lemma LineBegunAt(g: Graph, opts: Options, tiles: seq<TileId>, t: nat, i: nat, earlier: set<GraphId>, l: Line)
    requires WellFormed(g) && t < |tiles| && AtTurn(g, tiles, t, i, earlier)
    requires BegunWith(g, opts, GraphId(tiles[t], i), l) && StubsMarked(g, opts, earlier, l)
    requires NotMarked(g, earlier, l.edges)
    ensures Begun(g, opts, tiles, l)
  {
    hide WellFormed, LineFrom, BegunWith, InSome;
    assert BegunAt(g, opts, tiles, t, i, l);
  }

  /** What holds of the rows that are out, also when the program stops early. */
  ghost predicate Rows(g: Graph, opts: Options, tiles: seq<TileId>, lines: seq<Line>)
    requires WellFormed(g)
  {
    && (forall l | l in lines :: WellMade(g, opts, l) && Begun(g, opts, tiles, l))
    && RoadsDistinct(g, Flat(lines)) && AllGreedy(g, opts, lines)
    && forall e | e in Flat(lines) :: ValidEdge(g, e) && Opposing(g, e).Some?
  }

  lemma RowsAreGood(g: Graph, opts: Options, tiles: seq<TileId>, marked: set<GraphId>, lines: seq<Line>)
    requires WellFormed(g) && Exporting(g, opts, tiles, marked, lines)
    requires forall l | l in lines :: Begun(g, opts, tiles, l)
    ensures Rows(g, opts, tiles, lines)
  {
    hide WellFormed, Begun, Flat, AllGreedy, RoadsDistinct, Opposing, LineFrom, Covered;
  }

  /** The main loop: every edge of every tile, in any order of the tiles. */
  method ExportAll(tracker: EdgeTracker, g: Graph, opts: Options, tiles: seq<TileId>)
    returns (lines: seq<Line>, out: Option<GraphId>)
    requires WellFormed(g) && tracker.Valid() && tracker.g == g && tracker.edgesInTiles.Keys == g.Keys
    requires tracker.Tracked() == {} && (set t | t in tiles) == g.Keys
    modifies tracker.edgeSet.bits
    ensures Rows(g, opts, tiles, lines)
    ensures out.None? ==> Exporting(g, opts, tiles, tracker.Tracked(), lines) && tracker.Tracked() == AllEdges(g)
    ensures out.Some? ==> RunsOut(g, opts, out.value)
  {
    hide WellFormed, Exporting, EdgeTracker.Tracked, EdgeTracker.Valid, AtTurn, Begun, RunsOut, StubsMarked, NotMarked,
      BegunWith, VisitedMarked, OnlyAlone, Rows;
    lines, out := [], None;
    ExportingFromNothing(g, opts, tiles);
    NothingVisited(g, tiles);
    for t := 0 to |tiles|
      invariant out.None? && Exporting(g, opts, tiles, tracker.Tracked(), lines)
      invariant AtTurn(g, tiles, t, 0, tracker.Tracked())
      invariant forall l | l in lines :: Begun(g, opts, tiles, l)
    {
      assert tiles[t] in tiles;
      for i := 0 to |g[tiles[t]].edges|
        invariant out.None? && Exporting(g, opts, tiles, tracker.Tracked(), lines)
        invariant AtTurn(g, tiles, t, i, tracker.Tracked())
        invariant forall l | l in lines :: Begun(g, opts, tiles, l)
      {
        var e := GraphId(tiles[t], i);
        ghost var earlier, earlierLines := tracker.Tracked(), lines;
        var seen := tracker.Get(e);
        if seen {
          NothingMarked(g, earlier, e);
        } else {
          TurnMeansMarked(g, tiles, t, i, earlier);
          lines, out := ExportFrom(tracker, g, opts, tiles, t, e, lines);
          if out.Some? {
            RowsAreGood(g, opts, tiles, earlier, lines);
            return;
          }
          if lines != earlierLines {
            LineBegunAt(g, opts, tiles, t, i, earlier, lines[|earlierLines|]);
            assert lines == earlierLines + [lines[|earlierLines|]];
          }
        }
        VisitNext(g, tiles, t, i, earlier, tracker.Tracked());
      }
      VisitNextTile(g, tiles, t, tracker.Tracked());
    }
    AllVisited(g, tiles, tracker.Tracked());
    ExportingIsValid(g, opts, tiles, tracker.Tracked(), lines);
    RowsAreGood(g, opts, tiles, tracker.Tracked(), lines);
  }

  lemma NothingVisited(g: Graph, tiles: seq<TileId>)
    requires WellFormed(g)
    ensures AtTurn(g, tiles, 0, 0, {})
  {
  }

  lemma TurnMeansMarked(g: Graph, tiles: seq<TileId>, t: nat, i: nat, marked: set<GraphId>)
    requires WellFormed(g) && t <= |tiles| && AtTurn(g, tiles, t, i, marked)
    ensures VisitedMarked(g, tiles, t, i, marked)
  {
  }

  lemma AllVisited(g: Graph, tiles: seq<TileId>, marked: set<GraphId>)
    requires WellFormed(g) && AtTurn(g, tiles, |tiles|, 0, marked) && (set t | t in tiles) == g.Keys
    ensures AllEdges(g) <= marked
  {
    hide WellFormed, AloneVisited;
    assert tiles[..|tiles|] == tiles;
    forall e | ValidEdge(g, e)
      ensures e in marked
    {
      assert e.tile in (set t | t in tiles);
    }
  }

  lemma NothingMarked(g: Graph, marked: set<GraphId>, e: GraphId)
    requires WellFormed(g)
    ensures OnlyAlone(g, marked, marked, e)
  {
  }

  lemma ExportingFromNothing(g: Graph, opts: Options, tiles: seq<TileId>)
    requires WellFormed(g)
    ensures Exporting(g, opts, tiles, {}, [])
  {
  }

  lemma ExportingIsValid(g: Graph, opts: Options, tiles: seq<TileId>, marked: set<GraphId>, lines: seq<Line>)
    requires WellFormed(g) && Exporting(g, opts, tiles, marked, lines)
    ensures marked <= AllEdges(g)
  {
  }

  /** Every edge that is to be exported is, unless its other half is passed over and comes first. */
  ghost predicate NothingMissed(g: Graph, opts: Options, tiles: seq<TileId>, lines: seq<Line>)
    requires WellFormed(g)
  {
    forall e | Exportable(g, opts, e) :: InSome(g, Flat(lines), e) || LeftOut(g, opts, tiles, e)
  }

  /** One half of the road fits the line. */
  ghost predicate RoadFits(g: Graph, opts: Options, names: seq<string>, e: GraphId)
    requires WellFormed(g)
  {
    exists h :: SameRoad(g, e, h) && ValidEdge(g, h) && FitsLine(opts, Edge(g, h), names)
  }

  /** Half `h` of the road fits the line and starts at one of its ends. */
  ghost predicate MeetsEnd(g: Graph, opts: Options, l: Line, e: GraphId, h: GraphId)
    requires WellFormed(g)
  {
    && SameRoad(g, e, h) && ValidEdge(g, h) && FitsLine(opts, Edge(g, h), l.names)
    && l.edges != [] && ValidEdge(g, l.edges[0]) && ValidEdge(g, l.edges[|l.edges| - 1])
    && (Start(g, h) == Start(g, l.edges[0]) || Start(g, h) == End(g, l.edges[|l.edges| - 1]))
  }

  lemma FitsIff(opts: Options, edge: DirectedEdge, names: seq<string>)
    ensures FitsLine(opts, edge, names) <==> Growable(opts, edge) && edge.names == names
  {
  }

  /** Every road of a line fits it, and no road of a later line would have fitted at the ends of an earlier one. */
  lemma RowsFit(g: Graph, opts: Options, tiles: seq<TileId>, lines: seq<Line>)
    requires WellFormed(g) && Rows(g, opts, tiles, lines)
    ensures forall l, e | l in lines && e in l.edges :: RoadFits(g, opts, l.names, e)
    ensures forall i, j, e, h | 0 <= i < j < |lines| && e in lines[j].edges ::
              !MeetsEnd(g, opts, lines[i], e, h)
  {
    hide WellFormed, Opposing, Start, Connects, RoadsDistinct, Flat, Begun, SameRoad;
    forall l, e | l in lines && e in l.edges
      ensures RoadFits(g, opts, l.names, e)
    {
      assert Belongs(g, opts, l.names, e);
      var h :| SameRoad(g, e, h) && ValidEdge(g, h) && Growable(opts, Edge(g, h)) && Edge(g, h).names == l.names;
    }
    forall i, j, e, h | 0 <= i < j < |lines| && e in lines[j].edges
      ensures !MeetsEnd(g, opts, lines[i], e, h)
    {
      assert Greedy(g, opts, lines[i], lines[j]);
      if ValidEdge(g, h) {
        FitsIff(opts, Edge(g, h), lines[i].names);
      }
    }
  }

  /** Where the halves of the road have the same use, a ferry is in a line only if ferries were asked for. */
  lemma NoFerryUnasked(g: Graph, opts: Options, names: seq<string>, e: GraphId)
    requires WellFormed(g) && RoadFits(g, opts, names, e) && ValidEdge(g, e)
    requires forall h | SameRoad(g, e, h) && ValidEdge(g, h) :: Edge(g, h).use == Edge(g, e).use
    ensures Edge(g, e).use == Ferry ==> opts.ferries
    ensures Edge(g, e).use !in {TransitConnection, RailLine, BusLine}
  {
  }

  /** The whole program: the rows it prints, and the edge behind which it misses a tile. */
  method Export(g: Graph, opts: Options, tiles: seq<TileId>) returns (lines: seq<Line>, out: Option<GraphId>)
    requires WellFormed(g) && (set t | t in tiles) == g.Keys
    ensures Rows(g, opts, tiles, lines)
    ensures out.None? ==> NothingMissed(g, opts, tiles, lines)
    ensures out.None? ==> forall e | Exportable(g, opts, e) && Exportable(g, opts, Opposing(g, e).value) ::
                            InSome(g, Flat(lines), e)
    ensures forall l, e | l in lines && e in l.edges :: RoadFits(g, opts, l.names, e)
    ensures forall i, j, e, h | 0 <= i < j < |lines| && e in lines[j].edges ::
              !MeetsEnd(g, opts, lines[i], e, h)
    ensures out.Some? ==> RunsOut(g, opts, out.value)
  {
    hide WellFormed, EdgeTracker.Tracked, EdgeTracker.Valid, Rows, RunsOut, Exporting, Opposing;
    var tracker := new EdgeTracker.Create(tiles, g);
    lines, out := ExportAll(tracker, g, opts, tiles);
    RowsFit(g, opts, tiles, lines);
    if out.None? {
      ExportingMeans(g, opts, tiles, AllEdges(g), lines);
    }
  }

  // ---------------------------------------------------------------------------------------------
  // One line among all

  lemma {:induction false} FlatHas(lines: seq<Line>, e: GraphId) returns (l: Line)
    requires e in Flat(lines)
    ensures l in lines && e in l.edges
  {
    var last := lines[|lines| - 1];
    if e in last.edges {
      l := last;
    } else {
      l := FlatHas(lines[..|lines| - 1], e);
    }
  }

  lemma {:induction false} FlatKeepsLine(g: Graph, lines: seq<Line>, l: Line)
    requires WellFormed(g) && RoadsDistinct(g, Flat(lines)) && l in lines
    ensures RoadsDistinct(g, l.edges) && forall e | e in l.edges :: e in Flat(lines)
  {
    hide WellFormed, SameRoad;
    var most, last := lines[..|lines| - 1], lines[|lines| - 1];
    if l == last {
      forall i, j | 0 <= i < j < |l.edges|
        ensures !SameRoad(g, l.edges[i], l.edges[j])
      {
        assert Flat(lines)[|Flat(most)| + i] == l.edges[i] && Flat(lines)[|Flat(most)| + j] == l.edges[j];
      }
    } else {
      forall i, j | 0 <= i < j < |Flat(most)|
        ensures !SameRoad(g, Flat(most)[i], Flat(most)[j])
      {
        assert Flat(lines)[i] == Flat(most)[i] && Flat(lines)[j] == Flat(most)[j];
      }
      FlatKeepsLine(g, most, l);
    }
  }

  // ---------------------------------------------------------------------------------------------
  // Which roads are covered

  lemma TileCameBy(tiles: seq<TileId>, s: nat, t: nat)
    requires s < |tiles| && t <= |tiles|
    ensures s < t ==> tiles[s] in tiles[..t]
  {
    if s < t {
      assert tiles[..t][s] == tiles[s];
    }
  }

  lemma FirstOfTwo(tiles: seq<TileId>, a: GraphId, b: GraphId)
    requires ComesFirst(tiles, a, b) && ComesFirst(tiles, b, a)
    ensures a == b
  {
    var s: nat :| s < |tiles| && tiles[s] == a.tile && !Visited(tiles, s, a.id, b);
    var t: nat :| t < |tiles| && tiles[t] == b.tile && !Visited(tiles, t, b.id, a);
    TileCameBy(tiles, s, t);
    TileCameBy(tiles, t, s);
  }

  /** The line was begun at another road and has grown onto this one. */
  ghost predicate GrownOnto(g: Graph, opts: Options, tiles: seq<TileId>, l: Line, e: GraphId)
    requires WellFormed(g)
  {
    && InSome(g, l.edges, e)
    && exists t: nat, i: nat :: BegunAt(g, opts, tiles, t, i, l) && !SameRoad(g, GraphId(tiles[t], i), e)
  }

  lemma LineOf(g: Graph, lines: seq<Line>, e: GraphId) returns (l: Line)
    requires WellFormed(g) && InSome(g, Flat(lines), e)
    ensures l in lines && InSome(g, l.edges, e)
  {
    hide WellFormed, SameRoad, Flat;
    var x :| x in Flat(lines) && SameRoad(g, x, e);
    l := FlatHas(lines, x);
  }

  /** The half at which a line is begun comes before the other one. */
  lemma BegunAtHalf(g: Graph, opts: Options, tiles: seq<TileId>, t: nat, i: nat, l: Line, o: GraphId)
    requires WellFormed(g) && BegunAt(g, opts, tiles, t, i, l) && Opposing(g, GraphId(tiles[t], i)) == Some(o)
    requires ValidEdge(g, o) && Edge(g, o).use != TransitConnection
    ensures ComesFirst(tiles, GraphId(tiles[t], i), o)
  {
    hide WellFormed, Opposing, WellMade, StubAtEnds;
    assert SameRoad(g, GraphId(tiles[t], i), o);
  }

  lemma LeftOutIsGrownOnto(g: Graph, opts: Options, tiles: seq<TileId>, l: Line, e: GraphId)
    requires WellFormed(g) && Begun(g, opts, tiles, l) && InSome(g, l.edges, e)
    requires Exportable(g, opts, e) && LeftOut(g, opts, tiles, e)
    ensures GrownOnto(g, opts, tiles, l, e)
  {
    hide WellFormed, Opposing, WellMade, StubAtEnds, ComesFirst, InSome;
    OpposingTurnsAround(g, e);
    var t: nat, i: nat :| BegunAt(g, opts, tiles, t, i, l);
    OpposingTurnsAround(g, GraphId(tiles[t], i));
    if GraphId(tiles[t], i) == e {
      BegunAtHalf(g, opts, tiles, t, i, l, Opposing(g, e).value);
      FirstOfTwo(tiles, e, Opposing(g, e).value);
    }
  }

  /** After a run that misses no tile: an edge is covered unless its other half is passed over and comes first; and
      then only by a line that was begun before at another road. */
  lemma CoveredIff(g: Graph, opts: Options, tiles: seq<TileId>, lines: seq<Line>, e: GraphId)
    requires WellFormed(g) && Rows(g, opts, tiles, lines) && NothingMissed(g, opts, tiles, lines)
    requires Exportable(g, opts, e)
    ensures InSome(g, Flat(lines), e) <==>
              !LeftOut(g, opts, tiles, e) || exists l | l in lines :: GrownOnto(g, opts, tiles, l, e)
  {
    hide WellFormed, Opposing, LeftOut, GrownOnto, WellMade, Begun, AllGreedy, RoadsDistinct, Flat, SameRoad;
    if InSome(g, Flat(lines), e) {
      var l := LineOf(g, lines, e);
      if LeftOut(g, opts, tiles, e) {
        LeftOutIsGrownOnto(g, opts, tiles, l, e);
      }
    } else if l :| l in lines && GrownOnto(g, opts, tiles, l, e) {
      GrownIsCovered(g, opts, tiles, lines, l, e);
    }
  }

  lemma GrownIsCovered(g: Graph, opts: Options, tiles: seq<TileId>, lines: seq<Line>, l: Line, e: GraphId)
    requires WellFormed(g) && RoadsDistinct(g, Flat(lines)) && l in lines && GrownOnto(g, opts, tiles, l, e)
    ensures InSome(g, Flat(lines), e)
  {
    hide WellFormed, SameRoad, BegunAt, Flat, RoadsDistinct;
    FlatKeepsLine(g, lines, l);
  }

  /** The two roads have a node in common. */
  ghost predicate Meet(g: Graph, e: GraphId, x: GraphId)
    requires WellFormed(g) && ValidEdge(g, e) && ValidEdge(g, x)
  {
    Start(g, x) == Start(g, e) || Start(g, x) == End(g, e) || End(g, x) == Start(g, e) || End(g, x) == End(g, e)
  }

  /** Another road meets this one, and both could be in a line with these names. */
  ghost predicate Joins(g: Graph, opts: Options, e: GraphId, x: GraphId, names: seq<string>)
    requires WellFormed(g) && ValidEdge(g, e)
  {
    ValidEdge(g, x) && !SameRoad(g, x, e) && Meet(g, e, x) && Belongs(g, opts, names, e) && Belongs(g, opts, names, x)
  }

  ghost predicate StandsAlone(g: Graph, opts: Options, e: GraphId)
    requires WellFormed(g) && ValidEdge(g, e)
  {
    forall x, names :: !Joins(g, opts, e, x, names)
  }

  lemma {:induction false} ConnectsAt(g: Graph, a: GraphId, es: seq<GraphId>, b: GraphId, k: nat)
    requires WellFormed(g) && Connects(g, a, es, b) && k < |es|
    ensures ValidEdge(g, es[k])
    ensures k + 1 < |es| ==> ValidEdge(g, es[k + 1]) && End(g, es[k]) == Start(g, es[k + 1])
    decreases es
  {
    hide WellFormed, Start, End, ValidEdge;
    if k > 0 {
      ConnectsAt(g, End(g, es[0]), es[1..], b, k - 1);
    } else if |es| > 1 {
      assert es[1..][0] == es[1];
    }
  }

  lemma NeighbourJoins(g: Graph, opts: Options, l: Line, r: GraphId, x: GraphId, e: GraphId)
    requires WellFormed(g) && ValidEdge(g, r) && ValidEdge(g, x) && ValidEdge(g, e)
    requires SameRoad(g, r, e) && !SameRoad(g, r, x) && Meet(g, r, x)
    requires Belongs(g, opts, l.names, r) && Belongs(g, opts, l.names, x)
    ensures Joins(g, opts, e, x, l.names)
  {
    hide WellFormed, Opposing, Start;
    if e != r {
      OpposingTurnsAround(g, r);
    }
    if Opposing(g, x).Some? {
      OpposingTurnsAround(g, x);
    }
  }

  lemma GrownOntoJoins(g: Graph, opts: Options, l: Line, s: GraphId, e: GraphId)
    requires WellFormed(g) && WellMade(g, opts, l) && RoadsDistinct(g, l.edges) && ValidEdge(g, e)
    requires s in l.edges && !SameRoad(g, s, e) && InSome(g, l.edges, e)
    ensures !StandsAlone(g, opts, e)
  {
    hide WellFormed, Opposing, Start, SameRoad, Belongs, Connects, Joins;
    var k :| 0 <= k < |l.edges| && SameRoad(g, l.edges[k], e);
    var j := if k > 0 then k - 1 else k;
    ConnectsAt(g, Start(g, l.edges[0]), l.edges, End(g, l.edges[|l.edges| - 1]), j);
    var r, x := l.edges[k], l.edges[if k > 0 then j else 1];
    if k > 0 {
      RoadsApart(g, x, r);
    }
    NeighbourJoins(g, opts, l, r, x, e);
  }

  lemma RoadsApart(g: Graph, x: GraphId, r: GraphId)
    requires WellFormed(g) && ValidEdge(g, r) && !SameRoad(g, x, r) && ValidEdge(g, x)
    ensures !SameRoad(g, r, x)
  {
    hide WellFormed, Opposing;
    if Opposing(g, r).Some? {
      OpposingTurnsAround(g, r);
    }
  }

  /** Where no line can grow onto the road, it is the order of its two halves alone. */
  lemma CoveredIffFirst(g: Graph, opts: Options, tiles: seq<TileId>, lines: seq<Line>, e: GraphId)
    requires WellFormed(g) && Rows(g, opts, tiles, lines) && NothingMissed(g, opts, tiles, lines)
    requires Exportable(g, opts, e) && StandsAlone(g, opts, e)
    ensures InSome(g, Flat(lines), e) <==> !LeftOut(g, opts, tiles, e)
  {
    hide WellFormed, Opposing, LeftOut, StandsAlone, SameRoad, LineFrom, RoadsDistinct, AllGreedy, Flat;
    CoveredIff(g, opts, tiles, lines, e);
    if l :| l in lines && GrownOnto(g, opts, tiles, l, e) {
      var t: nat, i: nat :| BegunAt(g, opts, tiles, t, i, l) && !SameRoad(g, GraphId(tiles[t], i), e);
      FlatKeepsLine(g, lines, l);
      GrownOntoJoins(g, opts, l, GraphId(tiles[t], i), e);
    }
  }

  // ---------------------------------------------------------------------------------------------
  // Shortcuts

  /** Shortcuts are stored without names. */
  ghost predicate ShortcutsUnnamed(g: Graph) {
    forall e | ValidEdge(g, e) && Edge(g, e).isShortcut :: Edge(g, e).names == []
  }

  /** The two halves of a road are shortcuts together. */
  ghost predicate ShortcutsInPairs(g: Graph)
    requires WellFormed(g)
  {
    forall e, h | ValidEdge(g, e) && SameRoad(g, e, h) ::
      ValidEdge(g, h) && Edge(g, h).isShortcut == Edge(g, e).isShortcut
  }

  /** At every node the shortcuts are stored before the other edges. */
  ghost predicate ShortcutsStoredFirst(g: Graph) {
    forall n, d, e | ValidNode(g, n) && Leaves(g, d, n) && Leaves(g, e, n) && ValidEdge(g, d) && ValidEdge(g, e)
                     && d.id < e.id && Edge(g, e).isShortcut :: Edge(g, d).isShortcut
  }

  /** A shortcut that a line could grow onto at the node. */
  ghost predicate FreeShortcut(g: Graph, opts: Options, marked: set<GraphId>, n: GraphId, e: GraphId)
    requires ValidNode(g, n)
  {
    && Leaves(g, e, n) && ValidEdge(g, e) && Edge(g, e).isShortcut && e !in marked && Growable(opts, Edge(g, e))
  }

  /** The growth does not ask for shortcuts, which the main loop skips: the next edge of a line is one exactly if the
      line has no name and there is an unmarked one to step on, whatever else there is. */
  lemma NextIsShortcutIff(g: Graph, opts: Options, marked: set<GraphId>, names: seq<string>, n: GraphId, next: GraphId)
    requires WellFormed(g) && ShortcutsUnnamed(g) && ShortcutsStoredFirst(g) && ValidNode(g, n)
    requires FirstCandidate(g, opts, marked, names, n, next)
    ensures Edge(g, next).isShortcut <==> names == [] && exists e :: FreeShortcut(g, opts, marked, n, e)
  {
    hide WellFormed, Growable;
    if Edge(g, next).isShortcut {
      assert FreeShortcut(g, opts, marked, n, next);
    } else if e :| FreeShortcut(g, opts, marked, n, e) {
      OutEdgesValid(g, n);
    }
  }

  /** A line with a shortcut in it has no name, unnamed edges were asked for, and it was begun at a real edge before
      the main loop came by the shortcut. */
  lemma ShortcutIsGrownOnto(g: Graph, opts: Options, tiles: seq<TileId>, lines: seq<Line>, l: Line, e: GraphId)
    requires WellFormed(g) && ShortcutsInPairs(g) && ShortcutsUnnamed(g) && Rows(g, opts, tiles, lines)
    requires l in lines && e in l.edges && ValidEdge(g, e) && Edge(g, e).isShortcut
    ensures l.names == [] && opts.unnamed && GrownOnto(g, opts, tiles, l, e)
  {
    hide WellFormed, Opposing, Connects, AllGreedy, RoadsDistinct, Flat, StubAtEnds, Start;
    assert Begun(g, opts, tiles, l) && Belongs(g, opts, l.names, e);
    assert SameRoad(g, e, e);
    var t: nat, i: nat :| BegunAt(g, opts, tiles, t, i, l);
    var h :| SameRoad(g, e, h) && ValidEdge(g, h) && Growable(opts, Edge(g, h)) && Edge(g, h).names == l.names;
  }

  /** So no line with a name has a shortcut in it, and no line at all unless unnamed edges are asked for. */
  lemma LinesWithoutShortcuts(g: Graph, opts: Options, tiles: seq<TileId>, lines: seq<Line>, l: Line, e: GraphId)
    requires WellFormed(g) && ShortcutsInPairs(g) && ShortcutsUnnamed(g) && Rows(g, opts, tiles, lines)
    requires l in lines && e in l.edges && (l.names != [] || !opts.unnamed)
    ensures ValidEdge(g, e) && !Edge(g, e).isShortcut
  {
    hide WellFormed, Opposing, Connects, AllGreedy, RoadsDistinct, Flat, StubAtEnds, Start, ShortcutsInPairs,
      ShortcutsUnnamed, GrownOnto;
    assert Belongs(g, opts, l.names, e);
    if Edge(g, e).isShortcut {
      ShortcutIsGrownOnto(g, opts, tiles, lines, l, e);
    }
  }
}
