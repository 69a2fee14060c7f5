/** The tiled road graph: tiles hold nodes and directed edges, a node owns a contiguous range of its
    tile's edges, and a directed edge finds its opposing edge by an index at its end node. */
module RoadGraph {
  import opened TileHierarchy
  import opened Wrappers

  datatype Use = Road | Ferry | RailLine | BusLine | TransitConnection | EgressConnection
               | PlatformConnection | Construction | OtherUse(code: nat)

  /** The attributes that shortcut recovery compares but never interprets. */
  datatype Traits = Traits(forwardAccess: nat, reverseAccess: nat, sign: bool, classification: nat,
                           roundabout: bool, link: bool, toll: bool, destOnly: bool, destOnlyHgv: bool,
                           unpaved: bool, surface: nat)

  /** A directed edge, with the names and the tag of NHVR networks that its edge information holds. */
  datatype DirectedEdge = DirectedEdge(
    endnode: GraphId, oppIndex: nat, length: nat, isShortcut: bool, shortcutMask: bv7, superseded: bv7,
    use: Use, traits: Traits, names: seq<string>, bssConnection: bool, nhvrTag: Option<string>)
  {
    predicate IsTransitLine() {
      use == RailLine || use == BusLine
    }

    predicate CanFormShortcut() {
      && !isShortcut && !bssConnection
      && use != TransitConnection && use != EgressConnection && use != PlatformConnection
      && use != Construction
    }
  }

  datatype NodeInfo = NodeInfo(edgeIndex: nat, edgeCount: nat)

  datatype Tile = Tile(nodes: seq<NodeInfo>, edges: seq<DirectedEdge>)

  type Graph = map<TileId, Tile>

  predicate ValidNode(g: Graph, n: GraphId) {
    n.tile in g && n.id < |g[n.tile].nodes|
  }

  predicate ValidEdge(g: Graph, e: GraphId) {
    e.tile in g && e.id < |g[e.tile].edges|
  }

  function Node(g: Graph, n: GraphId): NodeInfo
    requires ValidNode(g, n)
  {
    g[n.tile].nodes[n.id]
  }

  function Edge(g: Graph, e: GraphId): DirectedEdge
    requires ValidEdge(g, e)
  {
    g[e.tile].edges[e.id]
  }

  function End(g: Graph, e: GraphId): GraphId
    requires ValidEdge(g, e)
  {
    Edge(g, e).endnode
  }

  /** Edge `e` lies in the edge range of node `n`. */
  predicate Leaves(g: Graph, e: GraphId, n: GraphId)
    requires ValidNode(g, n)
  {
    e.tile == n.tile && Node(g, n).edgeIndex <= e.id < Node(g, n).edgeIndex + Node(g, n).edgeCount
  }

  function OutEdges(g: Graph, n: GraphId): (es: seq<GraphId>)
    requires ValidNode(g, n)
    ensures |es| == Node(g, n).edgeCount
    ensures forall e :: e in es <==> Leaves(g, e, n)
    ensures forall i, j :: 0 <= i < j < |es| ==> es[i] != es[j]
  {
    var es := seq(Node(g, n).edgeCount, i requires 0 <= i => GraphId(n.tile, Node(g, n).edgeIndex + i));
    assert forall e | Leaves(g, e, n) :: es[e.id - Node(g, n).edgeIndex] == e;
    es
  }

  /** The edge that `e` names as its opposing edge, when the tile of its end node is there. */
  function RawOpp(g: Graph, e: GraphId): GraphId
    requires ValidEdge(g, e) && ValidNode(g, End(g, e))
  {
    GraphId(End(g, e).tile, Node(g, End(g, e)).edgeIndex + Edge(g, e).oppIndex)
  }

  /** GetOpposingEdgeId: no answer for a transit line or when the end node's tile is missing. */
  function Opposing(g: Graph, e: GraphId): Option<GraphId>
    requires WellFormed(g) && ValidEdge(g, e)
  {
    if Edge(g, e).IsTransitLine() || End(g, e).tile !in g then None
    else assert EdgeOk(g, e); Some(RawOpp(g, e))
  }

  ghost predicate HasOwner(g: Graph, e: GraphId) {
    exists n :: ValidNode(g, n) && Leaves(g, e, n)
  }

  /** What the tile builder guarantees for one edge: a node owns it; and, unless it is a transit line
      or leaves the tile set, its opposing edge ends at that node, opposes it back and differs from it. */
  ghost predicate EdgeOk(g: Graph, e: GraphId)
    requires ValidEdge(g, e)
  {
    && HasOwner(g, e)
    && (End(g, e).tile in g ==> ValidNode(g, End(g, e)))
    && (End(g, e).tile in g && !Edge(g, e).IsTransitLine() ==>
          var o := RawOpp(g, e);
          && ValidEdge(g, o) && o != e && Leaves(g, o, End(g, e)) && !Edge(g, o).IsTransitLine()
          && ValidNode(g, End(g, o)) && Leaves(g, e, End(g, o)) && RawOpp(g, o) == e)
  }

  ghost predicate NodeOk(g: Graph, n: GraphId)
    requires ValidNode(g, n)
  {
    && Node(g, n).edgeIndex + Node(g, n).edgeCount <= |g[n.tile].edges|
    && forall m | ValidNode(g, m) && m.tile == n.tile && m.id < n.id ::
         Node(g, m).edgeIndex + Node(g, m).edgeCount <= Node(g, n).edgeIndex
  }

  ghost predicate WellFormed(g: Graph) {
    && (forall n | ValidNode(g, n) :: NodeOk(g, n))
    && (forall e | ValidEdge(g, e) :: EdgeOk(g, e))
  }

  /** The node that owns `e`. */
  ghost function Start(g: Graph, e: GraphId): (n: GraphId)
    requires WellFormed(g) && ValidEdge(g, e)
    ensures ValidNode(g, n) && Leaves(g, e, n)
  {
    assert EdgeOk(g, e);
    var n :| ValidNode(g, n) && Leaves(g, e, n);
    n
  }

  lemma StartIsUnique(g: Graph, e: GraphId, n: GraphId)
    requires WellFormed(g) && ValidNode(g, n) && Leaves(g, e, n)
    ensures ValidEdge(g, e) && Start(g, e) == n
  {
    assert NodeOk(g, n);
    var m := Start(g, e);
    assert NodeOk(g, m);
  }

  predicate AllValid(g: Graph, es: seq<GraphId>) {
    forall e | e in es :: ValidEdge(g, e)
  }

  lemma OutEdgesValid(g: Graph, n: GraphId)
    requires WellFormed(g) && ValidNode(g, n)
    ensures AllValid(g, OutEdges(g, n)) && forall e | e in OutEdges(g, n) :: Start(g, e) == n
    ensures forall e | Leaves(g, e, n) :: ValidEdge(g, e) && Start(g, e) == n
  {
    assert NodeOk(g, n);
    forall e | Leaves(g, e, n)
      ensures ValidEdge(g, e) && Start(g, e) == n
    {
      StartIsUnique(g, e, n);
    }
  }

  lemma EndIsNode(g: Graph, e: GraphId)
    requires WellFormed(g) && ValidEdge(g, e) && End(g, e).tile in g
    ensures ValidNode(g, End(g, e))
  {
    assert EdgeOk(g, e);
  }

  /** Opposing is an involution that turns an edge around. */
  lemma OpposingTurnsAround(g: Graph, e: GraphId)
    requires WellFormed(g) && ValidEdge(g, e) && Opposing(g, e).Some?
    ensures var o := Opposing(g, e).value;
            && ValidEdge(g, o) && o != e && Opposing(g, o) == Some(e)
            && Start(g, o) == End(g, e) && End(g, o) == Start(g, e)
            && !Edge(g, o).IsTransitLine()
  {
    assert EdgeOk(g, e);
    var o := RawOpp(g, e);
    StartIsUnique(g, o, End(g, e));
    StartIsUnique(g, e, End(g, o));
  }

  ghost function AllEdges(g: Graph): (es: set<GraphId>)
    ensures forall e :: e in es <==> ValidEdge(g, e)
  {
    var es := set t, i | t in g && 0 <= i < |g[t].edges| :: GraphId(t, i);
    assert forall e | ValidEdge(g, e) :: GraphId(e.tile, e.id) in es;
    es
  }

  ghost function AllNodes(g: Graph): (ns: set<GraphId>)
    ensures forall n :: n in ns <==> ValidNode(g, n)
  {
    var ns := set t, i | t in g && 0 <= i < |g[t].nodes| :: GraphId(t, i);
    assert forall n | ValidNode(g, n) :: GraphId(n.tile, n.id) in ns;
    ns
  }

  /** The edges of `es` join head to tail and lead from node `a` to node `b`. */
  ghost predicate Connects(g: Graph, a: GraphId, es: seq<GraphId>, b: GraphId)
    requires WellFormed(g)
    decreases es
  {
    if es == [] then a == b
    else ValidEdge(g, es[0]) && Start(g, es[0]) == a && Connects(g, End(g, es[0]), es[1..], b)
  }

  lemma {:induction false} ConnectsAppend(g: Graph, a: GraphId, es: seq<GraphId>, b: GraphId, fs: seq<GraphId>,
                                          c: GraphId)
    requires WellFormed(g) && Connects(g, a, es, b) && Connects(g, b, fs, c)
    ensures Connects(g, a, es + fs, c)
    decreases es
  {
    hide WellFormed, ValidEdge, Start, End;
    if es == [] {
      assert es + fs == fs;
    } else {
      ConnectsAppend(g, End(g, es[0]), es[1..], b, fs, c);
      assert (es + fs)[1..] == es[1..] + fs;
    }
  }
}
