/** Concrete tiles. A road of two edges with its shortcuts in both directions meets every condition of the
    shortcut theorems. From a road that goes on into a missing tile, the shortcut look-up and the export of
    edges both run off the tile set. A road with a name on one side is exported or not by the order of its edges. */
module Examples {
  import opened TileHierarchy
  import opened Wrappers
  import opened RoadGraph
  import opened ShortcutLookup
  import opened ShortcutContraction
  import SR = ShortcutRecovery
  import ET = EdgeTracking
  import EX = EdgeExport

  const T := TileId(1, 0)

  const PLAIN := Traits(1, 1, false, 3, false, false, false, false, false, false, 0)

  function E(i: nat): GraphId {
    GraphId(T, i)
  }

  function Half(end: GraphId, oppIndex: nat, superseded: bv7, length: nat, names: seq<string>): DirectedEdge {
    DirectedEdge(end, oppIndex, length, false, 0, superseded, Road, PLAIN, names, false, None)
  }

  function Both(end: GraphId, length: nat, mask: bv7): DirectedEdge {
    DirectedEdge(end, 0, length, true, mask, 0, Road, PLAIN, [], false, None)
  }

  /** A connection to a stop, on the transit level. */
  function ToStop(): DirectedEdge {
    DirectedEdge(GraphId(TileId(3, 0), 0), 0, 1, false, 0, 0, TransitConnection, PLAIN, [], false, None)
  }

  // ---------------------------------------------------------------------------------------------
  // Two edges and their shortcuts

  /** The lengths of the two edges and of the shortcut, the names of the road, and whether the shortcut back has
      a number. */
  datatype RowKind = RowKind(edgeLength: nat, shortcutLength: nat, names: seq<string>, numbered: bool)

  function BackNumber(k: RowKind): bv7 {
    if k.numbered then 1 else 0
  }

  /** The first edge of a shortcut with a number. */
  predicate IsFirst(k: RowKind, first: nat) {
    first == 4 || (first == 6 && k.numbered)
  }

  /** Nodes 1, 0 and 2 in a row. There is a stop at node 0 in the middle; the first edge at each of the others
      is the shortcut to the other end. */
  function RowEdge(k: RowKind, i: nat): DirectedEdge {
    if i == 0 then Half(E(1), 1, 0, k.edgeLength, k.names) else if i == 1 then Half(E(2), 1, 0, k.edgeLength, k.names)
    else if i == 2 then ToStop()
    else if i == 3 then Both(E(2), k.shortcutLength, 1) else if i == 4 then Half(E(0), 0, 1, k.edgeLength, k.names)
    else if i == 5 then Both(E(1), k.shortcutLength, BackNumber(k))
    else Half(E(0), 1, BackNumber(k), k.edgeLength, k.names)
  }

  function NodeOf(i: nat): nat {
    if i < 3 then 0 else if i < 5 then 1 else 2
  }

  function Row(k: RowKind): Graph {
    map[T := Tile([NodeInfo(0, 3), NodeInfo(3, 2), NodeInfo(5, 2)], seq(7, i requires 0 <= i => RowEdge(k, i)))]
  }

  lemma RowIsTile(k: RowKind)
    ensures forall e | ValidEdge(Row(k), e) :: e.tile == T && e.id < 7 && Edge(Row(k), e) == RowEdge(k, e.id)
    ensures forall i: nat | i < 7 :: ValidEdge(Row(k), E(i))
    ensures forall n | ValidNode(Row(k), n) ::
              n.tile == T && n.id < 3 && Node(Row(k), n) == NodeInfo(if n.id == 0 then 0 else 2 * n.id + 1,
                                                                     if n.id == 0 then 3 else 2)
    ensures forall i: nat | i < 3 :: ValidNode(Row(k), E(i))
    ensures Row(k).Keys == {T} && |Row(k)[T].edges| == 7
  {
  }

  function RowOpp(i: nat): nat {
    if i == 0 then 4 else if i == 4 then 0 else if i == 1 then 6 else if i == 6 then 1 else if i == 3 then 5 else 3
  }

  lemma RowEnds(k: RowKind, i: nat)
    requires i < 7 && i != 2
    ensures var n := NodeOf(RowOpp(i));
            RowEdge(k, i).endnode == E(n) && (if n == 0 then 0 else 2 * n + 1) + RowEdge(k, i).oppIndex == RowOpp(i)
    ensures RowOpp(i) < 7 && RowOpp(i) != 2 && RowOpp(RowOpp(i)) == i && RowOpp(i) != i
    ensures !RowEdge(k, i).IsTransitLine()
  {
  }

  lemma RowLeaves(k: RowKind, i: nat)
    requires i < 7
    ensures ValidNode(Row(k), E(NodeOf(i))) && Leaves(Row(k), E(i), E(NodeOf(i)))
  {
    hide Row;
    RowIsTile(k);
    assert ValidNode(Row(k), E(NodeOf(i)));
  }

  lemma RowRawOpp(k: RowKind, i: nat)
    requires i < 7 && i != 2
    ensures ValidEdge(Row(k), E(i)) && ValidNode(Row(k), End(Row(k), E(i)))
    ensures RawOpp(Row(k), E(i)) == E(RowOpp(i)) && End(Row(k), E(i)) == E(NodeOf(RowOpp(i)))
    ensures !Edge(Row(k), E(i)).IsTransitLine()
  {
    hide Row, RowEdge, RowOpp;
    RowIsTile(k);
    RowEnds(k, i);
    RowLeaves(k, RowOpp(i));
  }

  lemma RowEdgeIsOk(k: RowKind, i: nat)
    requires i < 7
    ensures ValidEdge(Row(k), E(i)) && EdgeOk(Row(k), E(i))
  {
    hide Row, RowEdge, RowOpp, NodeOf;
    RowLeaves(k, i);
    if i == 2 {
      RowStop(k);
    } else {
      RowEnds(k, i);
      RowRawOpp(k, i);
      RowRawOpp(k, RowOpp(i));
      RowLeaves(k, RowOpp(i));
    }
  }

  lemma RowStop(k: RowKind)
    ensures ValidEdge(Row(k), E(2)) && End(Row(k), E(2)).tile !in Row(k) && Edge(Row(k), E(2)) == ToStop()
  {
    hide Row;
    RowIsTile(k);
  }

  lemma RowEdges(k: RowKind)
    ensures WellFormed(Row(k))
    ensures forall e | ValidEdge(Row(k), e) ::
              e.tile == T && e.id < 7 && Edge(Row(k), e) == RowEdge(k, e.id) && Start(Row(k), e) == E(NodeOf(e.id))
  {
    hide Row, EdgeOk, RowEdge, Start, NodeOf;
    RowIsTile(k);
    forall e | ValidEdge(Row(k), e)
      ensures EdgeOk(Row(k), e)
    {
      RowEdgeIsOk(k, e.id);
    }
    RowNodesAreOk(k);
    forall e | ValidEdge(Row(k), e)
      ensures Start(Row(k), e) == E(NodeOf(e.id))
    {
      RowLeaves(k, e.id);
      StartIsUnique(Row(k), e, E(NodeOf(e.id)));
    }
  }

  lemma RowNodesAreOk(k: RowKind)
    ensures forall n | ValidNode(Row(k), n) :: NodeOk(Row(k), n)
  {
    hide Row;
    RowIsTile(k);
  }

  lemma RowHas(k: RowKind, i: nat)
    requires i < 7
    ensures WellFormed(Row(k)) && ValidEdge(Row(k), E(i))
    ensures Start(Row(k), E(i)) == E(NodeOf(i)) && Edge(Row(k), E(i)) == RowEdge(k, i)
  {
    hide Row, WellFormed, Start, RowEdge, NodeOf;
    RowEdges(k);
    RowIsTile(k);
  }

  lemma RowOpposing(k: RowKind, i: nat)
    requires i < 7 && i != 2
    ensures WellFormed(Row(k)) && ValidEdge(Row(k), E(i)) && Opposing(Row(k), E(i)) == Some(E(RowOpp(i)))
  {
    hide Row, WellFormed, RowEdge, RowOpp;
    RowHas(k, i);
    RowRawOpp(k, i);
  }

  lemma RowMatches(k: RowKind, p: nat, e: nat)
    requires (p == 4 && e == 1) || (p == 6 && e == 0)
    ensures RowOpp(p) == 1 - e && EdgesMatch(RowEdge(k, RowOpp(p)), RowEdge(k, e)) && !RowEdge(k, p).traits.sign
    ensures RowEdge(k, 0).CanFormShortcut() && RowEdge(k, 1).CanFormShortcut() && !RowEdge(k, 2).CanFormShortcut()
    ensures forall i: nat | i < 3 :: RowEdge(k, i).nhvrTag.None? && !RowEdge(k, i).isShortcut
    ensures RowEdge(k, p).endnode == E(0)
  {
  }

  lemma RowEdgesInside(k: RowKind, d: GraphId)
    requires WellFormed(Row(k)) && ValidEdge(Row(k), d) && Start(Row(k), d) == E(0)
    ensures (d == E(0) || d == E(1) || d == E(2)) && Edge(Row(k), d) == RowEdge(k, d.id)
  {
    hide Row, WellFormed, Start, RowEdge;
    RowEdges(k);
  }

  lemma RowContracts(k: RowKind, p: nat, e: nat)
    requires (p == 4 && e == 1) || (p == 6 && e == 0)
    ensures WellFormed(Row(k)) && ContractsThrough(Row(k), E(p), E(e))
  {
    hide Row, WellFormed, Start, ShortcutAt, RowEdge, RowOpp, EdgesMatch, DirectedEdge.CanFormShortcut, Opposing;
    RowMatches(k, p, e);
    RowHas(k, p);
    RowHas(k, e);
    RowHas(k, 1 - e);
    RowOpposing(k, p);
    RowNoShortcutInside(k);
    forall d | ValidEdge(Row(k), d) && Start(Row(k), d) == Start(Row(k), E(e))
      ensures Edge(Row(k), d).CanFormShortcut() <==> d == E(e) || d == E(1 - e)
    {
      RowEdgesInside(k, d);
    }
  }

  lemma RowNoShortcutInside(k: RowKind)
    ensures WellFormed(Row(k)) && ValidNode(Row(k), E(0)) && !ShortcutAt(Row(k), E(0))
  {
    hide Row, WellFormed, RowEdge, Start;
    RowHas(k, 0);
    RowMatches(k, 4, 1);
    OutEdgesValid(Row(k), E(0));
    forall d | d in OutEdges(Row(k), E(0))
      ensures !Edge(Row(k), d).isShortcut
    {
      RowEdgesInside(k, d);
    }
  }

  /** The shortcut at the begin of the first edge, from either end. */
  lemma RowShortcutOf(k: RowKind, first: nat)
    requires IsFirst(k, first)
    ensures WellFormed(Row(k)) && ValidEdge(Row(k), E(first)) && Superseded(Row(k), E(first))
    ensures ShortcutOf(Row(k), E(first)) == E(first - 1)
  {
    hide Row, WellFormed;
    RowHas(k, first);
    RowIsTile(k);
  }

  function Second(first: nat): nat {
    if first == 4 then 1 else 0
  }

  lemma RowIsContracted(k: RowKind, first: nat)
    requires IsFirst(k, first)
    ensures WellFormed(Row(k)) && Contracted(Row(k), E(first - 1), [E(first), E(Second(first))])
  {
    hide Row, WellFormed, Start, ContractsThrough, ShortcutOf, Superseded;
    RowHas(k, first);
    RowHas(k, first - 1);
    RowHas(k, Second(first));
    RowContracts(k, first, Second(first));
    RowShortcutOf(k, first);
  }

  lemma RowBits(k: RowKind, first: nat)
    requires IsFirst(k, first)
    ensures SR.CommonBit(RowEdge(k, first - 1).shortcutMask, RowEdge(k, first).superseded)
    ensures RowEdge(k, first - 1).isShortcut && !RowEdge(k, first).isShortcut
    ensures !SR.CommonBit(RowEdge(k, first - 1).shortcutMask, RowEdge(k, first - 1).superseded)
  {
  }

  lemma RowEdgesAt(k: RowKind, d: GraphId, first: nat)
    requires IsFirst(k, first)
    requires WellFormed(Row(k)) && ValidEdge(Row(k), d) && Start(Row(k), d) == E(NodeOf(first))
    ensures d == E(first) || d == E(first - 1)
  {
    hide Row, WellFormed, Start, RowEdge;
    RowEdges(k);
  }

  lemma RowIsNumbered(k: RowKind, first: nat)
    requires IsFirst(k, first)
    ensures WellFormed(Row(k)) && ValidEdge(Row(k), E(first)) && Superseded(Row(k), E(first))
    ensures Numbered(Row(k), E(first))
  {
    hide Row, WellFormed, Start, ShortcutOf, Superseded, RowEdge, SR.CommonBit;
    RowShortcutOf(k, first);
    RowHas(k, first);
    RowHas(k, first - 1);
    RowBits(k, first);
    forall d | ValidEdge(Row(k), d) && Start(Row(k), d) == Start(Row(k), E(first))
      ensures d == E(first) || d == E(first - 1)
    {
      RowEdgesAt(k, d, first);
    }
  }

  lemma RowHasContraction(k: RowKind, first: nat)
    requires IsFirst(k, first)
    ensures WellFormed(Row(k)) && ValidEdge(Row(k), E(first)) && Superseded(Row(k), E(first))
    ensures HasContraction(Row(k), E(first))
  {
    hide Row, WellFormed, Contracted, ShortcutOf;
    RowShortcutOf(k, first);
    RowIsContracted(k, first);
    var es := [E(first), E(Second(first))];
    assert Contracted(Row(k), ShortcutOf(Row(k), E(first)), es) && es[0] == E(first);
  }

  lemma RowSuperseded(k: RowKind, i: nat)
    requires i < 7 && RowEdge(k, i).superseded != 0
    ensures IsFirst(k, i)
  {
  }

  lemma RowIsBuilt(k: RowKind)
    ensures WellFormed(Row(k)) && Built(Row(k))
  {
    hide Row, WellFormed, Numbered, HasContraction, Start, RowEdge;
    RowEdges(k);
    forall e | ValidEdge(Row(k), e) && Superseded(Row(k), e)
      ensures Numbered(Row(k), e) && HasContraction(Row(k), e)
    {
      RowSuperseded(k, e.id);
      RowIsNumbered(k, e.id);
      RowHasContraction(k, e.id);
    }
  }

  lemma RowHalf(k: RowKind, i: nat)
    requires i < 7
    ensures !RowEdge(k, i).IsTransitLine() && !RowEdge(k, i).bssConnection
    ensures RowEdge(k, i).CanFormShortcut() || RowEdge(k, i).isShortcut <==> i != 2
    ensures i != 2 ==>
              var o := RowOpp(i);
              && o < 7 && o != 2 && Mirrors(RowEdge(k, i), RowEdge(k, o)) && RowEdge(k, i).endnode.tile == T
              && RowEdge(k, i).isShortcut == RowEdge(k, o).isShortcut
              && RowEdge(k, i).CanFormShortcut() == RowEdge(k, o).CanFormShortcut()
  {
    hide BackNumber;
    if i == 3 || i == 5 {
      assert RowEdge(k, i).isShortcut;
    }
  }

  lemma RowHalves(k: RowKind)
    ensures WellFormed(Row(k)) && ShortcutLevels(Row(k)) && HalvesMirror(Row(k))
  {
    hide Row, WellFormed, Opposing, Start, RowEdge, RowOpp, Mirrors, DirectedEdge.CanFormShortcut,
      DirectedEdge.IsTransitLine;
    RowEdges(k);
    forall e | ValidEdge(Row(k), e)
      ensures HalvesAgree(Row(k), e) && !Edge(Row(k), e).IsTransitLine() && !Edge(Row(k), e).bssConnection
      ensures Opposing(Row(k), e).Some? ==>
                && ValidEdge(Row(k), Opposing(Row(k), e).value)
                && Mirrors(Edge(Row(k), e), Edge(Row(k), Opposing(Row(k), e).value))
    {
      RowHalf(k, e.id);
      if e.id == 2 {
        RowStopAlone(k);
      } else {
        RowOpposing(k, e.id);
        RowHas(k, RowOpp(e.id));
      }
    }
  }

  lemma RowStopAlone(k: RowKind)
    ensures WellFormed(Row(k)) && ValidEdge(Row(k), E(2)) && Opposing(Row(k), E(2)) == None
  {
    hide Row, WellFormed;
    RowHas(k, 2);
    RowStop(k);
  }

  predicate StoredLengths(k: RowKind) {
    1 <= k.edgeLength < 0x100_0000 && 1 <= k.shortcutLength < 0x100_0000
  }

  lemma RowLengthsInRange(k: RowKind)
    requires StoredLengths(k)
    ensures SR.LengthsInRange(Row(k))
  {
    hide Row;
    RowIsTile(k);
  }

  lemma RowLength(k: RowKind, es: seq<GraphId>)
    requires es == [E(4), E(1)]
    ensures AllValid(Row(k), es) && SR.Length(Row(k), es) == 2 * k.edgeLength
  {
    hide Row, WellFormed, Start;
    RowHas(k, 4);
    RowHas(k, 1);
    assert es[..1] == [E(4)] && [E(4)][..0] == [];
    assert SR.Length(Row(k), [E(4)]) == SR.Length(Row(k), []) + k.edgeLength;
  }

  /** The row meets every condition, although there is a stop at its contracted node. */
  lemma RowIsSound(k: RowKind)
    requires StoredLengths(k)
    ensures SoundTiles(Row(k)) && Contracted(Row(k), E(3), [E(4), E(1)])
  {
    hide Row, WellFormed, Built, ShortcutLevels, HalvesMirror, Contracted, SR.LengthsInRange;
    RowIsContracted(k, 4);
    RowIsBuilt(k);
    RowHalves(k);
    RowLengthsInRange(k);
  }

  lemma RowRecoveredIff(k: RowKind)
    requires StoredLengths(k)
    ensures WellFormed(Row(k)) && ValidEdge(Row(k), E(3))
    ensures SR.Expansion(Row(k), E(3), [E(4), E(1)]) <==>
              2 <= k.shortcutLength && k.shortcutLength - 2 <= 2 * k.edgeLength <= k.shortcutLength + 2
  {
    hide Row, WellFormed, Built, ShortcutLevels, HalvesMirror, Contracted, SR.LengthsInRange, SR.Expansion, SR.Length,
      Opposing;
    RowIsSound(k);
    RowHas(k, 3);
    RowOpposing(k, 3);
    var es := [E(4), E(1)];
    RowLength(k, es);
    RecoveredIff(Row(k), E(3), es);
  }

  /** With two edges of length 100 and a shortcut of 200, the shortcut is recovered as the two edges. */
  lemma RowIsRecovered(k: RowKind)
    requires k.edgeLength == 100 && k.shortcutLength == 200
    ensures SoundTiles(Row(k)) && SR.Expansion(Row(k), E(3), [E(4), E(1)])
  {
    hide Row, SoundTiles, SR.Expansion;
    RowIsSound(k);
    RowRecoveredIff(k);
  }

  /** With all lengths 1 it is not recovered, although the lengths differ by less than the roundoff error: that
      exceeds the shortcut's length, and the difference of the two wraps around. */
  lemma ShortRowIsNotRecovered(k: RowKind, fs: seq<GraphId>)
    requires k.edgeLength == 1 && k.shortcutLength == 1
    ensures SoundTiles(Row(k)) && Contracted(Row(k), E(3), [E(4), E(1)]) && ValidEdge(Row(k), E(3))
    ensures !SR.Expansion(Row(k), E(3), fs)
  {
    hide Row, WellFormed, Built, ShortcutLevels, HalvesMirror, Contracted, SR.LengthsInRange, SR.Expansion;
    RowIsSound(k);
    RowRecoveredIff(k);
    if SR.Expansion(Row(k), E(3), fs) {
      ExpansionIsContraction(Row(k), E(3), [E(4), E(1)], fs);
    }
  }

  lemma RowMirror(k: RowKind)
    ensures WellFormed(Row(k)) && SR.AllOpposed(Row(k), [E(4), E(1)])
    ensures SR.Mirror(Row(k), [E(4), E(1)]) == [E(6), E(0)]
  {
    hide Row, WellFormed, Opposing;
    RowOpposing(k, 4);
    RowOpposing(k, 1);
    SR.MirrorElements(Row(k), [E(4), E(1)], 0);
    SR.MirrorElements(Row(k), [E(4), E(1)], 1);
  }

  lemma RowNotRecoveredBack(k: RowKind, fs: seq<GraphId>)
    requires !k.numbered
    ensures WellFormed(Row(k)) && ValidEdge(Row(k), E(5)) && Edge(Row(k), E(5)).shortcutMask == 0
    ensures !SR.Expansion(Row(k), E(5), fs)
  {
    hide Row, WellFormed, SR.FirstStep, SR.NextStep, SR.NeverTooLong;
    RowHas(k, 5);
    if SR.FirstStep(Row(k), E(5)).Some? {
      SR.FirstStepFits(Row(k), E(5));
    }
  }

  /** When the shortcut back has no number, as an eighth shortcut at its node, the filled cache has the mirrored edges
      for it, and without the cache it is not recovered. */
  method PrefillDiffers(k: RowKind) returns (cached: seq<GraphId>, recovered: seq<GraphId>)
    requires k.edgeLength == 100 && k.shortcutLength == 200 && !k.numbered
    ensures SoundTiles(Row(k)) && cached == [E(6), E(0)] && recovered == [E(5)]
  {
    hide Row, WellFormed, Built, ShortcutLevels, HalvesMirror, SR.LengthsInRange, SR.Expansion, Opposing, SR.Mirror;
    RowIsRecovered(k);
    RowHas(k, 3);
    RowOpposing(k, 3);
    RowMirror(k);
    RowIsTile(k);
    var cache := new SR.ShortcutCache(Row(k), [T], true);
    RowNotRecoveredBack(k, []);
    SR.HoldsBoth(Row(k), cache.shortcuts, E(3));
    cached := cache.Get(E(5));
    OpposingTurnsAround(Row(k), E(3));
    assert SR.Source(Row(k), cache.shortcuts, E(3));
    RecoveredAs(Row(k), E(3), cache.shortcuts[E(3)], [E(4), E(1)]);
    recovered := SR.RecoverShortcut(Row(k), E(5));
    RowNotRecoveredBack(k, recovered);
  }

  /** A line without a name, begun at the first edge of the row, grows onto the shortcut: the first edge at its
      end is the shortcut, which the main loop has not come by. */
  method GrowsOntoShortcut(k: RowKind) returns (next: Option<GraphId>)
    requires k.names == []
    ensures next == Some(E(3)) && ValidEdge(Row(k), E(3)) && Edge(Row(k), E(3)).isShortcut
  {
    hide Row, WellFormed, Start, Opposing, ET.EdgeTracker.Tracked, ET.EdgeTracker.Valid;
    RowHas(k, 0);
    RowHas(k, 3);
    RowHas(k, 4);
    RowRawOpp(k, 0);
    RowIsTile(k);
    var opts := EX.Options(false, true);
    var tracker := new ET.EdgeTracker.Create([T], Row(k));
    tracker.Set(E(0));
    tracker.Set(E(4));
    next := EX.Next(tracker, Row(k), opts, E(0), []);
    assert EX.Candidate(Row(k), opts, tracker.Tracked(), [], E(3));
    RowLeaves(k, 3);
  }

  // ---------------------------------------------------------------------------------------------
  // The border of the tile set

  /** Nodes 0 and 1 with the road between them; at node 1 the road goes on under its name into a tile
      that is missing. */
  function BorderEdge(i: nat): DirectedEdge {
    if i == 0 then Half(E(1), 0, 0, 100, ["A1"]) else if i == 1 then Half(E(0), 0, 0, 100, ["A1"])
    else Half(GraphId(TileId(1, 1), 0), 0, 0, 100, ["A1"])
  }

  function Border(): Graph {
    map[T := Tile([NodeInfo(0, 1), NodeInfo(1, 2)], seq(3, i requires 0 <= i => BorderEdge(i)))]
  }

  lemma BorderIsTile()
    ensures forall e | ValidEdge(Border(), e) :: e.tile == T && e.id < 3 && Edge(Border(), e) == BorderEdge(e.id)
    ensures forall i: nat | i < 3 :: ValidEdge(Border(), E(i))
    ensures forall n | ValidNode(Border(), n) ::
              n.tile == T && n.id < 2 && Node(Border(), n) == NodeInfo(n.id, 1 + n.id)
    ensures forall i: nat | i < 2 :: ValidNode(Border(), E(i))
    ensures Border().Keys == {T} && |Border()[T].edges| == 3
  {
  }

  lemma BorderEdgeIsOk(e: GraphId)
    requires ValidEdge(Border(), e)
    ensures EdgeOk(Border(), e)
  {
    hide Border;
    BorderIsTile();
    assert Leaves(Border(), e, E(if e.id == 0 then 0 else 1));
  }

  lemma BorderEdges()
    ensures WellFormed(Border())
    ensures forall e | ValidEdge(Border(), e) ::
              && e.tile == T && e.id < 3 && Edge(Border(), e) == BorderEdge(e.id)
              && Start(Border(), e) == E(if e.id == 0 then 0 else 1)
    ensures forall i: nat | i < 3 :: ValidEdge(Border(), E(i))
    ensures Opposing(Border(), E(0)) == Some(E(1)) && Opposing(Border(), E(1)) == Some(E(0))
    ensures Opposing(Border(), E(2)) == None && Border().Keys == {T}
  {
    hide Border, EdgeOk, Start;
    BorderIsTile();
    forall e | ValidEdge(Border(), e)
      ensures EdgeOk(Border(), e)
    {
      BorderEdgeIsOk(e);
    }
    forall e | ValidEdge(Border(), e)
      ensures Start(Border(), e) == E(if e.id == 0 then 0 else 1)
    {
      StartIsUnique(Border(), e, E(if e.id == 0 then 0 else 1));
    }
  }

  /** Looking up the edge from node 1 to node 0 asks for the missing tile. */
  lemma LookUpRunsOff()
    ensures WellFormed(Border()) && ShortcutLevels(Border()) && RunsOff(Border(), E(1), [E(1)], E(2))
  {
    hide Border, WellFormed, Start, Opposing, Continuing;
    BorderEdges();
    BorderIsTile();
    forall e | ValidEdge(Border(), e)
      ensures HalvesAgree(Border(), e) && !Edge(Border(), e).IsTransitLine()
    {
      assert e == E(0) || e == E(1) || e == E(2);
    }
    OnlyOtherContinues(Border(), E(1), E(1), E(2));
  }

  /** Exporting the edges stops at the missing tile. */
  method ExportRunsOut() returns (lines: seq<EX.Line>, out: Option<GraphId>)
    ensures out == Some(E(2))
  {
    hide Border, WellFormed, Start, Opposing, EX.Rows;
    BorderEdges();
    var opts := EX.Options(false, false);
    assert (set t | t in [T]) == Border().Keys;
    lines, out := EX.Export(Border(), opts, [T]);
    if out.None? {
      BorderExportable(opts);
      OneRow(opts, lines);
    } else {
      assert EX.Stub(Border(), opts, out.value);
    }
  }

  lemma BorderExportable(opts: EX.Options)
    requires opts == EX.Options(false, false)
    ensures WellFormed(Border()) && EX.Exportable(Border(), opts, E(0)) && EX.Exportable(Border(), opts, E(1))
    ensures Opposing(Border(), E(0)) == Some(E(1))
  {
    hide Border, WellFormed, Start, Opposing;
    BorderEdges();
  }

  /** The line of the one road there is was begun before the main loop came to the stub. */
  lemma StubLeft(opts: EX.Options, l: EX.Line, x: GraphId)
    requires opts == EX.Options(false, false) && WellFormed(Border()) && l.edges == [x] && (x == E(0) || x == E(1))
    requires EX.WellMade(Border(), opts, l)
    ensures !EX.Begun(Border(), opts, [T], l)
  {
    hide Border, WellFormed, Start, Opposing;
    BorderEdges();
    var r := E(2);
    assert EX.Stub(Border(), opts, r) && Start(Border(), r) == E(1);
    assert EX.Belongs(Border(), opts, l.names, x);
    assert EX.StubAtEnds(Border(), opts, l, r);
    forall t: nat, i: nat
      ensures !EX.BegunAt(Border(), opts, [T], t, i, l)
    {
      StubsBefore(opts, l, r, t, i);
    }
  }

  lemma StubsBefore(opts: EX.Options, l: EX.Line, r: GraphId, t: nat, i: nat)
    requires WellFormed(Border()) && EX.WellMade(Border(), opts, l) && EX.StubAtEnds(Border(), opts, l, r)
    ensures EX.BegunAt(Border(), opts, [T], t, i, l) ==> t < 1 && GraphId(T, i) in l.edges && EX.Visited([T], t, i, r)
  {
  }

  lemma OneRow(opts: EX.Options, lines: seq<EX.Line>)
    requires opts == EX.Options(false, false) && WellFormed(Border()) && EX.Rows(Border(), opts, [T], lines)
    ensures !EX.InSome(Border(), EX.Flat(lines), E(0))
  {
    hide Border, WellFormed, Start, Opposing, EX.Begun, EX.Flat, EX.AllGreedy;
    BorderEdges();
    var e := E(0);
    if EX.InSome(Border(), EX.Flat(lines), e) {
      var x :| x in EX.Flat(lines) && EX.SameRoad(Border(), x, e);
      var l := EX.FlatHas(lines, x);
      EX.FlatKeepsLine(Border(), lines, l);
      SingleRoad(opts, l, x);
      StubLeft(opts, l, x);
    }
  }

  lemma FirstTwoDiffer(es: seq<GraphId>)
    requires WellFormed(Border()) && EX.RoadsDistinct(Border(), es) && |es| > 1
    ensures !EX.SameRoad(Border(), es[0], es[1])
  {
  }

  lemma SingleRoad(opts: EX.Options, l: EX.Line, x: GraphId)
    requires WellFormed(Border()) && EX.RoadsDistinct(Border(), l.edges) && x in l.edges
    requires forall e | e in l.edges :: ValidEdge(Border(), e) && Opposing(Border(), e).Some?
    ensures l.edges == [x] && (x == E(0) || x == E(1))
  {
    hide Border, WellFormed, Start, Opposing;
    BorderEdges();
    assert forall e | e in l.edges :: e == E(0) || e == E(1);
    if |l.edges| > 1 {
      FirstTwoDiffer(l.edges);
    }
  }

  // ---------------------------------------------------------------------------------------------
  // A road with a name on one side

  /** Nodes 0 and 1 with the road between them, which has a name in one direction only. */
  function SidedEdge(named: nat, i: nat): DirectedEdge {
    Half(E(if i == 0 then 1 else 0), 0, 0, 100, if i == named then ["A1"] else [])
  }

  function Sided(named: nat): Graph {
    map[T := Tile([NodeInfo(0, 1), NodeInfo(1, 1)], seq(2, i requires 0 <= i => SidedEdge(named, i)))]
  }

  lemma SidedIsTile(named: nat)
    ensures forall e | ValidEdge(Sided(named), e) ::
              e.tile == T && e.id < 2 && Edge(Sided(named), e) == SidedEdge(named, e.id)
    ensures forall i: nat | i < 2 :: ValidEdge(Sided(named), E(i)) && ValidNode(Sided(named), E(i))
    ensures forall n | ValidNode(Sided(named), n) ::
              n.tile == T && n.id < 2 && Node(Sided(named), n) == NodeInfo(n.id, 1)
    ensures Sided(named).Keys == {T} && |Sided(named)[T].edges| == 2
  {
  }

  lemma SidedEdges(named: nat)
    ensures WellFormed(Sided(named)) && Sided(named).Keys == {T}
    ensures forall e | ValidEdge(Sided(named), e) ::
              (e == E(0) || e == E(1)) && Edge(Sided(named), e) == SidedEdge(named, e.id)
    ensures ValidEdge(Sided(named), E(0)) && ValidEdge(Sided(named), E(1))
    ensures Opposing(Sided(named), E(0)) == Some(E(1)) && Opposing(Sided(named), E(1)) == Some(E(0))
  {
    hide Sided, EdgeOk;
    SidedIsTile(named);
    forall e | ValidEdge(Sided(named), e)
      ensures EdgeOk(Sided(named), e)
    {
      SidedEdgeIsOk(named, e);
    }
  }

  lemma SidedEdgeIsOk(named: nat, e: GraphId)
    requires ValidEdge(Sided(named), e)
    ensures EdgeOk(Sided(named), e)
  {
    hide Sided;
    SidedIsTile(named);
    assert Leaves(Sided(named), e, E(e.id));
  }

  lemma SidedHalves(named: nat, opts: EX.Options)
    requires named < 2 && opts == EX.Options(false, false)
    ensures WellFormed(Sided(named)) && EX.Exportable(Sided(named), opts, E(named))
    ensures EX.StandsAlone(Sided(named), opts, E(named))
    ensures EX.PassedOver(Sided(named), opts, Opposing(Sided(named), E(named)).value)
    ensures forall b :: !EX.Stub(Sided(named), opts, b)
  {
    hide Sided, WellFormed, Start, Opposing, EX.Belongs, EX.Meet;
    SidedEdges(named);
  }

  lemma SidedOrder(a: nat, b: nat)
    requires a < 2 && b == 1 - a
    ensures EX.ComesFirst([T], E(a), E(b)) <==> a == 0
  {
    if a == 0 {
      assert !EX.Visited([T], 0, 0, E(b));
    }
  }

  /** Without the switch for unnamed edges the road is exported exactly if the main loop comes by the half with the
      name first. */
  method ExportOneSided(named: nat) returns (lines: seq<EX.Line>, out: Option<GraphId>)
    requires named < 2
    ensures WellFormed(Sided(named)) && EX.Exportable(Sided(named), EX.Options(false, false), E(named)) && out == None
    ensures EX.InSome(Sided(named), EX.Flat(lines), E(named)) <==> named == 0
  {
    hide Sided, WellFormed, Start, Opposing, EX.Rows, EX.NothingMissed, EX.StandsAlone, EX.ComesFirst, EX.InSome,
      EX.PassedOver, EX.Flat, EX.Exportable, EX.Stub;
    var opts := EX.Options(false, false);
    SidedEdges(named);
    SidedHalves(named, opts);
    assert (set t | t in [T]) == Sided(named).Keys;
    lines, out := EX.Export(Sided(named), opts, [T]);
    EX.CoveredIffFirst(Sided(named), opts, [T], lines, E(named));
    SidedOrder(1 - named, named);
  }

  // ---------------------------------------------------------------------------------------------
  // Two shortcuts at one node

  /** Node 0 has two shortcuts, numbers 1 and 2 to nodes 1 and 2, and a road each way that they supersede. */
  function ForkEdge(i: nat): DirectedEdge {
    if i == 0 then ForkShortcut(E(1), 0, 1) else if i == 1 then ForkShortcut(E(2), 0, 2)
    else if i == 2 then Half(E(1), 1, 1, 100, []) else if i == 3 then Half(E(2), 1, 2, 100, [])
    else if i == 4 then ForkShortcut(E(0), 0, 1) else if i == 5 then Half(E(0), 2, 1, 100, [])
    else if i == 6 then ForkShortcut(E(0), 1, 1) else Half(E(0), 3, 1, 100, [])
  }

  function ForkShortcut(end: GraphId, oppIndex: nat, mask: bv7): DirectedEdge {
    DirectedEdge(end, oppIndex, 100, true, mask, 0, Road, PLAIN, [], false, None)
  }

  function Fork(): Graph {
    map[T := Tile([NodeInfo(0, 4), NodeInfo(4, 2), NodeInfo(6, 2)], seq(8, i requires 0 <= i => ForkEdge(i)))]
  }

  function ForkNode(i: nat): nat {
    if i < 4 then 0 else if i < 6 then 1 else 2
  }

  lemma ForkIsTile()
    ensures forall e | ValidEdge(Fork(), e) :: e.tile == T && e.id < 8 && Edge(Fork(), e) == ForkEdge(e.id)
    ensures forall i: nat | i < 8 :: ValidEdge(Fork(), E(i))
    ensures forall n | ValidNode(Fork(), n) ::
              n.tile == T && n.id < 3 && Node(Fork(), n) == NodeInfo(if n.id == 0 then 0 else 2 + 2 * n.id,
                                                                     if n.id == 0 then 4 else 2)
    ensures forall i: nat | i < 3 :: ValidNode(Fork(), E(i))
    ensures Fork().Keys == {T} && |Fork()[T].edges| == 8
  {
  }

  function ForkOpp(i: nat): nat {
    if i == 0 then 4 else if i == 1 then 6 else if i == 2 then 5 else if i == 3 then 7
    else if i == 4 then 0 else if i == 5 then 2 else if i == 6 then 1 else 3
  }

  lemma ForkOpposes(i: nat)
    requires i < 8
    ensures ForkOpp(i) < 8 && ForkOpp(i) != i && ForkOpp(ForkOpp(i)) == i && ForkNode(i) < 3
    ensures ForkEdge(i).endnode == E(ForkNode(ForkOpp(i)))
    ensures ForkEdge(ForkOpp(i)).isShortcut == ForkEdge(i).isShortcut && !ForkEdge(i).bssConnection
    ensures !ForkEdge(i).IsTransitLine() && ForkEdge(i).CanFormShortcut() == !ForkEdge(i).isShortcut
  {
  }

  lemma ForkLeaves(i: nat)
    requires i < 8
    ensures ValidEdge(Fork(), E(i)) && ValidNode(Fork(), E(ForkNode(i))) && Leaves(Fork(), E(i), E(ForkNode(i)))
    ensures ValidNode(Fork(), End(Fork(), E(i))) && RawOpp(Fork(), E(i)) == E(ForkOpp(i))
    ensures Edge(Fork(), E(i)) == ForkEdge(i)
  {
    hide Fork;
    ForkIsTile();
  }

  lemma ForkEdgeIsOk(i: nat)
    requires i < 8
    ensures ValidEdge(Fork(), E(i)) && EdgeOk(Fork(), E(i))
  {
    hide Fork, ForkEdge, RawOpp, ForkNode, ForkOpp, Leaves, DirectedEdge.IsTransitLine;
    ForkOpposes(i);
    ForkOpposes(ForkOpp(i));
    ForkLeaves(i);
    ForkLeaves(ForkOpp(i));
  }

  lemma ForkEdges()
    ensures WellFormed(Fork()) && ShortcutLevels(Fork())
    ensures forall i: nat | i < 8 :: ValidEdge(Fork(), E(i)) && Opposing(Fork(), E(i)) == Some(E(ForkOpp(i)))
  {
    hide Fork, EdgeOk, ForkEdge, RawOpp, HalvesAgree, Opposing, ForkOpp;
    ForkIsTile();
    forall e | ValidEdge(Fork(), e)
      ensures EdgeOk(Fork(), e)
    {
      assert e == E(e.id);
      ForkEdgeIsOk(e.id);
    }
    ForkIsWellFormed();
    hide WellFormed;
    forall i: nat | i < 8
      ensures ValidEdge(Fork(), E(i)) && Opposing(Fork(), E(i)) == Some(E(ForkOpp(i)))
    {
      ForkHalves(i);
    }
    forall e | ValidEdge(Fork(), e)
      ensures HalvesAgree(Fork(), e) && !Edge(Fork(), e).IsTransitLine() && !Edge(Fork(), e).bssConnection
    {
      assert e == E(e.id);
      ForkHalves(e.id);
    }
  }

  lemma ForkIsWellFormed()
    requires forall e | ValidEdge(Fork(), e) :: EdgeOk(Fork(), e)
    ensures WellFormed(Fork())
  {
    hide Fork, EdgeOk;
    ForkIsTile();
  }

  lemma ForkHalves(i: nat)
    requires i < 8 && WellFormed(Fork())
    ensures ValidEdge(Fork(), E(i)) && Opposing(Fork(), E(i)) == Some(E(ForkOpp(i)))
    ensures HalvesAgree(Fork(), E(i)) && !Edge(Fork(), E(i)).IsTransitLine() && !Edge(Fork(), E(i)).bssConnection
  {
    hide Fork, WellFormed, RawOpp, ForkEdge, ForkOpp, ForkNode, DirectedEdge.IsTransitLine,
      DirectedEdge.CanFormShortcut;
    ForkOpposes(i);
    ForkOpposes(ForkOpp(i));
    ForkLeaves(i);
    ForkLeaves(ForkOpp(i));
  }

  /** Looking up the edge that the second shortcut supersedes finds the second shortcut. */
  method FindsSecondShortcut() returns (r: Lookup)
    ensures Edge(Fork(), E(3)).superseded == 2 && Edge(Fork(), E(1)).isShortcut && Edge(Fork(), E(1)).shortcutMask == 2
    ensures r == Shortcut(E(1))
  {
    hide Fork, WellFormed, RawOpp, ShortcutLevels, RoadBack, ComesOut, Finds, RunsOff;
    ForkEdges();
    ForkIsTile();
    ghost var back, last;
    r, back, last := GetShortcut(Fork(), E(3));
    assert ComesTo(Fork(), E(3), [], E(3));
    FindsIff(Fork(), E(3), [], E(3));
    FindsUnique(Fork(), E(3), back, last, [], E(3));
    StartIsUnique(Fork(), E(3), E(0));
  }
}
