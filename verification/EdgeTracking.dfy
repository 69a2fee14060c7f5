/** bitset_t and edge_tracker: a compact set of edge ids, one bit an edge, numbered by
    concatenating the edge ranges of the tiles. The valhalla_export_edges program holds the same two
    structures as locals. */
module EdgeTracking {
  import opened TileHierarchy
  import opened Wrappers
  import opened RoadGraph

  const BITS_PER_VALUE: nat := 64

  datatype BitsetError = IdOutOfBounds

  function BitIndexOf(id: nat): bv6 {
    (id % BITS_PER_VALUE) as bv6
  }

  lemma BitIndexIsInjective(i: nat, j: nat)
    ensures BitIndexOf(i) == BitIndexOf(j) <==> i % BITS_PER_VALUE == j % BITS_PER_VALUE
  {
    BitIndexValue(i % BITS_PER_VALUE);
    BitIndexValue(j % BITS_PER_VALUE);
  }

  lemma BitIndexValue(k: nat)
    requires k < 64
    ensures (k as bv6) as int == k
  {
  }

  function BitMask(k: bv6): bv64 {
    (1 as bv64) << k
  }

  predicate BitAt(w: bv64, k: bv6) {
    w & BitMask(k) != 0
  }

  /** Or-ing in one mask sets that bit and leaves the 63 others alone. */
  lemma SetBit(w: bv64, k: bv6, j: bv6)
    ensures (w | BitMask(k)) & BitMask(j) != 0 <==> (w & BitMask(j) != 0 || k == j)
  {
  }

  class Bitset {
    const bits: array<bv64>

    function EndId(): nat {
      bits.Length * BITS_PER_VALUE
    }

    predicate IsSet(id: nat)
      requires id < EndId()
      reads bits
    {
      BitAt(bits[id / BITS_PER_VALUE], BitIndexOf(id))
    }

    ghost function Members(): set<nat>
      reads bits
    {
      set id | 0 <= id < EndId() && IsSet(id)
    }

    constructor (size: nat)
      ensures fresh(bits) && Members() == {}
      ensures size <= EndId() < size + BITS_PER_VALUE
    {
      bits := new bv64[(size + (BITS_PER_VALUE - 1)) / BITS_PER_VALUE](_ => 0);
    }

    method Set(id: nat) returns (r: Result<(), BitsetError>)
      modifies bits
      ensures r == if id < EndId() then Ok(()) else Err(IdOutOfBounds)
      ensures Members() == if id < EndId() then old(Members()) + {id} else old(Members())
    {
      if id >= EndId() {
        return Err(IdOutOfBounds);
      }
      var word := id / BITS_PER_VALUE;
      bits[word] := bits[word] | BitMask(BitIndexOf(id));
      forall j: nat | j < EndId()
        ensures IsSet(j) <==> old(IsSet(j)) || j == id
      {
        if j / BITS_PER_VALUE == word {
          SetBit(old(bits[word]), BitIndexOf(id), BitIndexOf(j));
          BitIndexIsInjective(id, j);
        }
      }
      r := Ok(());
    }

    method Get(id: nat) returns (r: Result<bool, BitsetError>)
      ensures r == if id < EndId() then Ok(id in Members()) else Err(IdOutOfBounds)
    {
      if id >= EndId() {
        return Err(IdOutOfBounds);
      }
      r := Ok(BitAt(bits[id / BITS_PER_VALUE], BitIndexOf(id)));
    }
  }

  /** Every listed tile has its own stretch of numbers below `total`. */
  ghost predicate Numbering(g: Graph, offsets: map<TileId, nat>, total: nat) {
    && (forall t | t in offsets :: t in g && offsets[t] + |g[t].edges| <= total)
    && (forall t, u | t in offsets && u in offsets && t != u ::
          offsets[t] + |g[t].edges| <= offsets[u] || offsets[u] + |g[u].edges| <= offsets[t])
  }

  function Number(offsets: map<TileId, nat>, e: GraphId): nat
    requires e.tile in offsets
  {
    offsets[e.tile] + e.id
  }

  lemma NumbersAreDistinct(g: Graph, offsets: map<TileId, nat>, total: nat, e: GraphId, f: GraphId)
    requires Numbering(g, offsets, total)
    requires ValidEdge(g, e) && ValidEdge(g, f) && e.tile in offsets && f.tile in offsets
    ensures Number(offsets, e) == Number(offsets, f) <==> e == f
    ensures Number(offsets, e) < total
  {
    if e.tile != f.tile {
      assert offsets[e.tile] + |g[e.tile].edges| <= offsets[f.tile]
          || offsets[f.tile] + |g[f.tile].edges| <= offsets[e.tile];
    }
  }

  lemma NothingNumbered(g: Graph)
    ensures Numbering(g, map[], 0)
  {
  }

  /** One more tile gets the stretch behind the others, unless it has one already. */
  lemma NumberedToo(g: Graph, offsets: map<TileId, nat>, total: nat, t: TileId)
    requires Numbering(g, offsets, total) && t in g
    ensures Numbering(g, if t in offsets then offsets else offsets[t := total], total + |g[t].edges|)
  {
  }

  class EdgeTracker {
    const edgesInTiles: map<TileId, nat>
    const edgeSet: Bitset
    ghost const g: Graph

    ghost predicate Valid() {
      exists total: nat :: Numbering(g, edgesInTiles, total) && total <= edgeSet.EndId()
    }

    /** The set of edges this bitset stands for. */
    ghost function Tracked(): set<GraphId>
      reads edgeSet.bits
    {
      set e | e in AllEdges(g) && e.tile in edgesInTiles && Number(edgesInTiles, e) in edgeSet.Members()
    }

    constructor Create(tiles: seq<TileId>, g: Graph)
      requires forall t | t in tiles :: t in g
      ensures Valid() && this.g == g && fresh(edgeSet.bits)
      ensures edgesInTiles.Keys == set t | t in tiles
      ensures Tracked() == {}
    {
      hide Numbering;
      var edgeCount: nat := 0;
      var offsets: map<TileId, nat> := map[];
      NothingNumbered(g);
      for i := 0 to |tiles|
        invariant Numbering(g, offsets, edgeCount)
        invariant offsets.Keys == set t | t in tiles[..i]
      {
        assert tiles[..i + 1] == tiles[..i] + [tiles[i]] && tiles[i] in tiles;
        NumberedToo(g, offsets, edgeCount, tiles[i]);
        if tiles[i] !in offsets {
          offsets := offsets[tiles[i] := edgeCount];
        }
        edgeCount := edgeCount + |g[tiles[i]].edges|;
      }
      assert tiles[..|tiles|] == tiles;
      edgesInTiles := offsets;
      edgeSet := new Bitset(edgeCount);
      this.g := g;
    }

    method Get(e: GraphId) returns (b: bool)
      requires Valid() && ValidEdge(g, e) && e.tile in edgesInTiles
      ensures b <==> e in Tracked()
    {
      ghost var total: nat :| Numbering(g, edgesInTiles, total) && total <= edgeSet.EndId();
      NumbersAreDistinct(g, edgesInTiles, total, e, e);
      var r := edgeSet.Get(e.id + edgesInTiles[e.tile]);
      b := r.value;
    }

    method Set(e: GraphId)
      requires Valid() && ValidEdge(g, e) && e.tile in edgesInTiles
      modifies edgeSet.bits
      ensures Tracked() == old(Tracked()) + {e}
    {
      hide Numbering, ValidEdge;
      ghost var total: nat :| Numbering(g, edgesInTiles, total) && total <= edgeSet.EndId();
      forall f | ValidEdge(g, f) && f.tile in edgesInTiles
        ensures Number(edgesInTiles, e) == Number(edgesInTiles, f) <==> e == f
        ensures Number(edgesInTiles, e) < total
      {
        NumbersAreDistinct(g, edgesInTiles, total, e, f);
      }
      var r := edgeSet.Set(e.id + edgesInTiles[e.tile]);
    }
  }
}
