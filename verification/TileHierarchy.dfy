/** The hierarchy levels, the tiles of their tilings, and the arithmetic of size_t. */
module TileHierarchy {
  /** A tile's id without the object part: hierarchy level and tile number. */
  datatype TileId = TileId(level: nat, tileid: nat)

  /** An object of a tile: a node, an edge or the tile itself, by its index. */
  datatype GraphId = GraphId(tile: TileId, id: nat)

  /** kInvalidGraphId: all bits of the three fields set. */
  const INVALID_ID := GraphId(TileId(7, 0x3fffff), 0x1fffff)

  /** The number of tiles of the levels 0, 1, 2 (4, 1 and a quarter degrees) and of the transit level 3. */
  const TILE_COUNTS: seq<nat> := [4050, 64800, 1036800, 1036800]

  /** The id names a tile of its level's tiling. */
  predicate InRange(id: TileId) {
    id.level < 4 && id.tileid < TILE_COUNTS[id.level]
  }

  /** The tiles of each level cover 360 by 180 degrees: of 4, 1 and a quarter degrees a side. */
  lemma TilesCoverTheEarth(level: nat)
    requires level < 4
    ensures TILE_COUNTS[level] * (if level == 0 then 4 * 4 else 1) ==
            360 * 180 * (if level >= 2 then 4 * 4 else 1)
    ensures forall n: nat :: InRange(TileId(level, n)) <==> n < TILE_COUNTS[level]
  {
  }

  const SIZE_T: int := 0x1_0000_0000_0000_0000

  /** Arithmetic on size_t wraps around. */
  function Wrap(x: int): (r: nat)
    ensures r < SIZE_T && (0 <= x < SIZE_T ==> r == x)
  {
    x % SIZE_T
  }
}
