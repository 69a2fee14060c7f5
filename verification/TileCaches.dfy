/** The three tile caches: TileCacheLRU with its hash map into a linked list, FlatTileCache with its table
    of slots, and SimpleTileCache. */
module TileCaches {
  import opened RecencyList
  import opened TileHierarchy
  import opened Wrappers

  /** The first is an exception; for the other two the original writes where it must not, through an entry that
      is gone and past the end of a table. */
  datatype CacheError = TileTooBig | EvictedItself | OutsideTable

  /** A node of the linked list; the hash map points at it. */
  class KeyValue {
    const id: TileId
    var tile: Tile

    constructor (id: TileId, tile: Tile)
      ensures this.id == id && this.tile == tile
    {
      this.id, this.tile := id, tile;
    }
  }

  lemma KeyedIndex(es: seq<Entry>, i: nat)
    requires Keyed(es) && i < |es|
    ensures IndexOf(es, es[i].0) == i
  {
  }

  /** The hash map and the linked list correspond one to one. */
  ghost predicate Linked(cache: map<TileId, KeyValue>, list: seq<KeyValue>) {
    && (forall i, j | 0 <= i < j < |list| :: list[i].id != list[j].id)
    && (forall i | 0 <= i < |list| :: list[i].id in cache && cache[list[i].id] == list[i])
    && (forall k | k in cache :: cache[k] in list && cache[k].id == k)
  }

  lemma LinkedWithoutLast(cache: map<TileId, KeyValue>, list: seq<KeyValue>)
    requires Linked(cache, list) && list != []
    ensures Linked(cache - {list[|list| - 1].id}, list[..|list| - 1])
  {
    var rest := list[..|list| - 1];
    forall k | k in cache && k != list[|list| - 1].id
      ensures cache[k] in rest
    {
      var i :| 0 <= i < |list| && list[i] == cache[k];
      assert rest[i] == cache[k];
    }
  }

  lemma LinkedWith(cache: map<TileId, KeyValue>, list: seq<KeyValue>, node: KeyValue)
    requires Linked(cache, list) && node.id !in cache
    ensures Linked(cache[node.id := node], [node] + list)
  {
  }

  function MovedToFront(list: seq<KeyValue>, i: nat): seq<KeyValue>
    requires i < |list|
  {
    [list[i]] + list[..i] + list[i + 1..]
  }

  function Origin(i: nat, j: nat): nat {
    if j == 0 then i else if j <= i then j - 1 else j
  }

  lemma MovedAt(list: seq<KeyValue>, i: nat)
    requires i < |list|
    ensures |MovedToFront(list, i)| == |list|
    ensures forall j | 0 <= j < |list| :: MovedToFront(list, i)[j] == list[Origin(i, j)]
    ensures forall j | 0 <= j < |list| :: list[j] in MovedToFront(list, i)
  {
    forall j | 0 <= j < |list|
      ensures list[j] in MovedToFront(list, i)
    {
      assert MovedToFront(list, i)[if j == i then 0 else if j < i then j + 1 else j] == list[j];
    }
  }

  lemma LinkedMoved(cache: map<TileId, KeyValue>, list: seq<KeyValue>, i: nat)
    requires Linked(cache, list) && i < |list|
    ensures Linked(cache, MovedToFront(list, i)) && forall m :: m in MovedToFront(list, i) <==> m in list
  {
    hide MovedToFront;
    MovedAt(list, i);
  }

  lemma FrontIsElsewhere(cache: map<TileId, KeyValue>, list: seq<KeyValue>)
    requires Linked(cache, list) && list != []
    ensures forall j | 0 < j < |list| :: list[j] != list[0]
  {
  }

  ghost function EntriesOf(list: seq<KeyValue>): (es: seq<Entry>)
    reads list
    ensures |es| == |list| && forall i | 0 <= i < |es| :: es[i] == (list[i].id, list[i].tile)
  {
    seq(|list|, i requires 0 <= i < |list| reads list => (list[i].id, list[i].tile))
  }

  lemma SamePlace(cache: map<TileId, KeyValue>, list: seq<KeyValue>, i: nat, j: nat)
    requires Linked(cache, list) && i < |list| && j < |list| && list[i] == list[j]
    ensures i == j
  {
  }

  lemma EntriesMoved(list: seq<KeyValue>, i: nat)
    requires i < |list|
    ensures EntriesOf(MovedToFront(list, i)) == Promoted(EntriesOf(list), i)
  {
  }

  /** An id has an entry exactly when the hash map knows it. */
  lemma HasMeansInCache(cache: map<TileId, KeyValue>, list: seq<KeyValue>, id: TileId)
    requires Linked(cache, list)
    ensures Keyed(EntriesOf(list)) && (Has(EntriesOf(list), id) <==> id in cache)
    ensures id in cache ==>
      var i := IndexOf(EntriesOf(list), id);
      i < |list| && list[i] == cache[id]
  {
    if id in cache {
      var i :| 0 <= i < |list| && list[i] == cache[id];
      assert EntriesOf(list)[i].0 == id;
      KeyedIndex(EntriesOf(list), i);
    }
  }

  lemma FreedSoFar(size: nat, cacheSize: nat, freed: nat, tileSize: nat)
    requires freed == Wrap(size - cacheSize)
    ensures Wrap(freed + tileSize) == Wrap(size - Wrap(cacheSize - tileSize))
  {
  }

  lemma NodeHasKey(cache: map<TileId, KeyValue>, list: seq<KeyValue>, id: TileId)
    requires Linked(cache, list) && id in cache
    ensures cache[id].id == id && cache[id] in list
  {
  }

  class TileCacheLRU {
    const memControl: MemoryLimitControl
    const maxCacheSize: nat
    var cacheSize: nat
    var cache: map<TileId, KeyValue>
    var list: seq<KeyValue>

    ghost predicate Valid()
      reads this
    {
      Linked(cache, list) && cacheSize < SIZE_T && maxCacheSize < SIZE_T
    }

    ghost function Entries(): seq<Entry>
      reads this, list
    {
      EntriesOf(list)
    }

    ghost function Abs(): State
      reads this, list
    {
      State(Entries(), cacheSize)
    }

    constructor (maxSize: nat, memControl: MemoryLimitControl)
      requires maxSize < SIZE_T
      ensures Valid() && Abs() == State([], 0) && list == []
      ensures this.maxCacheSize == maxSize && this.memControl == memControl
    {
      this.memControl, maxCacheSize, cacheSize, cache, list := memControl, maxSize, 0, map[], [];
    }

    method Contains(id: TileId) returns (b: bool)
      requires Valid()
      ensures b == Has(Entries(), id)
    {
      HasMeansInCache(cache, list, id);
      b := id in cache;
    }

    method OverCommitted() returns (b: bool)
      ensures b == (cacheSize > maxCacheSize)
    {
      b := cacheSize > maxCacheSize;
    }

    method Clear()
      requires Valid()
      modifies this
      ensures Valid() && Abs() == State([], 0) && list == []
    {
      cacheSize := 0;
      cache := map[];
      list := [];
    }

    method MoveToLruHead(n: KeyValue)
      requires Valid() && n.id in cache && cache[n.id] == n
      modifies this`list
      ensures Valid() && list != [] && list[0] == n && forall m :: m in list <==> m in old(list)
      ensures Has(old(Entries()), n.id)
      ensures Entries() == Promoted(old(Entries()), IndexOf(old(Entries()), n.id))
    {
      hide Linked, Promoted;
      HasMeansInCache(cache, list, n.id);
      ghost var i := IndexOf(EntriesOf(list), n.id);
      LinkedMoved(cache, list, i);
      EntriesMoved(list, i);
      var at :| 0 <= at < |list| && list[at] == n;
      SamePlace(cache, list, i, at);
      list := MovedToFront(list, at);
    }

    /** The tile of the id, with its entry moved to the front; nothing for an id that is not there. */
    method Get(id: TileId) returns (tile: Option<Tile>)
      requires Valid()
      modifies this`list
      ensures Valid() && Abs() == AfterGet(old(Abs()), id)
      ensures tile == Lookup(old(Entries()), id)
      ensures forall m :: m in list <==> m in old(list)
    {
      hide Linked, Promoted;
      HasMeansInCache(cache, list, id);
      if id !in cache {
        return None;
      }
      var n := cache[id];
      MoveToLruHead(n);
      tile := Some(n.tile);
    }

    method EvictLast() returns (tileSize: nat)
      requires Valid() && list != []
      modifies this
      ensures Valid() && list == old(list)[..|old(list)| - 1] && Abs() == Evicted(old(Abs()))
      ensures cacheSize == Wrap(old(cacheSize) - tileSize)
    {
      hide Linked, Wrap;
      var entry := list[|list| - 1];
      tileSize := entry.tile.endOffset;
      LinkedWithoutLast(cache, list);
      ghost var es := Entries();
      cacheSize := Wrap(cacheSize - tileSize);
      cache := cache - {entry.id};
      list := list[..|list| - 1];
      assert Entries() == es[..|es| - 1];
    }

    /** Evicts from the back until there is room; returns the bytes freed. */
    method TrimToFit(required: nat) returns (freed: nat)
      requires Valid()
      modifies this
      ensures Valid() && Abs() == TrimTo(old(Abs()), required, maxCacheSize)
      ensures list == old(list)[..|list|] && forall n | n in list :: n in old(list)
      ensures freed == Wrap(old(cacheSize) - cacheSize)
    {
      hide Linked, Wrap, TrimTo, Evicted;
      freed := 0;
      ghost var size := cacheSize;
      while MustEvict(cacheSize, required, maxCacheSize) && list != []
        invariant Valid() && |list| <= |old(list)| && list == old(list)[..|list|]
        invariant TrimTo(Abs(), required, maxCacheSize) == TrimTo(old(Abs()), required, maxCacheSize)
        invariant freed == Wrap(size - cacheSize)
        decreases |list|
      {
        TrimToStep(Abs(), required, maxCacheSize);
        ghost var before := cacheSize;
        var tileSize := EvictLast();
        FreedSoFar(size, before, freed, tileSize);
        freed := Wrap(freed + tileSize);
      }
      TrimToStep(Abs(), required, maxCacheSize);
    }

    method Trim()
      requires Valid()
      modifies this
      ensures Valid() && Abs() == TrimTo(old(Abs()), 0, maxCacheSize)
      ensures list == old(list)[..|list|]
    {
      var freed := TrimToFit(0);
    }

    method PutNew(id: TileId, tile: Tile, newSize: nat)
      requires Valid() && id !in cache && newSize <= maxCacheSize
      modifies this
      ensures Valid() && list != [] && list[0].tile == tile
      ensures Abs() == AfterPut(old(Abs()), memControl, maxCacheSize, id, tile, newSize)
      ensures forall n | n in list :: n in old(list) || fresh(n)
    {
      hide AfterPut, Kept, SizeAfter, Linked, Wrap;
      HasMeansInCache(cache, list, id);
      AfterPutNew(Abs(), memControl, maxCacheSize, id, tile, newSize);
      if memControl == HARD {
        var freed := TrimToFit(newSize);
      }
      HasMeansInCache(cache, list, id);
      EmplaceFront(id, tile);
      cacheSize := Wrap(cacheSize + newSize);
    }

    method EmplaceFront(id: TileId, tile: Tile)
      requires Valid() && id !in cache
      modifies this`list, this`cache
      ensures Valid() && list != [] && fresh(list[0]) && list[0].tile == tile && list[1..] == old(list)
      ensures forall n | n in list :: n in old(list) || fresh(n)
      ensures Entries() == [(id, tile)] + old(Entries())
    {
      hide Linked;
      var node := new KeyValue(id, tile);
      LinkedWith(cache, list, node);
      ghost var es := Entries();
      list := [node] + list;
      cache := cache[id := node];
      assert Entries() == [(id, tile)] + es;
    }

    method ReplaceFront(node: KeyValue, tile: Tile)
      requires Valid() && list != [] && list[0] == node
      modifies node
      ensures Valid() && node.tile == tile && Entries() == [(node.id, tile)] + old(Entries())[1..]
    {
      hide Linked;
      FrontIsElsewhere(cache, list);
      ghost var es := Entries();
      node.tile := tile;
      assert Entries() == [(node.id, tile)] + es[1..];
    }

    /** Replacing an entry relies on its not being evicted to make room for itself; that is so unless the byte
        count is off. */
    method PutAgain(id: TileId, tile: Tile, newSize: nat) returns (kept: bool)
      requires Valid() && id in cache && newSize <= maxCacheSize
      modifies this, list
      ensures Valid() && forall n | n in list :: n in old(list)
      ensures Abs() == AfterPut(old(Abs()), memControl, maxCacheSize, id, tile, newSize)
      ensures kept <==> !EvictsItself(old(Abs()), memControl, maxCacheSize, id, newSize)
      ensures kept ==> list != [] && list[0].tile == tile
    {
      hide AfterPut, RoomFor, Refilled, Linked, IndexOf;
      HasMeansInCache(cache, list, id);
      var node := cache[id];
      NodeHasKey(cache, list, id);
      var oldSize := node.tile.endOffset;
      AfterPutAgain(Abs(), memControl, maxCacheSize, id, tile, newSize);
      MakeRoom(node, newSize);
      kept := Refill(node, tile, oldSize, newSize);
    }

    /** Gives the node in front its new tile, if it is still there, and counts the sizes. */
    method Refill(node: KeyValue, tile: Tile, oldSize: nat, newSize: nat) returns (kept: bool)
      requires Valid() && (list != [] ==> list[0] == node)
      modifies this`cacheSize, node
      ensures Valid() && Abs() == Refilled(old(Abs()), node.id, tile, oldSize, newSize)
      ensures kept == (list != []) && (kept ==> node.tile == tile)
    {
      hide Linked, Wrap;
      kept := list != [];
      if kept {
        ReplaceFront(node, tile);
        cacheSize := Wrap(cacheSize - oldSize);
        cacheSize := Wrap(cacheSize + newSize);
      }
    }

    /** Moves the node to the front and evicts for the bytes it grows by. */
    method MakeRoom(node: KeyValue, newSize: nat)
      requires Valid() && node.id in cache && cache[node.id] == node && newSize <= maxCacheSize
      modifies this
      ensures Valid() && (list != [] ==> list[0] == node) && forall n | n in list :: n in old(list)
      ensures Has(old(Entries()), node.id)
      ensures Abs() == RoomFor(old(Abs()), memControl, maxCacheSize, IndexOf(old(Entries()), node.id), newSize)
    {
      hide Kept, SizeAfter, Linked, Wrap;
      HasMeansInCache(cache, list, node.id);
      var oldSize := node.tile.endOffset;
      MoveToLruHead(node);
      if memControl == HARD && newSize > oldSize {
        var freed := TrimToFit(newSize - oldSize);
      }
    }

    /** One call of a history. */
    method Do(op: Op)
      requires Valid()
      modifies this, list
      ensures Valid() && forall n | n in list :: n in old(list) || fresh(n)
      ensures Abs() == After(old(Abs()), memControl, maxCacheSize, op)
    {
      hide AfterPut, AfterGet, TrimTo, Linked;
      match op
      case Get(id) => var tile := Get(id);
      case Put(id, tile, size) => var r := Put(id, tile, size);
      case Trim => Trim();
      case Clear => Clear();
    }

    method Put(id: TileId, tile: Tile, newSize: nat) returns (r: Result<Tile, CacheError>)
      requires Valid()
      modifies this, list
      ensures Valid() && forall n | n in list :: n in old(list) || fresh(n)
      ensures newSize > maxCacheSize ==> r == Err(TileTooBig) && Abs() == old(Abs())
      ensures newSize <= maxCacheSize ==>
        && Abs() == AfterPut(old(Abs()), memControl, maxCacheSize, id, tile, newSize)
        && r == if EvictsItself(old(Abs()), memControl, maxCacheSize, id, newSize) then Err(EvictedItself) else Ok(tile)
    {
      hide Linked, AfterPut, RoomFor;
      if newSize > maxCacheSize {
        return Err(TileTooBig);
      }
      HasMeansInCache(cache, list, id);
      if id !in cache {
        PutNew(id, tile, newSize);
      } else {
        var kept := PutAgain(id, tile, newSize);
        if !kept {
          return Err(EvictedItself);
        }
      }
      r := Ok(list[0].tile);
    }
  }

  lemma OwnSizesOfPrefix(ops: seq<Op>, n: nat)
    requires OwnSizes(ops) && n <= |ops|
    ensures OwnSizes(ops[..n])
  {
    assert forall op | op in ops[..n] :: op in ops;
  }

  /** Any history of calls on a new cache in which each Put passes the tile's own size: the object goes
      through the states of the specification, so its byte count is right and, in HARD mode, under the limit
      after every call. */
  method Replay(mode: MemoryLimitControl, max: nat, ops: seq<Op>) returns (cache: TileCacheLRU)
    requires OwnSizes(ops) && max < SIZE_T && (mode == SOFT ==> |ops| * max < SIZE_T)
    ensures cache.Valid() && cache.Abs() == AfterAll(mode, max, ops) && Sound(cache.Abs(), mode, max, ops)
  {
    hide After, Linked;
    cache := new TileCacheLRU(max, mode);
    for n := 0 to |ops|
      invariant cache.Valid() && cache.memControl == mode && cache.maxCacheSize == max
      invariant fresh(cache) && forall node | node in cache.list :: fresh(node)
      invariant cache.Abs() == AfterAll(mode, max, ops[..n])
    {
      assert ops[..n + 1][..n] == ops[..n];
      OwnSizesOfPrefix(ops, n);
      SmallerBound(n, |ops|, max);
      HistoryIsSound(mode, max, ops[..n]);
      assert ops[n] in ops && forall i | 0 <= i < |cache.list| :: cache.list[i] in cache.list;
      cache.Do(ops[n]);
    }
    assert ops[..|ops|] == ops;
    HistoryIsSound(mode, max, ops);
  }

  lemma SmallerBound(n: nat, m: nat, max: nat)
    requires n <= m
    ensures n * max <= m * max
  {
  }

  // ---------------------------------------------------------------------------------------------
  // FlatTileCache

  /** index_offsets_: where each level's slots begin. */
  const INDEX_OFFSETS: seq<nat> := [0, 4050, 68850, 1105650]

  const SLOTS: nat := 2142450

  /** get_offset has no check of the tile number. */
  function Offset(id: TileId): nat {
    if id.level < 4 then INDEX_OFFSETS[id.level] + id.tileid else SLOTS
  }

  /** The tiling's tile whose slot is `offset`. */
  function OwnerOf(offset: nat): (id: TileId)
    requires offset < SLOTS
    ensures InRange(id) && Offset(id) == offset
  {
    if offset < 4050 then TileId(0, offset)
    else if offset < 68850 then TileId(1, offset - 4050)
    else if offset < 1105650 then TileId(2, offset - 68850)
    else TileId(3, offset - 1105650)
  }

  /** Every slot belongs to exactly one tile of the tilings. */
  lemma SlotsArePartitioned(id: TileId)
    requires InRange(id)
    ensures Offset(id) < SLOTS && OwnerOf(Offset(id)) == id
  {
  }

  /** An id beyond the end of its level's tiling reads a slot of the levels above. */
  predicate Trespasses(id: TileId) {
    id.level < 4 && id.tileid >= TILE_COUNTS[id.level] && Offset(id) < SLOTS
  }

  /** Those are exactly the ids that share their slot with a tile of the tilings. */
  lemma TrespassersShareSlots(id: TileId)
    ensures Trespasses(id) <==> exists other :: other != id && InRange(other) && Offset(other) == Offset(id)
  {
    if Trespasses(id) {
      assert OwnerOf(Offset(id)) != id;
    }
  }

  class FlatTileCache {
    const maxCacheSize: nat
    const indices: array<Option<nat>>
    var cacheSize: nat
    var tiles: seq<Tile>

    ghost predicate Valid()
      reads this, indices
    {
      && indices.Length == SLOTS
      && forall i | 0 <= i < SLOTS :: indices[i].Some? ==> indices[i].value < |tiles|
    }

    /** The tile in a slot. */
    function At(offset: nat): Option<Tile>
      requires Valid() && offset < SLOTS
      reads this, indices
    {
      if indices[offset].Some? then Some(tiles[indices[offset].value]) else None
    }

    function Peek(id: TileId): Option<Tile>
      requires Valid()
      reads this, indices
    {
      if Offset(id) < SLOTS then At(Offset(id)) else None
    }

    constructor (maxSize: nat)
      ensures Valid() && fresh(indices) && maxCacheSize == maxSize && cacheSize == 0
      ensures forall id :: Peek(id) == None
    {
      maxCacheSize, cacheSize, tiles := maxSize, 0, [];
      indices := new Option<nat>[SLOTS](i => None);
    }

    method Contains(id: TileId) returns (b: bool)
      requires Valid()
      ensures b == Peek(id).Some?
    {
      b := Offset(id) < SLOTS && indices[Offset(id)].Some?;
    }

    method OverCommitted() returns (b: bool)
      ensures b == (cacheSize > maxCacheSize)
    {
      b := cacheSize > maxCacheSize;
    }

    method Clear()
      requires Valid()
      modifies this, indices
      ensures Valid() && cacheSize == 0 && forall id :: Peek(id) == None
    {
      cacheSize := 0;
      tiles := [];
      forall i | 0 <= i < indices.Length {
        indices[i] := None;
      }
    }

    method Trim()
      requires Valid()
      modifies this, indices
      ensures Valid() && cacheSize == 0 && forall id :: Peek(id) == None
    {
      Clear();
    }

    method Get(id: TileId) returns (tile: Option<Tile>)
      requires Valid()
      ensures tile == Peek(id)
    {
      tile := if Offset(id) < SLOTS && indices[Offset(id)].Some? then Some(tiles[indices[Offset(id)].value]) else None;
    }

    /** The slot's later reader may be any id with the same offset. */
    method Put(id: TileId, tile: Tile, size: nat) returns (r: Result<Tile, CacheError>)
      requires Valid()
      modifies this, indices
      ensures Valid() && cacheSize == Wrap(old(cacheSize) + size)
      ensures r == if Offset(id) < SLOTS then Ok(tile) else Err(OutsideTable)
      ensures forall other ::
                Peek(other) == if r.Ok? && Offset(other) == Offset(id) then Some(tile) else old(Peek(other))
    {
      cacheSize := Wrap(cacheSize + size);
      if Offset(id) >= SLOTS {
        return Err(OutsideTable);
      }
      indices[Offset(id)] := Some(|tiles|);
      tiles := tiles + [tile];
      r := Ok(tiles[|tiles| - 1]);
    }
  }

  // ---------------------------------------------------------------------------------------------
  // SimpleTileCache

  class SimpleTileCache {
    const maxCacheSize: nat
    var cacheSize: nat
    var cache: map<TileId, Tile>

    function Peek(id: TileId): Option<Tile>
      reads this
    {
      if id in cache then Some(cache[id]) else None
    }

    constructor (maxSize: nat)
      ensures maxCacheSize == maxSize && cacheSize == 0 && cache == map[]
    {
      maxCacheSize, cacheSize, cache := maxSize, 0, map[];
    }

    method OverCommitted() returns (b: bool)
      ensures b == (cacheSize > maxCacheSize)
    {
      b := cacheSize > maxCacheSize;
    }

    method Clear()
      modifies this
      ensures cacheSize == 0 && cache == map[]
    {
      cacheSize, cache := 0, map[];
    }

    method Trim()
      modifies this
      ensures cacheSize == 0 && cache == map[]
    {
      Clear();
    }

    method Get(id: TileId) returns (tile: Option<Tile>)
      ensures tile == Peek(id)
    {
      tile := if id in cache then Some(cache[id]) else None;
    }

    /** A tile that is already there is not overwritten, but its size is counted again. */
    method Put(id: TileId, tile: Tile, size: nat) returns (r: Tile)
      modifies this
      ensures cacheSize == Wrap(old(cacheSize) + size)
      ensures cache == old(cache)[id := r] && r == if id in old(cache) then old(cache)[id] else tile
    {
      cacheSize := Wrap(cacheSize + size);
      if id !in cache {
        cache := cache[id := tile];
      }
      r := cache[id];
    }
  }
}
