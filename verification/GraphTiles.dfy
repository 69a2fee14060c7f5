/** GraphReader::GetGraphTile on top of a tile cache: the mapped extract, the tile directory, the tile URL
    and the set of ids that are known to be missing there. Caching must not be visible. */
module GraphTiles {
  import opened RecencyList
  import opened TileCaches
  import opened TileHierarchy
  import opened Wrappers

  /** Why a load ends in an exception; `NullTile` is where the original uses a tile that is not there. */
  datatype LoadError = BadTileId | CorruptTile | TilesetChanged | BiggerThanCache | NullTile

  datatype Outcome = Found(tile: Tile) | Missing | Threw(error: LoadError)

  /** A file in the tile directory: a tile, bytes that are not one, or one that does not decompress. */
  datatype File = TileFile(tile: Tile) | CorruptFile | UndecodableFile

  /** A successful download: a tile, bytes that are not one, bytes that do not decompress where the getter expects
      compressed ones, or a tile of another build of the tileset. */
  datatype Body = TileBody(tile: Tile) | CorruptBody | UndecodableBody | OtherBuild(tile: Tile)

  /** Everything about the reader that is fixed when it is constructed. An extract maps an id to nothing
      when its bytes are not a tile. */
  datatype Source = Source(
    extract: map<TileId, Option<Tile>>,
    hasTileDir: bool,
    hasGetter: bool,
    isTarUrl: bool,
    gzipped: bool,
    tarSizes: map<TileId, nat>,
    plainTiles: map<TileId, Body>,
    rangeTiles: map<TileId, Body>)

  type Disk = map<TileId, File>

  const MAX_LEVEL: nat := 3

  /** The index of an extract or of a remote tar names tiles of the tilings. */
  ghost predicate WellIndexed(src: Source) {
    && (forall id | id in src.extract :: InRange(id))
    && (forall id | id in src.tarSizes :: InRange(id))
  }

  function FromExtract(stored: Option<Tile>): Outcome {
    match stored
    case Some(tile) => Found(tile)
    case None => Threw(CorruptTile)
  }

  function FromFile(file: File): Outcome {
    match file
    case TileFile(tile) => Found(tile)
    case CorruptFile => Threw(CorruptTile)
    case UndecodableFile => Missing
  }

  /** GraphTile::Create on the tile directory; FileSuffix throws for an id outside the tilings. */
  function FromDisk(src: Source, disk: Disk, id: TileId): Outcome {
    if id.level > MAX_LEVEL || !src.hasTileDir then Missing
    else if !InRange(id) then Threw(BadTileId)
    else if id in disk then FromFile(disk[id])
    else Missing
  }

  function TarSize(src: Source, id: TileId): nat {
    if id in src.tarSizes then src.tarSizes[id] else 0
  }

  /** What the getter brings: a plain tile, or a range of the tar if its index gives a size. */
  function Fetched(src: Source, id: TileId): Option<Body> {
    var tiles := if TarSize(src, id) == 0 then src.plainTiles else src.rangeTiles;
    if id in tiles then Some(tiles[id]) else None
  }

  /** The outcome of GraphTile::CacheTileURL. */
  function FromUrl(src: Source, id: TileId): Outcome {
    if id.level > MAX_LEVEL then Missing
    else if TarSize(src, id) == 0 && !InRange(id) then Threw(BadTileId)
    else match Fetched(src, id)
      case None => Missing
      case Some(TileBody(tile)) => Found(tile)
      case Some(CorruptBody) => Threw(CorruptTile)
      case Some(UndecodableBody) => Threw(if src.gzipped then NullTile else CorruptTile)
      case Some(OtherBuild(_)) => Threw(TilesetChanged)
  }

  /** Its effect on the tile directory. The build of a plain download is checked before it is stored, that of
      a compressed one only after. */
  function DiskAfterUrl(src: Source, disk: Disk, id: TileId): Disk {
    if id.level > MAX_LEVEL || !src.hasTileDir then disk
    else match Fetched(src, id)
      case None => disk
      case Some(TileBody(tile)) => disk[id := TileFile(tile)]
      case Some(CorruptBody) => disk[id := CorruptFile]
      case Some(UndecodableBody) => disk[id := if src.gzipped then UndecodableFile else CorruptFile]
      case Some(OtherBuild(tile)) => if src.gzipped then disk[id := TileFile(tile)] else disk
  }

  predicate TriesUrl(src: Source, id: TileId) {
    src.hasGetter && (id in src.tarSizes || !src.isTarUrl)
  }

  /** The uncached loader: what asking for a tile means. */
  function Load(src: Source, disk: Disk, id: TileId): Outcome {
    if src.extract != map[] then
      if id in src.extract then FromExtract(src.extract[id]) else Missing
    else if FromDisk(src, disk, id) != Missing then FromDisk(src, disk, id)
    else if TriesUrl(src, id) then FromUrl(src, id)
    else Missing
  }

  /** With an extract, its index and its bytes decide, and nothing else is asked. */
  lemma LoadFromExtract(src: Source, disk: Disk, id: TileId)
    requires src.extract != map[]
    ensures forall tile :: Load(src, disk, id) == Found(tile) <==> id in src.extract && src.extract[id] == Some(tile)
    ensures Load(src, disk, id) == Missing <==> id !in src.extract
    ensures Load(src, disk, id).Threw? ==> Load(src, disk, id) == Threw(CorruptTile)
  {
  }

  /** The tile directory has something to say: on the levels 0 to 3, of an id that its level has no tile for, or of a
      file that decompresses. */
  predicate InDirectory(src: Source, disk: Disk, id: TileId) {
    src.hasTileDir && id.level <= 3 && (!InRange(id) || (id in disk && disk[id] != UndecodableFile))
  }

  /** A tile in the directory is read from there, on the transit level too; bytes that are not one are an error. */
  lemma LoadFromDirectory(src: Source, disk: Disk, id: TileId)
    requires src.extract == map[] && InDirectory(src, disk, id)
    ensures forall tile :: Load(src, disk, id) == Found(tile) <==> InRange(id) && disk[id] == TileFile(tile)
    ensures Load(src, disk, id) == Threw(BadTileId) <==> !InRange(id)
    ensures Load(src, disk, id) == Threw(CorruptTile) <==> InRange(id) && disk[id] == CorruptFile
  {
  }

  /** The body that the URL has for the id: of a range of the tar where its index gives a size, of a plain tile
      elsewhere. */
  predicate Serves(src: Source, id: TileId, body: Body) {
    if id in src.tarSizes && src.tarSizes[id] > 0 then id in src.rangeTiles && src.rangeTiles[id] == body
    else id in src.plainTiles && src.plainTiles[id] == body
  }

  /** The URL is asked: there is one, it is not a tar without the id, and the id is of a level and has a name there. */
  predicate AsksUrl(src: Source, id: TileId) {
    && src.hasGetter && (src.isTarUrl ==> id in src.tarSizes) && id.level <= 3
    && (InRange(id) || (id in src.tarSizes && src.tarSizes[id] > 0))
  }

  /** Otherwise the URL decides. */
  lemma LoadFromUrl(src: Source, disk: Disk, id: TileId)
    requires src.extract == map[] && !InDirectory(src, disk, id)
    ensures forall tile :: Load(src, disk, id) == Found(tile) <==> AsksUrl(src, id) && Serves(src, id, TileBody(tile))
    ensures Load(src, disk, id) == Threw(TilesetChanged) <==>
            AsksUrl(src, id) && exists tile :: Serves(src, id, OtherBuild(tile))
    ensures Load(src, disk, id) == Threw(CorruptTile) <==>
            AsksUrl(src, id) && (Serves(src, id, CorruptBody) || (Serves(src, id, UndecodableBody) && !src.gzipped))
    ensures Load(src, disk, id) == Threw(NullTile) <==>
            AsksUrl(src, id) && Serves(src, id, UndecodableBody) && src.gzipped
    ensures Load(src, disk, id) == Threw(BadTileId) <==>
            src.hasGetter && (src.isTarUrl ==> id in src.tarSizes) && id.level <= 3 && !AsksUrl(src, id)
  {
    hide InRange;
    if tile :| Serves(src, id, OtherBuild(tile)) {
      assert Fetched(src, id) == Some(OtherBuild(tile));
    }
    if AsksUrl(src, id) && Load(src, disk, id) == Threw(TilesetChanged) {
      assert Serves(src, id, OtherBuild(Fetched(src, id).value.tile));
    }
  }

  ghost predicate SameLoads(src: Source, disk: Disk, disk': Disk) {
    forall id :: Load(src, disk, id) == Load(src, disk', id)
  }

  /** A compressed tile of another build is stored although its download ends in an exception. */
  predicate StoresWhatItRejects(src: Source, id: TileId) {
    src.hasTileDir && src.gzipped && Fetched(src, id).Some? && Fetched(src, id).value.OtherBuild?
  }

  /** Storing a download changes the later loads of no tile but such a one, which was rejected at first and
      will be read. */
  lemma DownloadChangesOnlyRejected(src: Source, disk: Disk, id: TileId, other: TileId)
    requires src.extract == map[] && FromDisk(src, disk, id) == Missing && TriesUrl(src, id)
    requires InRange(id)
    ensures Load(src, DiskAfterUrl(src, disk, id), other) ==
            if other == id && StoresWhatItRejects(src, id) then Found(Fetched(src, id).value.tile)
            else Load(src, disk, other)
    ensures StoresWhatItRejects(src, id) ==> Load(src, disk, id) == Threw(TilesetChanged)
  {
    var disk' := DiskAfterUrl(src, disk, id);
    assert other != id ==> FromDisk(src, disk', other) == FromDisk(src, disk, other);
  }

  /** It changes no later load at all exactly if it is not such a tile. */
  lemma DownloadChangesNoLoad(src: Source, disk: Disk, id: TileId)
    requires src.extract == map[] && FromDisk(src, disk, id) == Missing && TriesUrl(src, id)
    requires InRange(id)
    ensures SameLoads(src, disk, DiskAfterUrl(src, disk, id)) <==> !StoresWhatItRejects(src, id)
  {
    hide Load, FromDisk, DiskAfterUrl;
    forall other
      ensures Load(src, DiskAfterUrl(src, disk, id), other) ==
              if other == id && StoresWhatItRejects(src, id) then Found(Fetched(src, id).value.tile)
              else Load(src, disk, other)
    {
      DownloadChangesOnlyRejected(src, disk, id, other);
    }
    DownloadChangesOnlyRejected(src, disk, id, id);
  }

  /** What does not decompress is stored, too; but as it reads as missing, it is asked for again, and its header is
      used again. */
  lemma {:induction false} UndecodableStays(src: Source, disk: Disk, id: TileId, times: nat)
    requires src.extract == map[] && FromDisk(src, disk, id) == Missing && TriesUrl(src, id)
    requires InRange(id) && src.gzipped && Fetched(src, id) == Some(UndecodableBody)
    ensures Load(src, AfterUrls(src, disk, id, times), id) == Threw(NullTile)
    ensures times > 0 && src.hasTileDir ==> AfterUrls(src, disk, id, times) == disk[id := UndecodableFile]
    decreases times
  {
    if times > 0 {
      UndecodableStays(src, DiskAfterUrl(src, disk, id), id, times - 1);
    }
  }

  /** The tile directory after so many downloads of the tile. */
  function AfterUrls(src: Source, disk: Disk, id: TileId, times: nat): Disk
    decreases times
  {
    if times == 0 then disk else AfterUrls(src, DiskAfterUrl(src, disk, id), id, times - 1)
  }

  /** The first load of the tile rejects it and stores it all the same. */
  predicate Rejects(src: Source, disk: Disk, id: TileId) {
    Load(src, disk, id) == Threw(TilesetChanged) && StoresWhatItRejects(src, id)
  }

  /** What a load gives once the ids in `rejected` have been asked for: those are now read. */
  function Later(src: Source, firstDisk: Disk, rejected: set<TileId>, id: TileId): Outcome {
    if id in rejected && Rejects(src, firstDisk, id) then Found(Fetched(src, id).value.tile)
    else Load(src, firstDisk, id)
  }

  /** The directory loads what it loaded at first, but for the rejected tiles. */
  ghost predicate LoadsLater(src: Source, firstDisk: Disk, rejected: set<TileId>, disk: Disk) {
    forall id :: Load(src, disk, id) == Later(src, firstDisk, rejected, id)
  }

  /** What the request for a tile that is not cached adds to the rejected ids. */
  function Asked(src: Source, firstDisk: Disk, id: TileId): set<TileId> {
    if Rejects(src, firstDisk, id) then {id} else {}
  }

  lemma DownloadLater(src: Source, firstDisk: Disk, rejected: set<TileId>, disk: Disk, id: TileId)
    requires src.extract == map[] && FromDisk(src, disk, id) == Missing && TriesUrl(src, id) && InRange(id)
    requires LoadsLater(src, firstDisk, rejected, disk)
    ensures Load(src, disk, id) == Load(src, firstDisk, id)
    ensures LoadsLater(src, firstDisk, rejected + Asked(src, firstDisk, id), DiskAfterUrl(src, disk, id))
  {
    hide Load, FromDisk, DiskAfterUrl, TriesUrl;
    DownloadChangesOnlyRejected(src, disk, id, id);
    NotReadYet(src, disk, id);
    forall other
      ensures Load(src, DiskAfterUrl(src, disk, id), other) ==
              Later(src, firstDisk, rejected + Asked(src, firstDisk, id), other)
    {
      DownloadChangesOnlyRejected(src, disk, id, other);
    }
  }

  lemma NotReadYet(src: Source, disk: Disk, id: TileId)
    requires src.extract == map[] && FromDisk(src, disk, id) == Missing && TriesUrl(src, id)
    ensures StoresWhatItRejects(src, id) ==> !Load(src, disk, id).Found?
    ensures WellIndexed(src) && !InRange(id) ==> Load(src, disk, id) != Threw(TilesetChanged)
  {
  }

  /** What the directory says is final; it never says that the tileset has changed. */
  lemma DiskIsFinal(src: Source, disk: Disk, id: TileId)
    requires src.extract == map[]
    ensures FromDisk(src, disk, id) != Missing ==> Load(src, disk, id) == FromDisk(src, disk, id)
    ensures FromDisk(src, disk, id) != Threw(TilesetChanged)
  {
  }

  /** A tile that loads is one of the tilings' tiles. */
  lemma LoadedIsInRange(src: Source, disk: Disk, id: TileId)
    requires WellIndexed(src) && Load(src, disk, id).Found?
    ensures InRange(id)
  {
  }

  lemma LoadsFromUrl(src: Source, disk: Disk, id: TileId)
    requires src.extract == map[] && FromDisk(src, disk, id) == Missing && TriesUrl(src, id)
    ensures Load(src, disk, id) == FromUrl(src, id)
  {
  }

  // ---------------------------------------------------------------------------------------------
  // The cache under the reader

  datatype Cache = Lru(lru: TileCacheLRU) | Flat(flat: FlatTileCache) | Simple(simple: SimpleTileCache)

  ghost function Footprint(c: Cache): set<object>
    reads if c.Lru? then {c.lru} else {}
  {
    match c
    case Lru(lru) => {lru} + set n: KeyValue | n in lru.list :: n as object
    case Flat(flat) => {flat, flat.indices}
    case Simple(simple) => {simple}
  }

  ghost predicate CacheValid(c: Cache)
    reads Footprint(c)
  {
    match c
    case Lru(lru) => lru.Valid()
    case Flat(flat) => flat.Valid()
    case Simple(_) => true
  }

  /** The tile the cache has for an id. */
  ghost function Peek(c: Cache, id: TileId): Option<Tile>
    requires CacheValid(c)
    reads Footprint(c)
  {
    match c
    case Lru(lru) => Lookup(lru.Entries(), id)
    case Flat(flat) => flat.Peek(id)
    case Simple(simple) => simple.Peek(id)
  }

  /** The ids whose tile a Put under `id` replaces. */
  predicate SharesPlace(c: Cache, k: TileId, id: TileId) {
    if c.Flat? then Offset(k) == Offset(id) else k == id
  }

  lemma LookupIn(es: seq<Entry>, i: nat)
    requires Keyed(es) && i < |es|
    ensures Lookup(es, es[i].0) == Some(es[i].1)
  {
  }

  lemma LookupPromoted(es: seq<Entry>, i: nat, id: TileId)
    requires Keyed(es) && i < |es|
    ensures Lookup(Promoted(es, i), id) == Lookup(es, id)
  {
    var p := Promoted(es, i);
    KeyedPromoted(es, i);
    if Has(es, id) {
      var k := IndexOf(es, id);
      var k' := if k == i then 0 else if k < i then k + 1 else k;
      assert p[k'] == es[k];
      LookupIn(p, k');
    }
  }

  lemma {:induction false} LookupInPrefix(es: seq<Entry>, k: nat, id: TileId)
    requires k <= |es|
    ensures Lookup(es[..k], id) == None || Lookup(es[..k], id) == Lookup(es, id)
  {
    if k > 0 && es[0].0 != id {
      assert es[..k][1..] == es[1..][..k - 1];
      LookupInPrefix(es[1..], k - 1, id);
    }
  }

  lemma LookupAfterPutNew(s: State, mode: MemoryLimitControl, max: nat, id: TileId, tile: Tile, size: nat, k: TileId)
    requires !Has(s.entries, id)
    ensures var after := Lookup(AfterPut(s, mode, max, id, tile, size).entries, k);
            if k == id then after == Some(tile) else after == None || after == Lookup(s.entries, k)
  {
    var t := if mode == HARD then TrimTo(s, size, max) else s;
    assert s.entries[..|s.entries|] == s.entries;
    LookupInPrefix(s.entries, |t.entries|, k);
    assert ([(id, tile)] + t.entries)[1..] == t.entries;
  }

  datatype CacheKind = UseLru(memControl: MemoryLimitControl) | UseSimple | UseFlat

  predicate OfKind(c: Cache, kind: CacheKind, maxSize: nat) {
    match kind
    case UseLru(mode) => c.Lru? && c.lru.memControl == mode && c.lru.maxCacheSize == maxSize
    case UseSimple => c.Simple? && c.simple.maxCacheSize == maxSize
    case UseFlat => c.Flat? && c.flat.maxCacheSize == maxSize
  }

  method CreateTileCache(kind: CacheKind, maxSize: nat) returns (c: Cache)
    requires maxSize < SIZE_T
    ensures OfKind(c, kind, maxSize) && fresh(Footprint(c))
    ensures CacheValid(c) && forall id :: Peek(c, id) == None
  {
    match kind
    case UseLru(mode) =>
      var lru := new TileCacheLRU(maxSize, mode);
      c := Lru(lru);
    case UseSimple =>
      var simple := new SimpleTileCache(maxSize);
      c := Simple(simple);
    case UseFlat =>
      var flat := new FlatTileCache(maxSize);
      c := Flat(flat);
  }

  method CacheGet(c: Cache, id: TileId) returns (tile: Option<Tile>)
    requires CacheValid(c)
    modifies Footprint(c)
    ensures CacheValid(c) && Footprint(c) == old(Footprint(c))
    ensures tile == old(Peek(c, id)) && forall k :: Peek(c, k) == old(Peek(c, k))
  {
    match c
    case Lru(lru) =>
      ghost var es := lru.Entries();
      HasMeansInCache(lru.cache, lru.list, id);
      tile := lru.Get(id);
      forall k
        ensures Lookup(lru.Entries(), k) == Lookup(es, k)
      {
        if Has(es, id) {
          LookupPromoted(es, IndexOf(es, id), k);
        }
      }
    case Flat(flat) => tile := flat.Get(id);
    case Simple(simple) => tile := simple.Get(id);
  }

  method CachePut(c: Cache, id: TileId, tile: Tile, size: nat) returns (r: Result<Tile, CacheError>)
    requires CacheValid(c) && Peek(c, id) == None && InRange(id)
    modifies Footprint(c)
    ensures CacheValid(c) && fresh(Footprint(c) - old(Footprint(c)))
    ensures r == if c.Lru? && size > c.lru.maxCacheSize then Err(TileTooBig) else Ok(tile)
    ensures r.Ok? ==> Peek(c, id) == Some(tile)
    ensures forall k :: r.Ok? && SharesPlace(c, k, id) ==> Peek(c, k) == Some(tile)
    ensures forall k :: !(r.Ok? && SharesPlace(c, k, id)) ==> Peek(c, k) == None || Peek(c, k) == old(Peek(c, k))
  {
    match c
    case Lru(lru) =>
      ghost var s := lru.Abs();
      r := lru.Put(id, tile, size);
      if r.Ok? {
        forall k
          ensures var after := Lookup(lru.Entries(), k);
                  if k == id then after == Some(tile) else after == None || after == Lookup(s.entries, k)
        {
          LookupAfterPutNew(s, lru.memControl, lru.maxCacheSize, id, tile, size, k);
        }
      }
    case Flat(flat) =>
      r := flat.Put(id, tile, size);
    case Simple(simple) =>
      var t := simple.Put(id, tile, size);
      r := Ok(t);
  }

  method CacheTrim(c: Cache)
    requires CacheValid(c)
    modifies Footprint(c)
    ensures CacheValid(c) && fresh(Footprint(c) - old(Footprint(c)))
    ensures forall k :: Peek(c, k) == None || Peek(c, k) == old(Peek(c, k))
  {
    match c
    case Lru(lru) =>
      ghost var es := lru.Entries();
      lru.Trim();
      forall k
        ensures Lookup(lru.Entries(), k) == None || Lookup(lru.Entries(), k) == Lookup(es, k)
      {
        LookupInPrefix(es, |lru.list|, k);
      }
    case Flat(flat) => flat.Trim();
    case Simple(simple) => simple.Trim();
  }

  method CacheClear(c: Cache)
    requires CacheValid(c)
    modifies Footprint(c)
    ensures CacheValid(c) && fresh(Footprint(c) - old(Footprint(c)))
    ensures forall k :: Peek(c, k) == None
  {
    match c
    case Lru(lru) => lru.Clear();
    case Flat(flat) => flat.Clear();
    case Simple(simple) => simple.Clear();
  }

  // ---------------------------------------------------------------------------------------------
  // The reader

  /** The size GetGraphTile passes to Put: a constant for a mapped tile. */
  function PutSize(src: Source, tile: Tile): nat {
    if src.extract != map[] then MM_TILE_SIZE else tile.endOffset
  }

  predicate Fits(c: Cache, src: Source, tile: Tile) {
    c.Lru? ==> PutSize(src, tile) <= c.lru.maxCacheSize
  }

  /** The answer for a tile, whatever is cached: the uncached load, except that an LRU cache refuses a tile
      bigger than itself. */
  function Answer(c: Cache, src: Source, firstDisk: Disk, rejected: set<TileId>, id: TileId): Outcome {
    var o := Later(src, firstDisk, rejected, id);
    if o.Found? && !Fits(c, src, o.tile) then Threw(BiggerThanCache) else o
  }

  /** The only answer that is not the load itself: a tile that an LRU cache has no room for at all, the constant of 1024
      bytes standing for the size of a mapped one. */
  lemma AnswerIsLoadUnlessTooBig(c: Cache, src: Source, firstDisk: Disk, rejected: set<TileId>, id: TileId)
    ensures var o := Later(src, firstDisk, rejected, id);
            var tooBig := && c.Lru? && o.Found?
                          && c.lru.maxCacheSize < (if src.extract == map[] then o.tile.endOffset else 1024);
            Answer(c, src, firstDisk, rejected, id) == if tooBig then Threw(BiggerThanCache) else o
  {
  }

  /** The tile whose place in the cache an id reads. */
  function ReadsPlaceOf(c: Cache, id: TileId): TileId {
    if c.Flat? && Offset(id) < SLOTS then OwnerOf(Offset(id)) else id
  }

  /** Every id reads its own place, but for those that trespass in a flat cache. */
  lemma ReadsOwnPlace(c: Cache, id: TileId)
    ensures ReadsPlaceOf(c, id) == id <==> !(c.Flat? && Trespasses(id))
  {
    if c.Flat? && InRange(id) {
      SlotsArePartitioned(id);
    }
  }

  ghost predicate Coherent(c: Cache, src: Source, firstDisk: Disk, rejected: set<TileId>)
    requires CacheValid(c)
    reads Footprint(c)
  {
    forall k :: Peek(c, k).Some? ==>
      && Later(src, firstDisk, rejected, ReadsPlaceOf(c, k)) == Found(Peek(c, k).value)
      && Fits(c, src, Peek(c, k).value)
  }

  lemma CoherentStays(c: Cache, src: Source, firstDisk: Disk, rejected: set<TileId>, id: TileId)
    requires CacheValid(c) && Coherent(c, src, firstDisk, rejected)
    requires Later(src, firstDisk, rejected, id) == Load(src, firstDisk, id)
    ensures Coherent(c, src, firstDisk, rejected + Asked(src, firstDisk, id))
  {
    hide CacheValid, Peek, Load, Fits, ReadsPlaceOf;
  }

  lemma AnswerIfCached(c: Cache, src: Source, firstDisk: Disk, rejected: set<TileId>, id: TileId, tile: Tile)
    requires Later(src, firstDisk, rejected, ReadsPlaceOf(c, id)) == Found(tile) && Fits(c, src, tile)
    ensures ReadsPlaceOf(c, id) == id ==> Answer(c, src, firstDisk, rejected, id) == Found(tile)
  {
  }

  datatype ReaderOp = GetTile(id: GraphId) | TrimCache | ClearCache

  /** The ids that were rejected when they were first asked for. */
  function RejectedAfter(src: Source, firstDisk: Disk, ops: seq<ReaderOp>): (ids: set<TileId>)
    ensures forall id :: id in ids <==>
              && Rejects(src, firstDisk, id)
              && exists op | op in ops :: op.GetTile? && op.id != INVALID_ID && op.id.tile == id
  {
    set op | op in ops && op.GetTile? && op.id != INVALID_ID && Rejects(src, firstDisk, op.id.tile) :: op.id.tile
  }

  lemma RejectedAfterBoth(src: Source, firstDisk: Disk, ops: seq<ReaderOp>, more: seq<ReaderOp>)
    ensures RejectedAfter(src, firstDisk, ops + more) ==
            RejectedAfter(src, firstDisk, ops) + RejectedAfter(src, firstDisk, more)
  {
    hide Rejects;
  }

  /** The answer to a request. */
  function AnswerTo(c: Cache, src: Source, firstDisk: Disk, rejected: set<TileId>, op: ReaderOp): Outcome {
    if op.GetTile? && op.id != INVALID_ID then Answer(c, src, firstDisk, rejected, op.id.tile) else Missing
  }

  /** The answer that the request gets: that one, or for a trespasser what is loaded for the place it reads. */
  predicate MayAnswer(c: Cache, src: Source, firstDisk: Disk, rejected: set<TileId>, op: ReaderOp, answer: Outcome) {
    || answer == AnswerTo(c, src, firstDisk, rejected, op)
    || (op.GetTile? && c.Flat? && Trespasses(op.id.tile)
        && answer == Later(src, firstDisk, rejected, ReadsPlaceOf(c, op.id.tile)))
  }

  lemma TrespasserIsNotRejected(src: Source, disk: Disk, id: TileId)
    requires WellIndexed(src) && Trespasses(id)
    ensures !Rejects(src, disk, id)
  {
  }

  /** Request number i was answered for what had been rejected by then. */
  ghost predicate ServedAt(c: Cache, src: Source, firstDisk: Disk, start: set<TileId>, ops: seq<ReaderOp>,
                           answer: Outcome, i: nat)
    requires i < |ops|
  {
    MayAnswer(c, src, firstDisk, start + RejectedAfter(src, firstDisk, ops[..i]), ops[i], answer)
  }

  ghost predicate Served(c: Cache, src: Source, firstDisk: Disk, start: set<TileId>, ops: seq<ReaderOp>,
                         answers: seq<Outcome>)
    requires |answers| <= |ops|
  {
    forall i | 0 <= i < |answers| :: ServedAt(c, src, firstDisk, start, ops, answers[i], i)
  }

  lemma NothingServed(c: Cache, src: Source, firstDisk: Disk, start: set<TileId>, ops: seq<ReaderOp>)
    ensures Served(c, src, firstDisk, start, ops, []) && RejectedAfter(src, firstDisk, ops[..0]) == {}
  {
  }

  lemma ServedMore(c: Cache, src: Source, firstDisk: Disk, start: set<TileId>, ops: seq<ReaderOp>,
                   answers: seq<Outcome>, r: Outcome)
    requires |answers| < |ops| && Served(c, src, firstDisk, start, ops, answers)
    requires ServedAt(c, src, firstDisk, start, ops, r, |answers|)
    ensures Served(c, src, firstDisk, start, ops, answers + [r])
  {
    hide ServedAt;
  }

  class GraphReader {
    const src: Source
    const cache: Cache
    ghost const firstDisk: Disk
    var disk: Disk
    var missing: set<TileId>
    ghost var rejected: set<TileId>

    ghost function Frame(): set<object>
      reads this, if cache.Lru? then {cache.lru} else {}
    {
      {this} + Footprint(cache)
    }

    /** Everything cached is what a load of the same place's tile gives, the directory still loads what it
        loaded at first but for the rejected tiles, and the ids recorded as missing are missing. */
    ghost predicate Valid()
      reads Frame()
    {
      && this !in Footprint(cache) && CacheValid(cache) && Coherent(cache, src, firstDisk, rejected)
      && WellIndexed(src) && LoadsLater(src, firstDisk, rejected, disk)
      && (forall id | id in rejected :: Rejects(src, firstDisk, id))
      && (forall id | id in missing :: Load(src, firstDisk, id) == Missing)
    }

    constructor (src: Source, disk: Disk, kind: CacheKind, maxSize: nat)
      requires WellIndexed(src) && maxSize < SIZE_T
      ensures Valid() && fresh(Frame())
      ensures this.src == src && OfKind(cache, kind, maxSize) && firstDisk == disk && rejected == {}
      ensures forall id :: Peek(cache, id) == None
    {
      hide CacheValid, Load, Rejects, Fits, ReadsPlaceOf, Peek;
      var c := CreateTileCache(kind, maxSize);
      assert Coherent(c, src, disk, {});
      this.src, this.cache, this.disk, firstDisk, missing, rejected := src, c, disk, disk, {}, {};
    }

    /** Whatever happened before, the answer is the uncached one; only a tile that was rejected before is
        now read, and an id beyond its tiling may get another tile's answer out of a flat cache. What the
        URL does not have is remembered. */
    method GetGraphTile(graphid: GraphId) returns (r: Outcome)
      requires Valid()
      modifies Frame()
      ensures Valid() && fresh(Frame() - old(Frame()))
      ensures graphid == INVALID_ID ==> r == Missing && rejected == old(rejected)
      ensures graphid != INVALID_ID && !(cache.Flat? && Trespasses(graphid.tile)) ==>
        && r == Answer(cache, src, firstDisk, old(rejected), graphid.tile)
        && rejected == old(rejected) + Asked(src, firstDisk, graphid.tile)
      ensures graphid != INVALID_ID && old(Peek(cache, graphid.tile)).Some? ==>
        && r == Found(old(Peek(cache, graphid.tile)).value)
        && r == Later(src, firstDisk, rejected, ReadsPlaceOf(cache, graphid.tile)) && rejected == old(rejected)
      ensures graphid != INVALID_ID && old(Peek(cache, graphid.tile)) == None ==>
        && r == Answer(cache, src, firstDisk, old(rejected), graphid.tile)
        && rejected == old(rejected) + Asked(src, firstDisk, graphid.tile)
      ensures r.Found? ==> Peek(cache, graphid.tile) == Some(r.tile)
      ensures missing == old(missing) +
        if graphid != INVALID_ID && r == Missing && src.hasGetter && src.extract == map[] then {graphid.tile} else {}
    {
      hide Load, Answer, InRange, CacheValid, Peek, Trespasses, ReadsPlaceOf;
      if graphid == INVALID_ID {
        return Missing;
      }
      var base := graphid.tile;
      var cached := CacheGet(cache, base);
      ReadsOwnPlace(cache, base);
      if cached.Some? {
        AnswerIfCached(cache, src, firstDisk, rejected, base, cached.value);
        return Found(cached.value);
      }
      if src.extract != map[] {
        r := LoadMapped(base);
      } else {
        r := LoadStored(base);
      }
    }

    /** The part of GetGraphTile that reads the mapped extract. */
    method LoadMapped(base: TileId) returns (r: Outcome)
      requires Valid() && src.extract != map[] && Peek(cache, base) == None
      modifies Footprint(cache)
      ensures Valid() && fresh(Frame() - old(Frame()))
      ensures r.Found? ==> Peek(cache, base) == Some(r.tile)
      ensures r == Answer(cache, src, firstDisk, rejected, base) && Asked(src, firstDisk, base) == {}
    {
      hide CacheValid, Peek, Footprint, Fits, Coherent;
      if base !in src.extract {
        return Missing;
      }
      r := FromExtract(src.extract[base]);
      if r.Found? {
        r := Keep(base, r.tile, MM_TILE_SIZE);
      }
    }

    /** The part of GetGraphTile that reads the tile directory and the URL. */
    method LoadStored(base: TileId) returns (r: Outcome)
      requires Valid() && src.extract == map[] && Peek(cache, base) == None
      modifies Frame()
      ensures Valid() && fresh(Frame() - old(Frame()))
      ensures r.Found? ==> Peek(cache, base) == Some(r.tile)
      ensures r == Answer(cache, src, firstDisk, old(rejected), base)
      ensures rejected == old(rejected) + Asked(src, firstDisk, base)
      ensures missing == old(missing) + if r == Missing && src.hasGetter then {base} else {}
    {
      hide CacheValid, Peek, Fits, Coherent, FromUrl, FromDisk;
      r := FromDisk(src, disk, base);
      DiskIsFinal(src, disk, base);
      assert Load(src, disk, base) == Later(src, firstDisk, rejected, base);
      if r.Threw? {
        return;
      }
      if r.Missing? {
        if !src.hasGetter || base in missing {
          return;
        }
        if base in src.tarSizes || !src.isTarUrl {
          r := Download(base);
          if r.Threw? {
            return;
          }
        }
        if r.Missing? {
          missing := missing + {base};
          return;
        }
      }
      r := Keep(base, r.tile, r.tile.endOffset);
    }

    /** CacheTileURL: the download and the copy it leaves in the tile directory. */
    method Download(id: TileId) returns (o: Outcome)
      requires Valid() && src.extract == map[] && FromDisk(src, disk, id) == Missing && TriesUrl(src, id)
      modifies this`disk, this`rejected
      ensures Valid() && o == FromUrl(src, id) == Load(src, firstDisk, id)
      ensures id !in old(rejected) && rejected == old(rejected) + Asked(src, firstDisk, id)
    {
      hide Load, FromUrl, FromDisk, InRange, DiskAfterUrl, Coherent, CacheValid;
      LoadsFromUrl(src, disk, id);
      NotReadYet(src, disk, id);
      assert Load(src, disk, id) == Later(src, firstDisk, rejected, id);
      o := FromUrl(src, id);
      if InRange(id) {
        DownloadLater(src, firstDisk, rejected, disk, id);
        CoherentStays(cache, src, firstDisk, rejected, id);
        disk := DiskAfterUrl(src, disk, id);
        rejected := rejected + Asked(src, firstDisk, id);
      }
    }

    /** Puts a loaded tile into the cache and answers with it. */
    method Keep(id: TileId, tile: Tile, size: nat) returns (r: Outcome)
      requires Valid() && Later(src, firstDisk, rejected, id) == Found(tile) && Peek(cache, id) == None
      requires size == PutSize(src, tile)
      modifies Footprint(cache)
      ensures Valid() && fresh(Frame() - old(Frame()))
      ensures r.Found? ==> Peek(cache, id) == Some(r.tile)
      ensures r == Answer(cache, src, firstDisk, rejected, id)
    {
      hide Load, Peek, CacheValid;
      LoadedIsInRange(src, disk, id);
      SlotsArePartitioned(id);
      var put := CachePut(cache, id, tile, size);
      r := if put.Ok? then Found(put.value) else Threw(BiggerThanCache);
    }

    method Trim()
      requires Valid()
      modifies Frame()
      ensures Valid() && fresh(Frame() - old(Frame())) && rejected == old(rejected)
    {
      CacheTrim(cache);
    }

    method Clear()
      requires Valid()
      modifies Frame()
      ensures Valid() && fresh(Frame() - old(Frame())) && rejected == old(rejected)
    {
      CacheClear(cache);
    }

    /** One request, trim or clear. */
    method Do(op: ReaderOp) returns (answer: Outcome)
      requires Valid()
      modifies Frame()
      ensures Valid() && fresh(Frame() - old(Frame()))
      ensures MayAnswer(cache, src, firstDisk, old(rejected), op, answer)
      ensures rejected == old(rejected) + RejectedAfter(src, firstDisk, [op])
    {
      hide Answer, Rejects, Coherent, LoadsLater, CacheValid, InRange, ReadsPlaceOf, Later;
      match op {
        case GetTile(id) =>
          if Trespasses(id.tile) {
            TrespasserIsNotRejected(src, firstDisk, id.tile);
          }
          answer := GetGraphTile(id);
        case TrimCache =>
          Trim();
          answer := Missing;
        case ClearCache =>
          Clear();
          answer := Missing;
      }
    }

    /** Any interleaving of requests, trims and clears answers each request as the uncached loader would,
        or reads a tile that was rejected when it was asked for before; only an id beyond its tiling may be
        answered by the tile whose place in a flat cache it reads. */
    method Serve(ops: seq<ReaderOp>) returns (answers: seq<Outcome>)
      requires Valid()
      modifies Frame()
      ensures Valid() && |answers| == |ops| && Served(cache, src, firstDisk, old(rejected), ops, answers)
    {
      hide GraphReader.Valid, MayAnswer, RejectedAfter, Served;
      answers := [];
      ghost var start := rejected;
      NothingServed(cache, src, firstDisk, start, ops);
      for i := 0 to |ops|
        invariant Valid() && fresh(Frame() - old(Frame())) && |answers| == i
        invariant rejected == start + RejectedAfter(src, firstDisk, ops[..i])
        invariant Served(cache, src, firstDisk, start, ops, answers)
      {
        assert ops[i] in ops && ops[..i + 1] == ops[..i] + [ops[i]];
        RejectedAfterBoth(src, firstDisk, ops[..i], [ops[i]]);
        var r := Do(ops[i]);
        ServedMore(cache, src, firstDisk, start, ops, answers, r);
        answers := answers + [r];
      }
    }
  }

  lemma SameSlotSameTile(c: Cache, a: TileId, b: TileId)
    requires CacheValid(c) && c.Flat? && Offset(a) == Offset(b)
    ensures Peek(c, a) == Peek(c, b)
  {
  }

  /** A tile directory that holds the first tile of level 1 and no URL. */
  function OneTileSource(): (src: Source)
    ensures WellIndexed(src)
  {
    Source(map[], true, false, false, false, map[], map[], map[])
  }

  lemma OneTileLoads(tile: Tile)
    ensures var disk := map[TileId(1, 0) := TileFile(tile)];
            && Load(OneTileSource(), disk, TileId(1, 0)) == Found(tile)
            && Load(OneTileSource(), disk, TileId(0, 4050)) == Threw(BadTileId)
            && forall id :: !Rejects(OneTileSource(), disk, id)
  {
  }

  /** The exception is real: with a flat cache, an id one past the end of level 0 throws when it is asked
      for first, and gets the first tile of level 1 once that is cached. */
  method TrespasserGetsAnotherTile(tile: Tile) returns (first: Outcome, second: Outcome)
    ensures first == Threw(BadTileId) && second == Found(tile)
  {
    hide CacheValid, Peek, OneTileSource, Load, Coherent, Footprint, WellIndexed, LoadsLater, Rejects;
    OneTileLoads(tile);
    var disk := map[TileId(1, 0) := TileFile(tile)];
    var past := GraphId(TileId(0, 4050), 0);
    var idle := new GraphReader(OneTileSource(), disk, UseFlat, 1000);
    first := idle.GetGraphTile(past);
    var reader := new GraphReader(OneTileSource(), disk, UseFlat, 1000);
    var other := reader.GetGraphTile(GraphId(TileId(1, 0), 0));
    SameSlotSameTile(reader.cache, past.tile, TileId(1, 0));
    second := reader.GetGraphTile(past);
  }

  /** A URL with one compressed tile of another build, and an empty tile directory. */
  function OtherBuildSource(tile: Tile): (src: Source)
    ensures WellIndexed(src) && src.extract == map[]
  {
    Source(map[], true, true, false, true, map[], map[TileId(1, 0) := OtherBuild(tile)], map[])
  }

  lemma OtherBuildIsRejected(tile: Tile)
    ensures Rejects(OtherBuildSource(tile), map[], TileId(1, 0))
    ensures Fetched(OtherBuildSource(tile), TileId(1, 0)) == Some(OtherBuild(tile))
  {
  }

  /** So is the other: asked for twice, the tile of another build is rejected and then answered. */
  method RejectedTileIsReadLater(tile: Tile) returns (first: Outcome, second: Outcome)
    ensures first == Threw(TilesetChanged) && second == Found(tile)
  {
    hide CacheValid, Peek, OtherBuildSource, Load, Coherent, Footprint, WellIndexed, LoadsLater, StoresWhatItRejects,
      Fetched;
    OtherBuildIsRejected(tile);
    var reader := new GraphReader(OtherBuildSource(tile), map[], UseSimple, 1000);
    first := reader.GetGraphTile(GraphId(TileId(1, 0), 0));
    second := reader.GetGraphTile(GraphId(TileId(1, 0), 0));
  }
}
