/** What TileCacheLRU does, as a value: entries in order of last use with a byte count beside them, and
    what any history of operations keeps. */
module RecencyList {
  import opened TileHierarchy
  import opened Wrappers

  /** A loaded tile; the header's end offset is its size in bytes. */
  datatype Tile = Tile(data: string, endOffset: nat)

  datatype MemoryLimitControl = SOFT | HARD

  type Entry = (TileId, Tile)

  predicate Keyed(es: seq<Entry>) {
    forall i, j | 0 <= i < j < |es| :: es[i].0 != es[j].0
  }

  predicate Has(es: seq<Entry>, id: TileId) {
    exists i | 0 <= i < |es| :: es[i].0 == id
  }

  function IndexOf(es: seq<Entry>, id: TileId): (i: nat)
    ensures i <= |es| && (i < |es| ==> es[i].0 == id) && (i < |es| <==> Has(es, id))
  {
    if es == [] then 0
    else if es[0].0 == id then 0
    else var i := IndexOf(es[1..], id); assert forall k | 0 <= k < |es[1..]| :: es[1..][k] == es[k + 1]; i + 1
  }

  function Lookup(es: seq<Entry>, id: TileId): Option<Tile> {
    var i := IndexOf(es, id);
    if i < |es| then Some(es[i].1) else None
  }

  /** The entry at `i` becomes the most recently used one. */
  function Promoted(es: seq<Entry>, i: nat): (r: seq<Entry>)
    requires i < |es|
    ensures |r| == |es|
  {
    [es[i]] + es[..i] + es[i + 1..]
  }

  function Total(es: seq<Entry>): nat {
    if es == [] then 0 else Total(es[..|es| - 1]) + es[|es| - 1].1.endOffset
  }

  /** The loop condition of TrimToFit: over the limit, or not enough room under it. */
  predicate MustEvict(size: nat, required: nat, max: nat) {
    size > max || max - size < required
  }

  /** How many entries TrimToFit leaves, given the byte count it starts with. */
  function Kept(es: seq<Entry>, size: nat, required: nat, max: nat): (k: nat)
    ensures k <= |es|
  {
    if es == [] || !MustEvict(size, required, max) then |es|
    else Kept(es[..|es| - 1], Wrap(size - es[|es| - 1].1.endOffset), required, max)
  }

  /** The byte count TrimToFit ends with. */
  function SizeAfter(es: seq<Entry>, size: nat, required: nat, max: nat): nat {
    if es == [] || !MustEvict(size, required, max) then size
    else SizeAfter(es[..|es| - 1], Wrap(size - es[|es| - 1].1.endOffset), required, max)
  }

  lemma {:induction false} TotalOfPrefix(es: seq<Entry>, k: nat)
    requires k <= |es|
    ensures Total(es[..k]) <= Total(es)
  {
    if k < |es| {
      assert es[..|es| - 1][..k] == es[..k];
      TotalOfPrefix(es[..|es| - 1], k);
    } else {
      assert es[..k] == es;
    }
  }

  lemma {:induction false} TotalOfConcat(a: seq<Entry>, b: seq<Entry>)
    ensures Total(a + b) == Total(a) + Total(b)
  {
    if b == [] {
      assert a + b == a;
    } else {
      assert (a + b)[..|a + b| - 1] == a + b[..|b| - 1];
      TotalOfConcat(a, b[..|b| - 1]);
    }
  }

  lemma TotalOfOne(e: Entry)
    ensures Total([e]) == e.1.endOffset
  {
    assert [e][..0] == [];
  }

  lemma TotalOfSwap(a: seq<Entry>, b: seq<Entry>, c: seq<Entry>)
    ensures Total(b + a + c) == Total(a + b + c)
  {
    hide Total;
    TotalOfConcat(a + b, c);
    TotalOfConcat(a, b);
    TotalOfConcat(b + a, c);
    TotalOfConcat(b, a);
  }

  lemma TotalOfPromoted(es: seq<Entry>, i: nat)
    requires i < |es|
    ensures Total(Promoted(es, i)) == Total(es)
  {
    hide Total;
    SplitAt(es, i);
    TotalOfSwap(es[..i], [es[i]], es[i + 1..]);
  }

  lemma SplitAt(es: seq<Entry>, i: nat)
    requires i < |es|
    ensures es == es[..i] + [es[i]] + es[i + 1..]
  {
  }

  /** With a right byte count, TrimToFit evicts exactly the shortest least recently used suffix that makes
      the room (everything, if nothing less does), and the count stays right. */
  lemma {:induction false} TrimEvictsShortestSuffix(es: seq<Entry>, required: nat, max: nat)
    requires Total(es) < SIZE_T
    ensures var k := Kept(es, Total(es), required, max);
            && SizeAfter(es, Total(es), required, max) == Total(es[..k])
            && (k == 0 || !MustEvict(Total(es[..k]), required, max))
            && forall j | k < j <= |es| :: MustEvict(Total(es[..j]), required, max)
  {
    assert es[..|es|] == es;
    if es != [] && MustEvict(Total(es), required, max) {
      var rest := es[..|es| - 1];
      TrimEvictsShortestSuffix(rest, required, max);
      assert forall j | 0 <= j <= |rest| :: rest[..j] == es[..j];
    }
  }

  // ---------------------------------------------------------------------------------------------
  // The operations

  datatype State = State(entries: seq<Entry>, size: nat)

  datatype Op = Get(id: TileId) | Put(id: TileId, tile: Tile, size: nat) | Trim | Clear

  function TrimTo(s: State, required: nat, max: nat): State {
    State(s.entries[..Kept(s.entries, s.size, required, max)], SizeAfter(s.entries, s.size, required, max))
  }

  function Evicted(s: State): State
    requires s.entries != []
  {
    State(s.entries[..|s.entries| - 1], Wrap(s.size - s.entries[|s.entries| - 1].1.endOffset))
  }

  lemma TrimToStep(s: State, required: nat, max: nat)
    ensures s.entries != [] && MustEvict(s.size, required, max) ==>
      TrimTo(s, required, max) == TrimTo(Evicted(s), required, max)
    ensures s.entries == [] || !MustEvict(s.size, required, max) ==> TrimTo(s, required, max) == s
  {
    assert s.entries[..|s.entries|] == s.entries;
    if s.entries != [] && MustEvict(s.size, required, max) {
      var rest := Evicted(s).entries;
      assert rest[..Kept(rest, Evicted(s).size, required, max)] ==
             s.entries[..Kept(rest, Evicted(s).size, required, max)];
    }
  }

  function AfterGet(s: State, id: TileId): State {
    var i := IndexOf(s.entries, id);
    if i == |s.entries| then s else s.(entries := Promoted(s.entries, i))
  }

  /** The entry that is replaced moved to the front, and in HARD mode room for the bytes it grows by. */
  function RoomFor(s: State, mode: MemoryLimitControl, max: nat, i: nat, size: nat): State
    requires i < |s.entries|
  {
    var oldSize := s.entries[i].1.endOffset;
    var p := State(Promoted(s.entries, i), s.size);
    if mode == HARD && size > oldSize then TrimTo(p, size - oldSize, max) else p
  }

  /** Put of a tile that is not too big. Where the original would write through an evicted entry the
      result is the whole list gone; `ReplacedEntrySurvives` shows when that cannot be. */
  function AfterPut(s: State, mode: MemoryLimitControl, max: nat, id: TileId, tile: Tile, size: nat): State {
    var i := IndexOf(s.entries, id);
    if i == |s.entries| then
      var t := if mode == HARD then TrimTo(s, size, max) else s;
      State([(id, tile)] + t.entries, Wrap(t.size + size))
    else
      Refilled(RoomFor(s, mode, max, i, size), id, tile, s.entries[i].1.endOffset, size)
  }

  /** The entry in front gets the new tile. */
  function Refilled(t: State, id: TileId, tile: Tile, oldSize: nat, size: nat): State {
    if t.entries == [] then t else State([(id, tile)] + t.entries[1..], Wrap(Wrap(t.size - oldSize) + size))
  }

  /** Putting a tile again evicts everything, the entry that is to be replaced with it. The original then writes
      through the evicted entry. */
  predicate EvictsItself(s: State, mode: MemoryLimitControl, max: nat, id: TileId, size: nat) {
    Has(s.entries, id) && RoomFor(s, mode, max, IndexOf(s.entries, id), size).entries == []
  }

  /** That cannot be with a right byte count. */
  lemma AccountedNeverEvictsItself(s: State, mode: MemoryLimitControl, max: nat, id: TileId, size: nat)
    requires Accounted(s) && size <= max < SIZE_T && (mode == HARD ==> s.size <= max)
    ensures !EvictsItself(s, mode, max, id, size)
  {
    hide Kept, SizeAfter, Total;
    if Has(s.entries, id) {
      var i := IndexOf(s.entries, id);
      if mode == HARD && size > s.entries[i].1.endOffset {
        ReplacedEntrySurvives(s, max, i, size);
      }
    }
  }

  lemma AfterPutNew(s: State, mode: MemoryLimitControl, max: nat, id: TileId, tile: Tile, size: nat)
    requires !Has(s.entries, id)
    ensures var t := if mode == HARD then TrimTo(s, size, max) else s;
            AfterPut(s, mode, max, id, tile, size) == State([(id, tile)] + t.entries, Wrap(t.size + size))
  {
  }

  lemma AfterPutAgain(s: State, mode: MemoryLimitControl, max: nat, id: TileId, tile: Tile, size: nat)
    requires Has(s.entries, id)
    ensures var i := IndexOf(s.entries, id);
            AfterPut(s, mode, max, id, tile, size) ==
            Refilled(RoomFor(s, mode, max, i, size), id, tile, s.entries[i].1.endOffset, size)
  {
    hide RoomFor;
  }

  function After(s: State, mode: MemoryLimitControl, max: nat, op: Op): State {
    match op
    case Get(id) => AfterGet(s, id)
    case Put(id, tile, size) => if size > max then s else AfterPut(s, mode, max, id, tile, size)
    case Trim => TrimTo(s, 0, max)
    case Clear => State([], 0)
  }

  function AfterAll(mode: MemoryLimitControl, max: nat, ops: seq<Op>): State {
    if ops == [] then State([], 0) else After(AfterAll(mode, max, ops[..|ops| - 1]), mode, max, ops[|ops| - 1])
  }

  /** The sizes handed to Put are the tiles' own sizes, as on the disk and URL path. */
  predicate OwnSizes(ops: seq<Op>) {
    forall op | op in ops && op.Put? :: op.size == op.tile.endOffset
  }

  predicate Accounted(s: State) {
    s.size == Total(s.entries)
  }

  lemma TrimKeepsAccount(s: State, required: nat, max: nat)
    requires Accounted(s) && s.size < SIZE_T
    ensures Accounted(TrimTo(s, required, max)) && TrimTo(s, required, max).size <= s.size
    ensures TrimTo(s, required, max).entries == [] || TrimTo(s, required, max).size + required <= max
  {
    TrimEvictsShortestSuffix(s.entries, required, max);
    TotalOfPrefix(s.entries, Kept(s.entries, s.size, required, max));
  }

  /** In HARD mode the entry that is being replaced is never evicted to make room for itself. */
  lemma ReplacedEntrySurvives(s: State, max: nat, i: nat, size: nat)
    requires Accounted(s) && s.size <= max < SIZE_T && i < |s.entries| && s.entries[i].1.endOffset < size <= max
    ensures var p := Promoted(s.entries, i);
            var k := Kept(p, s.size, size - s.entries[i].1.endOffset, max); k > 0 && p[..k][0] == s.entries[i]
  {
    var p := Promoted(s.entries, i);
    TotalOfPromoted(s.entries, i);
    TrimEvictsShortestSuffix(p, size - s.entries[i].1.endOffset, max);
    assert p[..1] == [s.entries[i]];
    TotalOfOne(s.entries[i]);
    assert !MustEvict(Total(p[..1]), size - s.entries[i].1.endOffset, max);
  }

  lemma TotalWithFirst(e: Entry, es: seq<Entry>)
    ensures Total([e] + es) == e.1.endOffset + Total(es)
  {
    TotalOfConcat([e], es);
    TotalOfOne(e);
  }

  lemma PutNewKeepsAccount(s: State, mode: MemoryLimitControl, max: nat, id: TileId, tile: Tile)
    requires Accounted(s) && tile.endOffset <= max < SIZE_T
    requires if mode == HARD then s.size <= max else s.size + max < SIZE_T
    requires !Has(s.entries, id)
    ensures var s' := AfterPut(s, mode, max, id, tile, tile.endOffset);
            Accounted(s') && s'.size <= s.size + tile.endOffset && (mode == HARD ==> s'.size <= max)
            && s'.entries != [] && s'.entries[0] == (id, tile)
  {
    hide Total, Kept, SizeAfter;
    if mode == HARD {
      TrimKeepsAccount(s, tile.endOffset, max);
    }
    var t := if mode == HARD then TrimTo(s, tile.endOffset, max) else s;
    TotalWithFirst((id, tile), t.entries);
    TotalOfNone();
  }

  lemma TotalOfNone()
    ensures Total([]) == 0
  {
  }

  lemma PutAgainKeepsAccount(s: State, mode: MemoryLimitControl, max: nat, id: TileId, tile: Tile)
    requires Accounted(s) && tile.endOffset <= max < SIZE_T
    requires if mode == HARD then s.size <= max else s.size + max < SIZE_T
    requires Has(s.entries, id)
    ensures var s' := AfterPut(s, mode, max, id, tile, tile.endOffset);
            Accounted(s') && s'.size <= s.size + tile.endOffset && (mode == HARD ==> s'.size <= max)
            && s'.entries != [] && s'.entries[0] == (id, tile)
  {
    hide Total, Kept, SizeAfter;
    var i := IndexOf(s.entries, id);
    var size, oldSize := tile.endOffset, s.entries[i].1.endOffset;
    var p := State(Promoted(s.entries, i), s.size);
    TotalOfPromoted(s.entries, i);
    if mode == HARD && size > oldSize {
      TrimKeepsAccount(p, size - oldSize, max);
      ReplacedEntrySurvives(s, max, i, size);
    }
    var t := if mode == HARD && size > oldSize then TrimTo(p, size - oldSize, max) else p;
    assert t.entries[0] == s.entries[i];
    assert t.entries == [t.entries[0]] + t.entries[1..];
    TotalWithFirst(t.entries[0], t.entries[1..]);
    TotalWithFirst((id, tile), t.entries[1..]);
  }

  /** A Put with the tile's own size keeps the byte count right and, in HARD mode, under the limit. */
  lemma PutKeepsAccount(s: State, mode: MemoryLimitControl, max: nat, id: TileId, tile: Tile)
    requires Accounted(s) && tile.endOffset <= max < SIZE_T
    requires if mode == HARD then s.size <= max else s.size + max < SIZE_T
    ensures var s' := AfterPut(s, mode, max, id, tile, tile.endOffset);
            Accounted(s') && s'.size <= s.size + tile.endOffset && (mode == HARD ==> s'.size <= max)
            && s'.entries != [] && s'.entries[0] == (id, tile)
  {
    hide AfterPut, Accounted;
    if Has(s.entries, id) {
      PutAgainKeepsAccount(s, mode, max, id, tile);
    } else {
      PutNewKeepsAccount(s, mode, max, id, tile);
    }
  }

  // ---------------------------------------------------------------------------------------------
  // Any history

  /** What every history of operations keeps. */
  ghost predicate Sound(s: State, mode: MemoryLimitControl, max: nat, ops: seq<Op>) {
    && Keyed(s.entries) && Accounted(s)
    && s.size <= |ops| * max && (mode == HARD ==> s.size <= max)
  }

  lemma KeyedPromoted(es: seq<Entry>, i: nat)
    requires Keyed(es) && i < |es|
    ensures Keyed(Promoted(es, i)) && forall id :: Has(Promoted(es, i), id) <==> Has(es, id)
  {
    var p := Promoted(es, i);
    forall j, k | 0 <= j < k < |p|
      ensures p[j].0 != p[k].0
    {
      var j' := if j == 0 then i else if j <= i then j - 1 else j;
      var k' := if k <= i then k - 1 else k;
      assert p[j] == es[j'] && p[k] == es[k'];
    }
    SameIdsPromoted(es, i);
  }

  lemma SameIdsPromoted(es: seq<Entry>, i: nat)
    requires i < |es|
    ensures forall id :: Has(Promoted(es, i), id) <==> Has(es, id)
  {
    var p := Promoted(es, i);
    forall id
      ensures Has(p, id) <==> Has(es, id)
    {
      if Has(es, id) {
        var k :| 0 <= k < |es| && es[k].0 == id;
        assert p[if k == i then 0 else if k < i then k + 1 else k].0 == id;
      }
      if Has(p, id) {
        var k :| 0 <= k < |p| && p[k].0 == id;
        assert es[if k == 0 then i else if k <= i then k - 1 else k].0 == id;
      }
    }
  }

  lemma KeyedWithFirst(id: TileId, tile: Tile, rest: seq<Entry>)
    requires Keyed(rest) && forall j | 0 <= j < |rest| :: rest[j].0 != id
    ensures Keyed([(id, tile)] + rest)
  {
  }

  lemma KeyedRoom(s: State, mode: MemoryLimitControl, max: nat, i: nat, size: nat)
    requires Keyed(s.entries) && i < |s.entries|
    ensures var t := RoomFor(s, mode, max, i, size).entries;
            Keyed(t) && (t != [] ==> t[0] == s.entries[i] && forall j | 0 < j < |t| :: t[j].0 != s.entries[i].0)
  {
    KeyedPromoted(s.entries, i);
    hide Kept, SizeAfter;
  }

  lemma KeyedPut(s: State, mode: MemoryLimitControl, max: nat, id: TileId, tile: Tile, size: nat)
    requires Keyed(s.entries)
    ensures Keyed(AfterPut(s, mode, max, id, tile, size).entries)
  {
    var i := IndexOf(s.entries, id);
    if i < |s.entries| {
      var t := RoomFor(s, mode, max, i, size).entries;
      KeyedRoom(s, mode, max, i, size);
      hide RoomFor;
      if t != [] {
        KeyedWithFirst(id, tile, t[1..]);
      }
    } else {
      NotUsedElsewhere(s.entries, id);
      var t := if mode == HARD then TrimTo(s, size, max) else s;
      hide Kept, SizeAfter;
      KeyedWithFirst(id, tile, t.entries);
    }
  }

  /** For any history of Get, Put, Trim and Clear in which every Put passes the tile's own size: keys are
      unique, the byte count is the sum of the sizes, and in HARD mode the limit holds all the time. The
      bound on the history's length only keeps the count of a SOFT cache within 64 bits. */
  lemma {:induction false} HistoryIsSound(mode: MemoryLimitControl, max: nat, ops: seq<Op>)
    requires OwnSizes(ops) && max < SIZE_T && (mode == SOFT ==> |ops| * max < SIZE_T)
    ensures Sound(AfterAll(mode, max, ops), mode, max, ops)
  {
    if ops != [] {
      var before := ops[..|ops| - 1];
      var op := ops[|ops| - 1];
      assert op in ops && forall o | o in before :: o in ops;
      assert |ops| * max == |before| * max + max;
      HistoryIsSound(mode, max, before);
      OpIsSound(AfterAll(mode, max, before), mode, max, op, |before| * max);
    }
  }

  lemma OpIsSound(s: State, mode: MemoryLimitControl, max: nat, op: Op, bound: nat)
    requires Keyed(s.entries) && Accounted(s) && s.size <= bound && (mode == HARD ==> s.size <= max)
    requires max < SIZE_T && (mode == SOFT ==> bound + max < SIZE_T)
    requires op.Put? ==> op.size == op.tile.endOffset
    ensures var s' := After(s, mode, max, op);
            Keyed(s'.entries) && Accounted(s') && s'.size <= bound + max && (mode == HARD ==> s'.size <= max)
  {
    match op
    case Get(id) =>
      var i := IndexOf(s.entries, id);
      if i < |s.entries| {
        KeyedPromoted(s.entries, i);
        TotalOfPromoted(s.entries, i);
      }
    case Put(id, tile, size) =>
      if size <= max {
        KeyedPut(s, mode, max, id, tile, size);
        PutKeepsAccount(s, mode, max, id, tile);
      }
    case Trim =>
      TrimKeepsAccount(s, 0, max);
    case Clear =>
  }

  /** The operation uses the entry: it is put, or got while it is there. */
  predicate Uses(s: State, max: nat, op: Op, id: TileId) {
    (op.Get? && op.id == id && Has(s.entries, id)) || (op.Put? && op.id == id && op.size <= max)
  }

  /** The number of the last operation that used the entry. */
  function LastUse(mode: MemoryLimitControl, max: nat, ops: seq<Op>, id: TileId): int {
    if ops == [] then -1
    else if Uses(AfterAll(mode, max, ops[..|ops| - 1]), max, ops[|ops| - 1], id) then |ops| - 1
    else LastUse(mode, max, ops[..|ops| - 1], id)
  }

  /** The tile last put under the id. */
  function LastPut(max: nat, ops: seq<Op>, id: TileId): Option<Tile> {
    if ops == [] then None
    else var op := ops[|ops| - 1];
      if op.Put? && op.id == id && op.size <= max then Some(op.tile)
      else LastPut(max, ops[..|ops| - 1], id)
  }

  ghost predicate ByRecency(mode: MemoryLimitControl, max: nat, ops: seq<Op>, es: seq<Entry>) {
    && (forall i | 0 <= i < |es| ::
          0 <= LastUse(mode, max, ops, es[i].0) && LastPut(max, ops, es[i].0) == Some(es[i].1))
    && (forall i, j | 0 <= i < j < |es| ::
          LastUse(mode, max, ops, es[i].0) > LastUse(mode, max, ops, es[j].0))
  }

  lemma LastUseBounded(mode: MemoryLimitControl, max: nat, ops: seq<Op>, id: TileId)
    ensures LastUse(mode, max, ops, id) < |ops|
  {
  }

  /** `rest` are entries of `es` in the same order. */
  ghost predicate Subsequence(es: seq<Entry>, rest: seq<Entry>, at: seq<nat>) {
    && |at| == |rest| && (forall i | 0 <= i < |at| :: at[i] < |es| && es[at[i]] == rest[i])
    && (forall i, j | 0 <= i < j < |at| :: at[i] < at[j])
  }

  /** The used entry in front and others of the old entries, in order, behind it. */
  lemma UsedInFront(mode: MemoryLimitControl, max: nat, before: seq<Op>, op: Op, es: seq<Entry>, first: Entry,
                    rest: seq<Entry>, at: seq<nat>)
    requires ByRecency(mode, max, before, es) && Subsequence(es, rest, at)
    requires Uses(AfterAll(mode, max, before), max, op, first.0)
    requires LastPut(max, before + [op], first.0) == Some(first.1)
    requires forall i | 0 <= i < |rest| :: rest[i].0 != first.0
    ensures ByRecency(mode, max, before + [op], [first] + rest)
  {
    var ops := before + [op];
    assert ops[..|ops| - 1] == before;
    var all := [first] + rest;
    forall i | 0 < i < |all|
      ensures LastUse(mode, max, ops, all[i].0) == LastUse(mode, max, before, es[at[i - 1]].0)
      ensures LastPut(max, ops, all[i].0) == Some(all[i].1)
    {
      assert all[i] == rest[i - 1];
    }
    forall i, j | 0 <= i < j < |all|
      ensures LastUse(mode, max, ops, all[i].0) > LastUse(mode, max, ops, all[j].0)
    {
      if i == 0 {
        LastUseBounded(mode, max, before, es[at[j - 1]].0);
      } else {
        assert at[i - 1] < at[j - 1];
      }
    }
  }

  lemma UnusedPrefix(mode: MemoryLimitControl, max: nat, before: seq<Op>, op: Op, es: seq<Entry>, k: nat)
    requires ByRecency(mode, max, before, es) && k <= |es|
    requires forall i | 0 <= i < k :: !Uses(AfterAll(mode, max, before), max, op, es[i].0)
    ensures ByRecency(mode, max, before + [op], es[..k])
  {
    assert (before + [op])[..|before|] == before;
  }

  lemma RestOfPromoted(es: seq<Entry>, i: nat, k: nat) returns (at: seq<nat>)
    requires Keyed(es) && i < |es| && 0 < k <= |es|
    ensures Subsequence(es, Promoted(es, i)[..k][1..], at)
    ensures forall j | 0 <= j < |Promoted(es, i)[..k][1..]| :: Promoted(es, i)[..k][1..][j].0 != es[i].0
  {
    at := seq(k - 1, j requires 0 <= j < k - 1 => if j < i then j else j + 1);
  }

  lemma OpKeepsRecency(mode: MemoryLimitControl, max: nat, before: seq<Op>, op: Op)
    requires var s := AfterAll(mode, max, before); Keyed(s.entries) && ByRecency(mode, max, before, s.entries)
    ensures ByRecency(mode, max, before + [op], After(AfterAll(mode, max, before), mode, max, op).entries)
  {
    var s := AfterAll(mode, max, before);
    var es := s.entries;
    assert (before + [op])[..|before|] == before;
    hide AfterAll, AfterPut, AfterGet, Kept, SizeAfter, ByRecency, LastUse, LastPut, Total;
    assert es[..|es|] == es;
    match op
    case Get(id) =>
      GetKeepsRecency(mode, max, before, op);
    case Put(id, tile, size) =>
      if size > max {
        UnusedPrefix(mode, max, before, op, es, |es|);
      } else {
        PutKeepsRecency(mode, max, before, op);
      }
    case Trim =>
      UnusedPrefix(mode, max, before, op, es, Kept(es, s.size, 0, max));
    case Clear =>
      UnusedPrefix(mode, max, before, op, es, 0);
  }

  lemma GetKeepsRecency(mode: MemoryLimitControl, max: nat, before: seq<Op>, op: Op)
    requires op.Get?
    requires var s := AfterAll(mode, max, before); Keyed(s.entries) && ByRecency(mode, max, before, s.entries)
    ensures ByRecency(mode, max, before + [op], After(AfterAll(mode, max, before), mode, max, op).entries)
  {
    var s := AfterAll(mode, max, before);
    var es := s.entries;
    var i := IndexOf(es, op.id);
    hide AfterAll, AfterPut, ByRecency, LastUse, LastPut, Promoted;
    if i < |es| {
      UsedEntryIsLastPut(mode, max, before, op, es, i);
      var rest, at := GetAsUse(s, mode, max, op.id);
      hide After;
      UsedInFront(mode, max, before, op, es, es[i], rest, at);
    } else {
      NotUsedElsewhere(es, op.id);
      assert es[..|es|] == es;
      UnusedPrefix(mode, max, before, op, es, |es|);
    }
  }

  lemma GetAsUse(s: State, mode: MemoryLimitControl, max: nat, id: TileId) returns (rest: seq<Entry>, at: seq<nat>)
    requires Keyed(s.entries) && Has(s.entries, id)
    ensures After(s, mode, max, Get(id)).entries == [s.entries[IndexOf(s.entries, id)]] + rest
    ensures Subsequence(s.entries, rest, at) && forall j | 0 <= j < |rest| :: rest[j].0 != id
  {
    var i := IndexOf(s.entries, id);
    rest := Promoted(s.entries, i)[..|s.entries|][1..];
    at := RestOfPromoted(s.entries, i, |s.entries|);
  }

  lemma NotUsedElsewhere(es: seq<Entry>, id: TileId)
    requires !Has(es, id)
    ensures forall i | 0 <= i < |es| :: es[i].0 != id
  {
  }

  lemma UsedEntryIsLastPut(mode: MemoryLimitControl, max: nat, before: seq<Op>, op: Op, es: seq<Entry>, i: nat)
    requires ByRecency(mode, max, before, es) && i < |es| && op.Get?
    ensures LastPut(max, before + [op], es[i].0) == Some(es[i].1)
  {
    assert (before + [op])[..|before|] == before;
  }

  lemma LastPutIsLast(max: nat, before: seq<Op>, op: Op)
    requires op.Put? && op.size <= max
    ensures LastPut(max, before + [op], op.id) == Some(op.tile)
  {
    assert (before + [op])[..|before|] == before;
  }

  lemma PutKeepsRecency(mode: MemoryLimitControl, max: nat, before: seq<Op>, op: Op)
    requires op.Put? && op.size <= max
    requires var s := AfterAll(mode, max, before); Keyed(s.entries) && ByRecency(mode, max, before, s.entries)
    ensures ByRecency(mode, max, before + [op], After(AfterAll(mode, max, before), mode, max, op).entries)
  {
    hide AfterAll, Kept, SizeAfter, ByRecency, LastUse, LastPut, Total, Wrap;
    var s := AfterAll(mode, max, before);
    var es := s.entries;
    LastPutIsLast(max, before, op);
    var i := IndexOf(es, op.id);
    var s' := After(s, mode, max, op);
    hide IndexOf;
    if i == |es| {
      NotUsedElsewhere(es, op.id);
      var k := |s'.entries| - 1;
      UsedInFront(mode, max, before, op, es, (op.id, op.tile), es[..k], seq(k, j requires 0 <= j < k => j));
      assert s'.entries == [(op.id, op.tile)] + es[..k];
    } else if s'.entries == [] {
      UnusedPrefix(mode, max, before, op, es, 0);
    } else {
      var k := |s'.entries|;
      var at := RestOfPromoted(es, i, k);
      UsedInFront(mode, max, before, op, es, (op.id, op.tile), Promoted(es, i)[..k][1..], at);
      assert s'.entries == [(op.id, op.tile)] + Promoted(es, i)[..k][1..];
    }
  }

  /** For any history, whatever sizes are passed: the list is in order of last use, and every entry holds
      the tile last put under its id. */
  lemma {:induction false} ListIsByRecency(mode: MemoryLimitControl, max: nat, ops: seq<Op>)
    ensures Keyed(AfterAll(mode, max, ops).entries)
    ensures ByRecency(mode, max, ops, AfterAll(mode, max, ops).entries)
  {
    if ops != [] {
      var before, op := ops[..|ops| - 1], ops[|ops| - 1];
      ListIsByRecency(mode, max, before);
      assert before + [op] == ops;
      OpKeepsRecency(mode, max, before, op);
      OpKeepsKeys(AfterAll(mode, max, before), mode, max, op);
    }
  }

  lemma OpKeepsKeys(s: State, mode: MemoryLimitControl, max: nat, op: Op)
    requires Keyed(s.entries)
    ensures Keyed(After(s, mode, max, op).entries)
  {
    match op
    case Get(id) =>
      if IndexOf(s.entries, id) < |s.entries| {
        KeyedPromoted(s.entries, IndexOf(s.entries, id));
      }
    case Put(id, tile, size) =>
      KeyedPut(s, mode, max, id, tile, size);
    case Trim =>
    case Clear =>
  }

  /** The condition is needed: in either mode a Put leaves the byte count right exactly when it passes the
      tile's own size. The memory mapped path passes a constant. */
  lemma AccountNeedsOwnSize(s: State, mode: MemoryLimitControl, max: nat, id: TileId, tile: Tile, size: nat)
    requires Accounted(s) && size <= max < SIZE_T
    requires if mode == HARD then s.size <= max && tile.endOffset < SIZE_T - max else s.size + max < SIZE_T
    ensures Accounted(AfterPut(s, mode, max, id, tile, size)) <==> size == tile.endOffset
  {
    hide Total, Kept, SizeAfter;
    if Has(s.entries, id) {
      var i := IndexOf(s.entries, id);
      AfterPutAgain(s, mode, max, id, tile, size);
      RoomIsAccounted(s, mode, max, i, size);
      var t := RoomFor(s, mode, max, i, size);
      hide AfterPut, RoomFor;
      assert t.entries == [t.entries[0]] + t.entries[1..];
      TotalWithFirst(t.entries[0], t.entries[1..]);
      TotalWithFirst((id, tile), t.entries[1..]);
    } else {
      AfterPutNew(s, mode, max, id, tile, size);
      if mode == HARD { TrimKeepsAccount(s, size, max); }
      TotalOfNone();
      var t := if mode == HARD then TrimTo(s, size, max) else s;
      hide AfterPut;
      TotalWithFirst((id, tile), t.entries);
    }
  }

  lemma RoomIsAccounted(s: State, mode: MemoryLimitControl, max: nat, i: nat, size: nat)
    requires Accounted(s) && size <= max < SIZE_T && i < |s.entries|
    requires if mode == HARD then s.size <= max else s.size + max < SIZE_T
    ensures var t := RoomFor(s, mode, max, i, size);
            && t.entries != [] && t.entries[0] == s.entries[i] && Accounted(t) && t.size <= s.size
            && (mode == HARD && size > s.entries[i].1.endOffset ==> t.size + size - s.entries[i].1.endOffset <= max)
  {
    hide Total, Kept, SizeAfter;
    var p := State(Promoted(s.entries, i), s.size);
    TotalOfPromoted(s.entries, i);
    var oldSize := s.entries[i].1.endOffset;
    if mode == HARD && size > oldSize {
      TrimKeepsAccount(p, size - oldSize, max);
      ReplacedEntrySurvives(s, max, i, size);
    }
  }

  const MM_TILE_SIZE := 1024

  /** What then happens: the count wraps around below zero, everything is evicted, and the empty cache is
      over its limit for good. */
  lemma ConstantSizeUnderflows(a: TileId, b: TileId, tile: Tile)
    requires a != b && tile.endOffset == 5000
    ensures var ops := [Put(a, tile, MM_TILE_SIZE), Put(b, tile, MM_TILE_SIZE), Trim];
            var s := AfterAll(SOFT, 2000, ops);
            s.entries == [] && s.size > 2000 && After(s, SOFT, 2000, Trim) == s
  {
    var ops := [Put(a, tile, MM_TILE_SIZE), Put(b, tile, MM_TILE_SIZE), Trim];
    assert ops[..2] == [ops[0], ops[1]] && ops[..2][..1] == [ops[0]] && [ops[0]][..0] == [];
    assert AfterAll(SOFT, 2000, [ops[0]]) == State([(a, tile)], 1024);
    var two := AfterAll(SOFT, 2000, ops[..2]);
    assert two == State([(b, tile), (a, tile)], 2048);
    assert two.entries[..1] == [(b, tile)] && [(b, tile)][..0] == [];
    assert Kept([(b, tile)], Wrap(2048 - 5000), 0, 2000) == 0;
    assert Kept(two.entries, 2048, 0, 2000) == 0;
    assert SizeAfter([(b, tile)], Wrap(2048 - 5000), 0, 2000) == Wrap(Wrap(2048 - 5000) - 5000);
    assert SizeAfter(two.entries, 2048, 0, 2000) == Wrap(2048 - 10000);
  }

  lemma FirstPut(mode: MemoryLimitControl, max: nat, a: TileId, tile: Tile, size: nat)
    requires size <= max < SIZE_T
    ensures AfterAll(mode, max, [Put(a, tile, size)]) == State([(a, tile)], size)
  {
    var op := Put(a, tile, size);
    var none: seq<Entry> := [];
    assert [op][..0] == [] && none[..0] == none && [(a, tile)] + none == [(a, tile)];
    assert TrimTo(State(none, 0), size, max) == State(none, 0);
  }

  /** The limit of a HARD cache does not hold then: two mapped tiles are enough. */
  lemma ConstantSizeBreaksHardLimit(a: TileId, b: TileId, tile: Tile)
    requires a != b && tile.endOffset == 5000
    ensures AfterAll(HARD, 2000, [Put(a, tile, MM_TILE_SIZE), Put(b, tile, MM_TILE_SIZE)]).size > 2000
  {
    var ops := [Put(a, tile, MM_TILE_SIZE), Put(b, tile, MM_TILE_SIZE)];
    assert ops[..1] == [ops[0]];
    var one := AfterAll(HARD, 2000, [ops[0]]);
    FirstPut(HARD, 2000, a, tile, MM_TILE_SIZE);
    assert one.entries[..0] == [];
    assert Kept(one.entries, 1024, MM_TILE_SIZE, 2000) == 0;
    assert SizeAfter(one.entries, 1024, MM_TILE_SIZE, 2000) == Wrap(1024 - 5000);
  }

  // ---------------------------------------------------------------------------------------------
  // When a replaced entry is evicted

  /** Keeping the first k entries leaves the room: the count, less the sizes of the others, is not negative and
      within the limit. */
  predicate RoomWith(es: seq<Entry>, size: nat, required: nat, max: nat, k: nat)
    requires k <= |es|
  {
    0 <= size - (Total(es) - Total(es[..k])) <= max - required
  }

  ghost predicate NoRoom(es: seq<Entry>, size: nat, required: nat, max: nat) {
    forall k | 0 < k <= |es| :: !RoomWith(es, size, required, max, k)
  }

  lemma {:induction false} HighCountEvictsAll(es: seq<Entry>, size: nat, required: nat, max: nat)
    requires size < SIZE_T && size - Total(es) > max
    ensures Kept(es, size, required, max) == 0
  {
    if es != [] {
      HighCountEvictsAll(es[..|es| - 1], size - es[|es| - 1].1.endOffset, required, max);
    }
  }

  lemma RoomWithoutLast(es: seq<Entry>, size: nat, required: nat, max: nat, k: nat)
    requires 0 < k < |es|
    ensures var last, rest := es[|es| - 1].1.endOffset, es[..|es| - 1];
            RoomWith(es, size, required, max, k) <==> size >= last && RoomWith(rest, size - last, required, max, k)
  {
    var rest := es[..|es| - 1];
    assert rest[..k] == es[..k];
    TotalOfPrefix(rest, k);
  }

  lemma NoRoomStep(es: seq<Entry>, size: nat, required: nat, max: nat)
    requires es != [] && required <= max
    ensures var last, rest := es[|es| - 1].1.endOffset, es[..|es| - 1];
            NoRoom(es, size, required, max) <==>
              MustEvict(size, required, max) && (size >= last ==> NoRoom(rest, size - last, required, max))
  {
    hide Total;
    var last, rest := es[|es| - 1].1.endOffset, es[..|es| - 1];
    assert es[..|es|] == es;
    assert RoomWith(es, size, required, max, |es|) <==> !MustEvict(size, required, max);
    hide RoomWith;
    if size >= last {
      var left := size - last;
      forall k | 0 < k < |es|
        ensures RoomWith(rest, left, required, max, k) <==> RoomWith(es, size, required, max, k)
      {
        RoomWithoutLast(es, size, required, max, k);
      }
      assert NoRoom(es, size, required, max) ==> NoRoom(rest, left, required, max);
    } else {
      forall k | 0 < k < |es|
        ensures !RoomWith(es, size, required, max, k)
      {
        RoomWithoutLast(es, size, required, max, k);
      }
    }
  }

  /** Whatever the count says, the loop evicts all entries exactly if it leaves the room for none of the
      prefixes. A count below zero wraps around and evicts them all. */
  lemma {:induction false} AllEvictedIff(es: seq<Entry>, size: nat, required: nat, max: nat)
    requires es != [] && required <= max && size < SIZE_T && Total(es) < SIZE_T - max
    ensures Kept(es, size, required, max) == 0 <==> NoRoom(es, size, required, max)
  {
    hide NoRoom;
    var last, rest := es[|es| - 1].1.endOffset, es[..|es| - 1];
    NoRoomStep(es, size, required, max);
    if MustEvict(size, required, max) {
      if size < last {
        HighCountEvictsAll(rest, size - last + SIZE_T, required, max);
      } else if rest != [] {
        AllEvictedIff(rest, size - last, required, max);
      } else {
        NoRoomInNothing(size - last, required, max);
      }
    }
  }

  lemma NoRoomInNothing(size: nat, required: nat, max: nat)
    ensures NoRoom([], size, required, max)
  {
  }

  /** Replacing an entry evicts that entry exactly in HARD mode, if the entry grows and no number of evictions
      of the others brings the count to where there is room. */
  lemma EvictsItselfIff(s: State, mode: MemoryLimitControl, max: nat, id: TileId, size: nat)
    requires Has(s.entries, id) && size <= max < SIZE_T && s.size < SIZE_T && Total(s.entries) < SIZE_T - max
    ensures var i := IndexOf(s.entries, id);
            var oldSize, p := s.entries[i].1.endOffset, Promoted(s.entries, i);
            EvictsItself(s, mode, max, id, size) <==>
              mode == HARD && size > oldSize && NoRoom(p, s.size, size - oldSize, max)
  {
    hide NoRoom, Kept, SizeAfter, Total;
    var i := IndexOf(s.entries, id);
    TotalOfPromoted(s.entries, i);
    if mode == HARD && size > s.entries[i].1.endOffset {
      AllEvictedIff(Promoted(s.entries, i), s.size, size - s.entries[i].1.endOffset, max);
    }
  }

  /** For a count that is at least the sum of the sizes: exactly if it exceeds the sum by more than what the
      limit leaves beside the new tile. */
  lemma OverstatedEvictsItselfIff(s: State, mode: MemoryLimitControl, max: nat, id: TileId, size: nat)
    requires Has(s.entries, id) && size <= max < SIZE_T && Total(s.entries) <= s.size < SIZE_T
    requires Total(s.entries) < SIZE_T - max
    ensures EvictsItself(s, mode, max, id, size) <==>
              && mode == HARD && size > s.entries[IndexOf(s.entries, id)].1.endOffset
              && s.size - Total(s.entries) > max - size
  {
    hide Kept, SizeAfter, Total, EvictsItself, NoRoom;
    EvictsItselfIff(s, mode, max, id, size);
    var i := IndexOf(s.entries, id);
    var oldSize, p := s.entries[i].1.endOffset, Promoted(s.entries, i);
    TotalOfPromoted(s.entries, i);
    if size > oldSize {
      FirstHasLeast(p, s.size, size - oldSize, max);
    }
  }

  /** Where there is room with some of the entries, there is with the first one alone. */
  lemma FirstHasLeast(p: seq<Entry>, size: nat, required: nat, max: nat)
    requires p != [] && Total(p) <= size && required <= max
    ensures NoRoom(p, size, required, max) <==> size - Total(p) + p[0].1.endOffset > max - required
  {
    hide Total;
    assert p[..1] == [p[0]];
    TotalOfOne(p[0]);
    TotalOfPrefix(p, 1);
    assert RoomWith(p, size, required, max, 1) <==> size - Total(p) + p[0].1.endOffset <= max - required;
    if k :| 0 < k <= |p| && RoomWith(p, size, required, max, k) {
      assert p[..k][..1] == p[..1];
      TotalOfPrefix(p[..k], 1);
    }
  }

  /** That happens: two readers that share a cache both miss a mapped tile of 300 bytes and both put it, each
      time with the constant size. */
  lemma SharedPutsEvictThemselves(a: TileId, tile: Tile)
    requires tile.endOffset == 300
    ensures var s := AfterAll(HARD, 1200, [Put(a, tile, MM_TILE_SIZE)]);
            EvictsItself(s, HARD, 1200, a, MM_TILE_SIZE)
  {
    hide EvictsItself;
    var s := State([(a, tile)], MM_TILE_SIZE);
    FirstPut(HARD, 1200, a, tile, MM_TILE_SIZE);
    TotalOfOne((a, tile));
    assert IndexOf(s.entries, a) == 0;
    OverstatedEvictsItselfIff(s, HARD, 1200, a, MM_TILE_SIZE);
  }
}
