/** Tile file names: GraphTile::FileSuffix prints them, GraphId::FromTilePath parses them, and the tile
    listing script prints them a second way. */
module TilePaths {
  import opened DecimalDigits
  import opened TileHierarchy
  import opened Wrappers

  // ---------------------------------------------------------------------------------------------
  // Numbers in groups of three digits

  predicate AllDigits(s: string) {
    forall i | 0 <= i < |s| :: IsDigit(s[i])
  }

  /** atoi on a string of digits. */
  function Number(s: string): nat
    requires AllDigits(s)
  {
    if s == "" then 0 else Number(s[..|s| - 1]) * 10 + DigitOf(s[|s| - 1])
  }

  function Three(n: nat): (s: string)
    requires n < 1000
    ensures |s| == 3 && AllDigits(s)
  {
    [DigitChar(n / 100), DigitChar(n / 10 % 10), DigitChar(n % 10)]
  }

  lemma NumberOfOne(c: char)
    requires IsDigit(c)
    ensures Number([c]) == DigitOf(c)
  {
    assert [c][..0] == [];
  }

  lemma NumberOfThreeChars(a: char, b: char, c: char)
    requires IsDigit(a) && IsDigit(b) && IsDigit(c)
    ensures Number([a, b, c]) == DigitOf(a) * 100 + DigitOf(b) * 10 + DigitOf(c)
  {
    assert [a, b, c][..2] == [a, b] && [a, b][..1] == [a];
    NumberOfOne(a);
    assert Number([a, b]) == DigitOf(a) * 10 + DigitOf(b);
  }

  lemma NumberOfThree(n: nat)
    requires n < 1000
    ensures Number(Three(n)) == n
  {
    var a, b, c := n / 100, n / 10 % 10, n % 10;
    assert Three(n) == [DigitChar(a), DigitChar(b), DigitChar(c)];
    NumberOfThreeChars(DigitChar(a), DigitChar(b), DigitChar(c));
  }

  lemma SplitThree(a: nat, b: nat, c: nat)
    requires a < 10 && b < 10 && c < 10
    ensures var n := a * 100 + b * 10 + c; n / 100 == a && n / 10 % 10 == b && n % 10 == c
  {
  }

  lemma ThreeOfNumber(s: string)
    requires |s| == 3 && AllDigits(s)
    ensures Number(s) < 1000 && s == Three(Number(s))
  {
    hide Number, DigitOf, DigitChar;
    assert s == [s[0], s[1], s[2]];
    NumberOfThreeChars(s[0], s[1], s[2]);
    SplitThree(DigitOf(s[0]), DigitOf(s[1]), DigitOf(s[2]));
  }

  /** The tile number in `groups` groups of three digits, each behind a separator. */
  function InGroups(tileid: nat, groups: nat, separator: char): (s: string)
    ensures |s| == 4 * groups
  {
    if groups == 0 then "" else InGroups(tileid / 1000, groups - 1, separator) + [separator] + Three(tileid % 1000)
  }

  function Pow1000(n: nat): (p: nat)
    ensures p > 0
  {
    if n == 0 then 1 else 1000 * Pow1000(n - 1)
  }

  /** Groups with the least significant first, as the parser collects them. */
  function Value(groups: seq<nat>): nat {
    if groups == [] then 0 else groups[0] + 1000 * Value(groups[1..])
  }

  function GroupsOf(tileid: nat, groups: nat): (ds: seq<nat>)
    ensures |ds| == groups && forall d | d in ds :: d < 1000
  {
    if groups == 0 then [] else [tileid % 1000] + GroupsOf(tileid / 1000, groups - 1)
  }

  lemma {:induction false} ValueOfGroups(tileid: nat, groups: nat)
    requires tileid < Pow1000(groups)
    ensures Value(GroupsOf(tileid, groups)) == tileid
  {
    if groups > 0 {
      assert GroupsOf(tileid, groups)[1..] == GroupsOf(tileid / 1000, groups - 1);
      ValueOfGroups(tileid / 1000, groups - 1);
    }
  }

  lemma {:induction false} GroupsOfValue(ds: seq<nat>)
    requires forall d | d in ds :: d < 1000
    ensures GroupsOf(Value(ds), |ds|) == ds && Value(ds) < Pow1000(|ds|)
  {
    if ds != [] {
      assert ds[0] in ds && forall d | d in ds[1..] :: d in ds;
      GroupsOfValue(ds[1..]);
    }
  }

  // ---------------------------------------------------------------------------------------------
  // The printer

  /** The number of decimal digits; the original takes it from log10. */
  function DigitsIn(n: nat): (d: nat)
    ensures n > 0 ==> d > 0
  {
    if n == 0 then 0 else 1 + DigitsIn(n / 10)
  }

  /** How many groups of three digits the largest id of a tiling needs. */
  function Parts(maxId: nat): (p: nat)
    ensures p > 0
  {
    var digits := DigitsIn(if maxId == 0 then 1 else maxId);
    if digits % 3 == 0 then digits / 3 else digits / 3 + 1
  }

  function Pow10(n: nat): (p: nat)
    ensures p > 0
  {
    if n == 0 then 1 else 10 * Pow10(n - 1)
  }

  lemma {:induction false} DigitsBound(n: nat)
    ensures n < Pow10(DigitsIn(n))
  {
    if n > 0 {
      DigitsBound(n / 10);
    }
  }

  lemma {:induction false} Pow10Grows(m: nat, n: nat)
    requires m <= n
    ensures Pow10(m) <= Pow10(n)
  {
    if m < n {
      Pow10Grows(m, n - 1);
    }
  }

  lemma {:induction false} PowersAgree(n: nat)
    ensures Pow1000(n) == Pow10(3 * n)
  {
    if n > 0 {
      PowersAgree(n - 1);
      assert Pow10(3 * n) == 10 * Pow10(3 * n - 1) && Pow10(3 * n - 1) == 10 * Pow10(3 * n - 2);
    }
  }

  /** The groups have room for every id of the tiling. */
  lemma PartsSuffice(tileid: nat, maxId: nat)
    requires tileid <= maxId
    ensures tileid < Pow1000(Parts(maxId))
  {
    var n := if maxId == 0 then 1 else maxId;
    DigitsBound(n);
    PowersAgree(Parts(maxId));
    Pow10Grows(DigitsIn(n), 3 * Parts(maxId));
  }

  datatype PathError = InvalidLevel | InvalidTileId | InvalidTilePath

  /** The path of a tile in a tiling with ids up to `maxId`. */
  function Printed(id: TileId, maxId: nat, separator: char, ext: string): string
    requires id.level < 10
  {
    [DigitChar(id.level)] + InGroups(id.tileid, Parts(maxId), separator) + ext
  }

  function MaxId(level: nat): nat
    requires level < 4
  {
    TILE_COUNTS[level] - 1
  }

  /** What is left of the number after `k` digits from the right. */
  function Shifted(n: nat, k: nat): nat {
    if k == 0 then n else Shifted(n / 10, k - 1)
  }

  lemma {:induction false} ShiftedStep(n: nat, k: nat)
    ensures Shifted(n, k + 1) == Shifted(n, k) / 10
  {
    if k > 0 {
      ShiftedStep(n / 10, k - 1);
    }
  }

  lemma {:induction false} ShiftedOut(n: nat, k: nat)
    requires n < Pow10(k)
    ensures Shifted(n, k) == 0
  {
    if k > 0 {
      ShiftedOut(n / 10, k - 1);
    }
  }

  /** Where the k-th digit from the right stands among `groups` groups. */
  function PlaceOf(k: nat, groups: nat): int {
    4 * groups - 1 - (k + k / 3)
  }

  lemma DividedByTen(n: nat, q: nat, r: nat)
    requires n == 10 * q + r && r < 10
    ensures n / 10 == q && n % 10 == r
  {
  }

  lemma DividedByThousand(n: nat, q: nat, r: nat)
    requires n == 1000 * q + r && r < 1000
    ensures n / 1000 == q && n % 1000 == r
  {
  }

  lemma DigitsOfRemainder(n: nat, a: nat, b: nat, c: nat, q: nat)
    requires a < 10 && b < 10 && c < 10 && n == q * 1000 + a * 100 + b * 10 + c
    ensures n % 10 == c && n / 10 % 10 == b && n / 10 / 10 % 10 == a && n % 1000 == a * 100 + b * 10 + c
  {
    DividedByThousand(n, q, a * 100 + b * 10 + c);
    DividedByTen(n, q * 100 + a * 10 + b, c);
    DividedByTen(q * 100 + a * 10 + b, q * 10 + a, b);
    DividedByTen(q * 10 + a, q, a);
  }

  lemma DigitsOfThree(r: nat)
    requires r < 1000
    ensures r / 100 < 10 && r == r / 100 * 100 + r / 10 % 10 * 10 + r % 10
  {
    var q := r / 10;
    assert r == 10 * q + r % 10;
    assert q == 10 * (q / 10) + q % 10;
    DividedByHundred(r, q / 10, 10 * (q % 10) + r % 10);
  }

  lemma DividedByHundred(n: nat, q: nat, r: nat)
    requires n == 100 * q + r && r < 100
    ensures n / 100 == q && n % 100 == r
  {
  }

  lemma ThreeIs(r: nat)
    requires r < 1000
    ensures Three(r) == [DigitChar(r / 100), DigitChar(r / 10 % 10), DigitChar(r % 10)]
  {
  }

  lemma LastThreeDigits(n: nat, k: nat)
    requires k < 3
    ensures Three(n % 1000)[2 - k] == DigitChar(Shifted(n, k) % 10)
  {
    hide Three, DigitChar;
    var r := n % 1000;
    var a, b, c := r / 100, r / 10 % 10, r % 10;
    DigitsOfThree(r);
    ThreeIs(r);
    DigitsOfRemainder(n, a, b, c, n / 1000);
    ShiftedStep(n, 0);
    ShiftedStep(n, 1);
  }

  lemma ShiftedByThree(n: nat, k: nat)
    requires k >= 3
    ensures Shifted(n, k) == Shifted(n / 1000, k - 3)
  {
    assert Shifted(n, k) == Shifted(n / 10, k - 1) == Shifted(n / 10 / 10, k - 2);
    assert Shifted(n, k) == Shifted(n / 10 / 10 / 10, k - 3);
    assert n / 10 / 10 / 10 == n / 1000;
  }

  lemma PlaceOfShifted(k: nat, groups: nat)
    requires k < 3 * groups
    ensures k < 3 ==> PlaceOf(k, groups) == 4 * groups - 1 - k
    ensures k >= 3 ==> PlaceOf(k, groups) == PlaceOf(k - 3, groups - 1)
  {
  }

  /** The k-th digit from the right is where the printer writes it, and separators stand in between. */
  lemma {:induction false} InGroupsAt(tileid: nat, groups: nat, separator: char, k: nat)
    requires k < 3 * groups
    ensures 0 <= PlaceOf(k, groups) < 4 * groups
    ensures InGroups(tileid, groups, separator)[PlaceOf(k, groups)] == DigitChar(Shifted(tileid, k) % 10)
  {
    hide PlaceOf, Shifted, Three, DigitChar;
    PlaceOfShifted(k, groups);
    if k < 3 {
      LastThreeDigits(tileid, k);
    } else {
      InGroupsAt(tileid / 1000, groups - 1, separator, k - 3);
      ShiftedByThree(tileid, k);
    }
  }

  lemma {:induction false} SeparatorAt(tileid: nat, groups: nat, separator: char, g: nat)
    requires g < groups
    ensures InGroups(tileid, groups, separator)[4 * g] == separator
  {
    if g < groups - 1 {
      SeparatorAt(tileid / 1000, groups - 1, separator, g);
    }
  }

  /** Every place that is not a separator's holds one digit. */
  lemma EveryPlace(groups: nat, i: nat) returns (k: nat)
    requires i < 4 * groups && i % 4 != 0
    ensures k < 3 * groups && PlaceOf(k, groups) == i
  {
    var back := 4 * groups - 1 - i;
    var q, r := back / 4, back % 4;
    k := q * 3 + r;
    assert r < 3 && k / 3 == q && q < groups;
  }

  /** Two strings of the groups' length with the same digits and separators are equal. */
  lemma InGroupsIs(tileid: nat, groups: nat, separator: char, s: string)
    requires |s| == 4 * groups
    requires forall i | 0 <= i < 4 * groups && i % 4 == 0 :: s[i] == separator
    requires forall k | 0 <= k < 3 * groups :: 0 <= PlaceOf(k, groups) &&
               s[PlaceOf(k, groups)] == DigitChar(Shifted(tileid, k) % 10)
    ensures s == InGroups(tileid, groups, separator)
  {
    var t := InGroups(tileid, groups, separator);
    forall i | 0 <= i < 4 * groups
      ensures s[i] == t[i]
    {
      if i % 4 == 0 {
        SeparatorAt(tileid, groups, separator, i / 4);
      } else {
        var k := EveryPlace(groups, i);
        InGroupsAt(tileid, groups, separator, k);
      }
    }
  }

  lemma PlacesDiffer(j: nat, k: nat, groups: nat)
    requires j < k < 3 * groups
    ensures 0 <= PlaceOf(k, groups) < PlaceOf(j, groups) < 4 * groups
    ensures PlaceOf(j, groups) % 4 != 0 && PlaceOf(k, groups) % 4 != 0
  {
  }

  /** One step to the left, and one more over a separator. */
  function NextIndex(ind: nat, strlen: nat): nat {
    var next := Wrap(ind - 1);
    if Wrap(strlen - next) % 4 == 0 then Wrap(next - 1) else next
  }

  lemma NextIndexIsNextPlace(k: nat, groups: nat)
    requires k < 3 * groups && 4 * groups < SIZE_T
    ensures 0 <= PlaceOf(k, groups) < 4 * groups
    ensures k + 1 < 3 * groups ==> NextIndex(PlaceOf(k, groups), 4 * groups) == PlaceOf(k + 1, groups)
  {
  }

  /** The first `k` digits from the right are in place and the others are still zero. */
  ghost predicate Filled(s: string, tileid: nat, groups: nat, k: nat)
    requires |s| == 4 * groups
  {
    forall j | 0 <= j < 3 * groups ::
      && 0 <= PlaceOf(j, groups) < |s|
      && s[PlaceOf(j, groups)] == if j < k then DigitChar(Shifted(tileid, j) % 10) else '0'
  }

  lemma FilledNext(s: string, tileid: nat, groups: nat, k: nat)
    requires |s| == 4 * groups && k < 3 * groups && Filled(s, tileid, groups, k)
    ensures 0 <= PlaceOf(k, groups) < |s|
    ensures Filled(s[PlaceOf(k, groups) := DigitChar(Shifted(tileid, k) % 10)], tileid, groups, k + 1)
  {
    hide PlaceOf;
    forall j | 0 <= j < 3 * groups && j != k
      ensures PlaceOf(j, groups) != PlaceOf(k, groups)
    {
      if j < k { PlacesDiffer(j, k, groups); } else { PlacesDiffer(k, j, groups); }
    }
  }

  /** When nothing is left of the number, the zeros are its leading digits. */
  lemma FilledAll(s: string, tileid: nat, groups: nat, k: nat)
    requires |s| == 4 * groups && Filled(s, tileid, groups, k) && Shifted(tileid, k) == 0
    ensures Filled(s, tileid, groups, 3 * groups)
  {
    hide PlaceOf;
    forall j | k <= j < 3 * groups
      ensures Shifted(tileid, j) == 0
    {
      StaysShiftedOut(tileid, k, j);
    }
  }

  lemma FilledBetweenSeparators(s: string, tileid: nat, groups: nat, k: nat, i: nat, separator: char)
    requires |s| == 4 * groups && i < |s| && i % 4 == 0 && Filled(s, tileid, groups, k)
    ensures Filled(s[i := separator], tileid, groups, k)
  {
    hide Shifted;
    assert forall j | 0 <= j < 3 * groups :: PlaceOf(j, groups) % 4 != 0;
  }

  /** The second loop: every fourth place, from the first on, is a separator. */
  method WriteSeparators(buffer: array<char>, tileid: nat, groups: nat, separator: char)
    requires buffer.Length == 4 * groups && Filled(buffer[..], tileid, groups, 3 * groups)
    modifies buffer
    ensures Filled(buffer[..], tileid, groups, 3 * groups)
    ensures forall i | 0 <= i < buffer.Length && i % 4 == 0 :: buffer[i] == separator
  {
    hide Filled;
    var sep := 0;
    while sep < buffer.Length
      invariant sep % 4 == 0
      invariant forall i | 0 <= i < sep && i < buffer.Length && i % 4 == 0 :: buffer[i] == separator
      invariant Filled(buffer[..], tileid, groups, 3 * groups)
    {
      FilledBetweenSeparators(buffer[..], tileid, groups, 3 * groups, sep, separator);
      ghost var before := buffer[..];
      buffer[sep] := separator;
      assert buffer[..] == before[sep := separator];
      sep := sep + 4;
    }
  }

  /** The digits go into the buffer from the back; the index is a size_t and wraps around below the front,
      but no write is ever out of bounds. */
  method FillBackward(tileid: nat, groups: nat, separator: char) returns (s: string)
    requires 0 < groups < SIZE_T / 4 && tileid < Pow1000(groups)
    ensures s == InGroups(tileid, groups, separator)
  {
    hide PlaceOf, NextIndex, Filled, Pow10, Pow1000;
    PowersAgree(groups);
    ShiftedOut(tileid, 3 * groups);
    var strlen := 4 * groups;
    var buffer := new char[strlen](_ => '0');
    NothingFilled(buffer[..], tileid, groups);
    FirstPlace(groups);
    var ind: nat := strlen - 1;
    var rest := tileid;
    ghost var k := 0;
    while rest != 0
      invariant k <= 3 * groups && rest == Shifted(tileid, k)
      invariant k < 3 * groups ==> ind == PlaceOf(k, groups)
      invariant Filled(buffer[..], tileid, groups, k)
      decreases rest
    {
      NextIndexIsNextPlace(k, groups);
      FilledNext(buffer[..], tileid, groups, k);
      ShiftedStep(tileid, k);
      buffer[ind] := DigitChar(rest % 10);
      ind := NextIndex(ind, strlen);
      rest := rest / 10;
      k := k + 1;
    }
    FilledAll(buffer[..], tileid, groups, k);
    WriteSeparators(buffer, tileid, groups, separator);
    s := buffer[..];
    FilledIsInGroups(s, tileid, groups, separator);
  }

  lemma NothingFilled(s: string, tileid: nat, groups: nat)
    requires |s| == 4 * groups && forall i | 0 <= i < |s| :: s[i] == '0'
    ensures Filled(s, tileid, groups, 0)
  {
  }

  lemma FirstPlace(groups: nat)
    ensures PlaceOf(0, groups) == 4 * groups - 1
  {
  }

  lemma FilledIsInGroups(s: string, tileid: nat, groups: nat, separator: char)
    requires |s| == 4 * groups && Filled(s, tileid, groups, 3 * groups)
    requires forall i | 0 <= i < 4 * groups && i % 4 == 0 :: s[i] == separator
    ensures s == InGroups(tileid, groups, separator)
  {
    hide PlaceOf, Shifted;
    InGroupsIs(tileid, groups, separator, s);
  }

  lemma {:induction false} StaysShiftedOut(n: nat, k: nat, j: nat)
    requires Shifted(n, k) == 0 && k <= j
    ensures Shifted(n, j) == 0
  {
    if k < j {
      StaysShiftedOut(n, k, j - 1);
      ShiftedStep(n, j - 1);
    }
  }

  /** A tiling: its hierarchy level and the largest tile number. */
  datatype TileLevel = TileLevel(level: nat, maxId: nat)

  /** The tiling FileSuffix uses: the one it is given, or the level's own. */
  function LevelFor(level: nat, tiles: Option<TileLevel>): Option<TileLevel> {
    match tiles
    case Some(t) => if t.level == level then tiles else None
    case None => if level < 4 then Some(TileLevel(level, MaxId(level))) else None
  }

  lemma {:induction false} FewDigits(n: nat)
    ensures DigitsIn(n) <= n
  {
    if n > 0 {
      FewDigits(n / 10);
    }
  }

  /** GraphTile::FileSuffix. The level takes three bits of an id, a tile number 32 of a tiling. */
  method FileSuffix(id: TileId, ext: string, separator: char, tiles: Option<TileLevel>)
    returns (r: Result<string, PathError>)
    requires id.level < 8 && (tiles.Some? ==> tiles.value.maxId < 0x1_0000_0000)
    ensures r == Err(InvalidLevel) <==> if tiles.Some? then tiles.value.level != id.level else id.level > 3
    ensures r != Err(InvalidLevel) ==>
      var count := if tiles.Some? then tiles.value.maxId + 1 else TILE_COUNTS[id.level];
      r == if id.tileid >= count then Err(InvalidTileId) else Ok(Printed(id, count - 1, separator, ext))
  {
    var level := LevelFor(id.level, tiles);
    if level == None {
      return Err(InvalidLevel);
    }
    var maxId := level.value.maxId;
    if id.tileid > maxId {
      return Err(InvalidTileId);
    }
    hide InGroups, Pow1000, DigitsIn;
    PartsSuffice(id.tileid, maxId);
    FewDigits(if maxId == 0 then 1 else maxId);
    var tileIdStr := FillBackward(id.tileid, Parts(maxId), separator);
    r := Ok([DigitChar(id.level)] + tileIdStr + ext);
  }

  // ---------------------------------------------------------------------------------------------
  // The parser

  /** Invalid is the exception; OffTheStart is a read before the first character, which a path of nothing
      but three-digit groups leads to. */
  datatype Parse = Parsed(id: TileId) | Invalid | OffTheStart

  /** The length of the run of digits at the end. */
  function DigitRun(s: string): (n: nat)
    ensures n <= |s| && forall i | |s| - n <= i < |s| :: IsDigit(s[i])
    ensures n < |s| ==> !IsDigit(s[|s| - n - 1])
  {
    if s == "" || !IsDigit(s[|s| - 1]) then 0 else DigitRun(s[..|s| - 1]) + 1
  }

  datatype Walked = Groups(digits: seq<nat>) | BadGroup | NoLevel

  /** The backward walk over the groups of `s`, up to a group of one digit or a separator in front. */
  function Walk(s: string): Walked {
    if s == "" then Groups([])
    else
      var n := DigitRun(s);
      var i := |s| - n;
      if n == 0 || (i > 0 && s[i - 1] != '/') || (n != 1 && n != 3) then BadGroup
      else if n == 1 then Groups([Number(s[i..])])
      else if i == 0 then NoLevel
      else Behind(Number(s[i..]), Walk(s[..i - 1]))
  }

  function Behind(d: nat, w: Walked): Walked {
    match w
    case Groups(ds) => Groups([d] + ds)
    case _ => w
  }

  /** The tile of the collected groups; the last one is the level. */
  function FromGroups(ds: seq<nat>): Parse {
    if ds == [] then OffTheStart
    else
      var level := ds[|ds| - 1];
      if level > 3 then Invalid
      else if |ds| - 1 != Parts(MaxId(level)) then Invalid
      else if Value(ds[..|ds| - 1]) > MaxId(level) then Invalid
      else Parsed(TileId(level, Value(ds[..|ds| - 1])))
  }

  predicate NoSeparator(s: string) {
    forall i | 0 <= i < |s| :: s[i] != '/'
  }

  /** Where the number ends: behind the digits that follow the last separator. */
  function NumberEnd(fname: string): (e: Option<nat>)
    ensures e.Some? ==> 0 < e.value <= |fname|
  {
    if fname == "" then None
    else
      var rest := NumberEnd(fname[1..]);
      if rest.Some? then Some(rest.value + 1)
      else if fname[0] == '/' then Some(1 + LeadingDigits(fname[1..]))
      else None
  }

  function LeadingDigits(s: string): (n: nat)
    ensures n <= |s| && AllDigits(s[..n]) && (n < |s| ==> !IsDigit(s[n]))
  {
    if s == "" || !IsDigit(s[0]) then 0
    else
      var n := LeadingDigits(s[1..]);
      assert s[..n + 1] == [s[0]] + s[1..][..n];
      n + 1
  }

  function ParsePath(fname: string): Parse {
    var e := NumberEnd(fname);
    if e == None || (e.value < |fname| && fname[e.value] != '.') then Invalid
    else match Walk(fname[..e.value])
      case BadGroup => Invalid
      case NoLevel => OffTheStart
      case Groups(ds) => FromGroups(ds)
  }

  lemma {:induction false} DigitRunIs(a: string, ds: string)
    requires AllDigits(ds) && (a == "" || !IsDigit(a[|a| - 1]))
    ensures DigitRun(a + ds) == |ds|
  {
    if ds == "" {
      assert a + ds == a;
    } else {
      DigitRunIs(a, ds[..|ds| - 1]);
      assert (a + ds)[..|a + ds| - 1] == a + ds[..|ds| - 1];
    }
  }

  /** The walk takes one group of three digits off the end. */
  lemma WalkStep(s: string, v: nat)
    requires v < 1000
    ensures Walk(s + "/" + Three(v)) == Behind(v, Walk(s))
  {
    hide Walk, Number, Three;
    var t := s + "/" + Three(v);
    assert t[|t| - 3..] == Three(v) && t[..|t| - 4] == s;
    GroupScannedAt(t, |t| - 3);
    NumberOfThree(v);
  }

  /** What may stand before a tile's name: nothing or a directory, or, at the very start of the path, "/00",
      which makes a group of three digits of the level. */
  predicate DirOk(dir: string) {
    dir == "" || dir[|dir| - 1] == '/' || dir == "/00"
  }

  predicate ExtOk(ext: string) {
    ext == "" || (ext[0] == '.' && NoSeparator(ext))
  }

  lemma WalkLevel(dir: string, level: nat)
    requires DirOk(dir) && level < 10
    ensures Walk(dir + [DigitChar(level)]) == Groups([level])
  {
    hide Walk, DigitRun, Number;
    var c := DigitChar(level);
    var s := dir + [c];
    if dir == "/00" {
      GroupScannedAt(s, 1);
      assert s[1..] == ['0', '0', c] && s[..0] == "";
      NumberOfThreeChars('0', '0', c);
      WalkOfEmpty(s[..0]);
    } else {
      assert s[|dir|..] == [c];
      GroupScannedAt(s, |dir|);
      NumberOfOne(c);
    }
  }

  /** One group scanned back to its separator or to the start, and what the walk makes of it. */
  lemma GroupScannedAt(s: string, i: nat)
    requires i < |s| && AllDigits(s[i..]) && (i == 0 || s[i - 1] == '/')
    ensures |s| - i != 1 && |s| - i != 3 ==> Walk(s) == BadGroup
    ensures |s| - i == 1 ==> Walk(s) == Groups([Number(s[i..])])
    ensures |s| - i == 3 ==> Walk(s) == if i == 0 then NoLevel else Behind(Number(s[i..]), Walk(s[..i - 1]))
  {
    assert s == s[..i] + s[i..];
    DigitRunIs(s[..i], s[i..]);
    hide DigitRun, Number;
  }

  lemma WalkOfEmpty(s: string)
    ensures s == "" ==> Walk(s) == Groups([])
  {
  }

  lemma {:induction false} WalkGroups(dir: string, level: nat, tileid: nat, groups: nat)
    requires DirOk(dir) && level < 10
    ensures Walk(dir + [DigitChar(level)] + InGroups(tileid, groups, '/')) == Groups(GroupsOf(tileid, groups) + [level])
  {
    hide Walk, Three, DigitChar, DirOk;
    var head := dir + [DigitChar(level)];
    if groups == 0 {
      assert head + InGroups(tileid, groups, '/') == head;
      WalkLevel(dir, level);
    } else {
      var before := head + InGroups(tileid / 1000, groups - 1, '/');
      WalkGroups(dir, level, tileid / 1000, groups - 1);
      WalkStep(before, tileid % 1000);
      assert head + InGroups(tileid, groups, '/') == before + "/" + Three(tileid % 1000);
    }
  }

  lemma BehindGroups(d: nat, w: Walked, ds: seq<nat>)
    requires Behind(d, w) == Groups(ds)
    ensures ds != [] && ds[0] == d && w == Groups(ds[1..])
  {
    assert w.Groups? && ds[1..] == w.digits;
  }

  lemma WalkAccepts(h: string) returns (i: nat)
    requires Walk(h).Groups? && h != ""
    ensures (i == |h| - 1 || i == |h| - 3) && AllDigits(h[i..]) && (i == 0 || h[i - 1] == '/')
    ensures i == |h| - 1 ==> Walk(h) == Groups([Number(h[i..])])
    ensures i == |h| - 3 ==> i > 0 && Walk(h) == Behind(Number(h[i..]), Walk(h[..i - 1]))
  {
    i := |h| - DigitRun(h);
    hide DigitRun, Number;
  }

  /** The last step of an accepting walk: one digit behind a separator, or a group of three. */
  lemma WalkBack(h: string, ds: seq<nat>) returns (before: string, atLevel: bool)
    requires Walk(h) == Groups(ds) && ds != []
    ensures atLevel ==>
      && |ds| == 1 && ds[0] < 10 && h == before + [DigitChar(ds[0])]
      && (before == "" || before[|before| - 1] == '/')
    ensures !atLevel ==>
      && ds[0] < 1000 && h == before + "/" + Three(ds[0])
      && Walk(before) == Groups(ds[1..])
  {
    var i := WalkAccepts(h);
    hide Walk, Three, DigitChar, Number;
    atLevel := i == |h| - 1;
    if atLevel {
      before := h[..i];
      assert h[i..] == [h[i]];
      NumberOfOne(h[i]);
      assert h == before + [h[i]];
    } else {
      before := h[..i - 1];
      ThreeOfNumber(h[i..]);
      BehindGroups(Number(h[i..]), Walk(before), ds);
      assert h == before + "/" + h[i..];
    }
  }

  lemma LevelInThreeDigits(h: string, level: nat)
    requires level < 10 && h == "" + "/" + Three(level)
    ensures h == "/00" + [DigitChar(level)]
  {
  }

  /** Everything the walk accepts is spelled that way. */
  lemma {:induction false} WalkSpells(h: string, ds: seq<nat>) returns (dir: string)
    requires Walk(h) == Groups(ds) && ds != [] && ds[|ds| - 1] < 10
    ensures DirOk(dir) && forall d | d in ds :: d < 1000
    ensures h == dir + [DigitChar(ds[|ds| - 1])] + InGroups(Value(ds[..|ds| - 1]), |ds| - 1, '/')
    decreases |ds|
  {
    hide Walk, DigitChar, Three, InGroups;
    var before, atLevel := WalkBack(h, ds);
    NoGroups(Value(ds[..0]));
    if atLevel {
      dir := before;
    } else if |ds| == 1 {
      WalkOfNothing(before);
      dir := "/00";
      LevelInThreeDigits(h, ds[0]);
    } else {
      var rest := ds[1..];
      dir := WalkSpells(before, rest);
      assert rest[..|rest| - 1] == ds[..|ds| - 1][1..];
      OneMoreGroup(ds[..|ds| - 1]);
      assert forall d | d in ds :: d == ds[0] || d in rest;
    }
  }

  lemma NoGroups(n: nat)
    ensures InGroups(n, 0, '/') == ""
  {
  }

  lemma OneMoreGroup(ds: seq<nat>)
    requires ds != [] && ds[0] < 1000
    ensures InGroups(Value(ds), |ds|, '/') == InGroups(Value(ds[1..]), |ds| - 1, '/') + "/" + Three(ds[0])
  {
    hide Three;
    var rest := Value(ds[1..]);
    assert Value(ds) == ds[0] + 1000 * rest;
    hide Value;
    assert (ds[0] + 1000 * rest) / 1000 == rest && (ds[0] + 1000 * rest) % 1000 == ds[0];
  }

  lemma WalkOfNothing(s: string)
    requires Walk(s) == Groups([])
    ensures s == ""
  {
  }

  lemma {:induction false} NoSeparatorNoEnd(s: string)
    ensures NumberEnd(s) == None <==> NoSeparator(s)
  {
    if s != "" {
      NoSeparatorNoEnd(s[1..]);
      assert NoSeparator(s) <==> s[0] != '/' && NoSeparator(s[1..]) by {
        assert forall i | 0 <= i < |s[1..]| :: s[1..][i] == s[i + 1];
      }
    }
  }

  lemma {:induction false} LeadingDigitsIs(ds: string, rest: string)
    requires AllDigits(ds) && (rest == "" || !IsDigit(rest[0]))
    ensures LeadingDigits(ds + rest) == |ds|
  {
    if ds == "" {
      assert ds + rest == rest;
    } else {
      assert (ds + rest)[1..] == ds[1..] + rest;
      LeadingDigitsIs(ds[1..], rest);
    }
  }

  /** The number ends behind the digits that follow the last separator. */
  lemma {:induction false} NumberEndIs(a: string, ds: string, rest: string)
    requires AllDigits(ds) && NoSeparator(rest) && (rest == "" || !IsDigit(rest[0]))
    ensures NumberEnd(a + "/" + ds + rest) == Some(|a| + 1 + |ds|)
  {
    var all := a + "/" + ds + rest;
    if a == "" {
      assert all[1..] == ds + rest;
      NoSeparatorNoEnd(ds + rest);
      LeadingDigitsIs(ds, rest);
    } else {
      NumberEndIs(a[1..], ds, rest);
      assert all[1..] == a[1..] + "/" + ds + rest;
    }
  }

  lemma {:induction false} NothingAfterEnd(fname: string)
    requires NumberEnd(fname).Some?
    ensures NoSeparator(fname[NumberEnd(fname).value..])
  {
    var e := NumberEnd(fname).value;
    if NumberEnd(fname[1..]).Some? {
      NothingAfterEnd(fname[1..]);
      assert fname[1..][e - 1..] == fname[e..];
    } else {
      NoSeparatorNoEnd(fname[1..]);
      assert forall i | 0 <= i < |fname[e..]| :: fname[e..][i] == fname[1..][e - 1 + i];
    }
  }

  /** A tile's own path, as FileSuffix prints it without an extension. */
  function Name(id: TileId): string
    requires InRange(id)
  {
    Printed(id, MaxId(id.level), '/', "")
  }

  function Numeral(n: nat): char
    requires n < 10
  {
    "0123456789"[n]
  }

  /** Hundreds, tens and ones. */
  function Spelled(n: nat): string
    requires n < 1000
  {
    [Numeral(n / 100), Numeral(n / 10 % 10), Numeral(n % 10)]
  }

  /** The name spelled out: the level, and two groups of three digits on the levels 0 and 1 or three on the others. */
  lemma NameSpelledOut(id: TileId)
    requires InRange(id)
    ensures var (n, millions) := (id.tileid, id.tileid / 1000000);
            Name(id) == [Numeral(id.level), '/'] + (if id.level >= 2 then Spelled(millions) + "/" else "")
                        + Spelled(n / 1000 % 1000) + "/" + Spelled(n % 1000)
  {
    var n := id.tileid;
    PartsOfLevels(id.level);
    ThreeNumerals(n % 1000);
    ThreeNumerals(n / 1000 % 1000);
    DigitIsNumeral(id.level);
    assert n / 1000 / 1000 == n / 1000000;
    hide Three, Spelled, Numeral;
    assert InGroups(n, 2, '/') == InGroups(n / 1000, 1, '/') + ['/'] + Three(n % 1000);
    assert InGroups(n / 1000, 1, '/') == InGroups(n / 1000000, 0, '/') + ['/'] + Three(n / 1000 % 1000);
    if id.level >= 2 {
      assert n / 1000000 % 1000 == n / 1000000;
      ThreeNumerals(n / 1000000);
      assert InGroups(n, 3, '/') == InGroups(n / 1000, 2, '/') + ['/'] + Three(n % 1000);
      assert InGroups(n / 1000, 2, '/') == InGroups(n / 1000000, 1, '/') + ['/'] + Three(n / 1000 % 1000);
      assert InGroups(n / 1000000, 1, '/') == "" + ['/'] + Three(n / 1000000);
    }
  }

  lemma DigitIsNumeral(d: nat)
    requires d < 10
    ensures DigitChar(d) == Numeral(d)
  {
  }

  lemma ThreeNumerals(n: nat)
    requires n < 1000
    ensures Three(n) == Spelled(n)
  {
    DigitIsNumeral(n / 100);
    DigitIsNumeral(n / 10 % 10);
    DigitIsNumeral(n % 10);
  }

  lemma PartsOfLevels(level: nat)
    requires level < 4
    ensures Parts(MaxId(level)) == if level < 2 then 2 else 3
  {
    assert DigitsIn(4049) == 4 && DigitsIn(64799) == 5;
    assert DigitsIn(1036799) == 1 + DigitsIn(103679) == 2 + DigitsIn(10367) == 3 + DigitsIn(1036) == 7;
  }

  lemma NameEnds(id: TileId) returns (front: string)
    requires InRange(id)
    ensures Name(id) == front + "/" + Three(id.tileid % 1000)
  {
    front := [DigitChar(id.level)] + InGroups(id.tileid / 1000, Parts(MaxId(id.level)) - 1, '/');
  }

  /** The path is the tile's name in some directory and with some extension. */
  ghost predicate Spells(fname: string, id: TileId) {
    InRange(id) && exists dir, ext :: SpelledAs(fname, dir, id, ext)
  }

  predicate SpelledAs(fname: string, dir: string, id: TileId, ext: string)
    requires InRange(id)
  {
    DirOk(dir) && ExtOk(ext) && fname == dir + Name(id) + ext
  }

  /** Parsing what was printed gives the tile back: any tile of any level, any directory, any extension. */
  lemma RoundTrip(dir: string, id: TileId, ext: string)
    requires InRange(id) && DirOk(dir) && ExtOk(ext)
    ensures ParsePath(dir + Name(id) + ext) == Parsed(id)
  {
    hide Walk, NumberEnd, InGroups, Three, DigitChar, GroupsOf, DirOk;
    var fname := dir + Name(id) + ext;
    var groups := Parts(MaxId(id.level));
    var front := NameEnds(id);
    NumberEndIs(dir + front, Three(id.tileid % 1000), ext);
    assert fname == dir + front + "/" + Three(id.tileid % 1000) + ext;
    assert fname[..|dir + Name(id)|] == dir + Name(id)
                                     == dir + [DigitChar(id.level)] + InGroups(id.tileid, groups, '/');
    WalkGroups(dir, id.level, id.tileid, groups);
    var ds := GroupsOf(id.tileid, groups) + [id.level];
    assert ds[..|ds| - 1] == GroupsOf(id.tileid, groups);
    PartsSuffice(id.tileid, MaxId(id.level));
    ValueOfGroups(id.tileid, groups);
  }

  /** A path is accepted exactly if it is a tile's name in a directory with an extension, and as that tile. */
  lemma AcceptsExactlyNames(fname: string, id: TileId)
    ensures ParsePath(fname) == Parsed(id) <==> Spells(fname, id)
  {
    if Spells(fname, id) {
      var dir, ext :| SpelledAs(fname, dir, id, ext);
      RoundTrip(dir, id, ext);
    }
    if ParsePath(fname) == Parsed(id) {
      AcceptedIsName(fname, id);
    }
  }

  lemma AcceptedIsName(fname: string, id: TileId)
    requires ParsePath(fname) == Parsed(id)
    ensures Spells(fname, id)
  {
    hide Walk, NumberEnd, InGroups, DigitChar, DirOk, Parts;
    var e := NumberEnd(fname).value;
    var ds := Walk(fname[..e]).digits;
    NothingAfterEnd(fname);
    var dir := WalkSpells(fname[..e], ds);
    assert SpelledAs(fname, dir, id, fname[e..]);
  }

  /** Distinct tiles have distinct paths, in whatever directory and with whatever extension. */
  lemma DistinctPaths(a: TileId, b: TileId, dirA: string, dirB: string, extA: string, extB: string)
    requires InRange(a) && InRange(b) && a != b
    requires DirOk(dirA) && DirOk(dirB) && ExtOk(extA) && ExtOk(extB)
    ensures dirA + Name(a) + extA != dirB + Name(b) + extB
  {
    RoundTrip(dirA, a, extA);
    RoundTrip(dirB, b, extB);
  }

  lemma EmptyDirIsOk()
    ensures DirOk("") && ExtOk(".gph")
  {
  }

  /** Every accepted path's tile prints to a name that parses to the same tile. */
  lemma AcceptedReprints(fname: string, id: TileId)
    requires ParsePath(fname) == Parsed(id)
    ensures InRange(id) && ParsePath(Name(id) + ".gph") == Parsed(id)
  {
    hide ParsePath, Name, DirOk;
    AcceptedIsName(fname, id);
    EmptyDirIsOk();
    RoundTrip("", id, ".gph");
    assert "" + Name(id) + ".gph" == Name(id) + ".gph";
  }

  /** Groups of three digits and nothing else, up to the very start. */
  predicate OnlyTriples(h: string) {
    |h| % 4 == 3 && forall i | 0 <= i < |h| :: if i % 4 == 3 then h[i] == '/' else IsDigit(h[i])
  }

  /** The last group is of three digits, behind a separator if it is not the only one. */
  predicate EndsInTriple(h: string) {
    |h| >= 3 && AllDigits(h[|h| - 3..]) && (|h| > 3 ==> h[|h| - 4] == '/')
  }

  lemma LastGroupOfNoLevel(h: string)
    requires Walk(h) == NoLevel
    ensures DigitRun(h) == 3 <= |h| && (|h| > 3 ==> h[|h| - 4] == '/')
  {
    hide DigitRun, Number, IsDigit;
  }

  lemma DigitsAtEnd(h: string)
    ensures AllDigits(h[|h| - DigitRun(h)..])
  {
    hide DigitRun, IsDigit;
  }

  lemma NoLevelEndsInTriple(h: string)
    requires Walk(h) == NoLevel
    ensures EndsInTriple(h)
  {
    hide Walk, DigitRun, AllDigits;
    LastGroupOfNoLevel(h);
    DigitsAtEnd(h);
  }

  lemma OnlyTriplesEndsInTriple(h: string)
    requires OnlyTriples(h)
    ensures EndsInTriple(h)
  {
  }

  lemma OneTriple(h: string)
    requires |h| == 3 && AllDigits(h)
    ensures Walk(h) == NoLevel && OnlyTriples(h)
  {
    assert h[0..] == h;
    GroupScannedAt(h, 0);
  }

  /** The walk runs off the start of a path exactly if there is nothing but groups of three digits. */
  lemma {:induction false} NoLevelIffOnlyTriples(h: string)
    ensures Walk(h) == NoLevel <==> OnlyTriples(h)
  {
    hide Walk, OnlyTriples, Number, Three;
    if Walk(h) == NoLevel { NoLevelEndsInTriple(h); }
    if OnlyTriples(h) { OnlyTriplesEndsInTriple(h); }
    if EndsInTriple(h) {
      var last := h[|h| - 3..];
      if |h| == 3 {
        assert last == h;
        OneTriple(h);
      } else {
        var before := h[..|h| - 4];
        NoLevelIffOnlyTriples(before);
        ThreeOfNumber(last);
        assert h == before + "/" + last;
        WalkStep(before, Number(last));
        TriplesStep(h);
      }
    }
  }

  lemma TriplesStep(h: string)
    requires |h| >= 4 && h[|h| - 4] == '/' && AllDigits(h[|h| - 3..])
    ensures OnlyTriples(h) <==> OnlyTriples(h[..|h| - 4])
  {
    assert forall i | |h| - 3 <= i < |h| :: h[i] == h[|h| - 3..][i - (|h| - 3)];
  }

  /** The read before the first character happens exactly for paths of nothing but such groups. */
  lemma OffTheStartIffOnlyTriples(fname: string)
    ensures ParsePath(fname) == OffTheStart <==>
            exists e :: 4 <= e <= |fname| && OnlyTriples(fname[..e]) && ExtOk(fname[e..])
  {
    hide Walk, NumberEnd, Parts, OnlyTriples, NoSeparator, Value;
    if ParsePath(fname) == OffTheStart {
      var e := NumberEnd(fname).value;
      WalksOf(fname[..e]);
      NoLevelIffOnlyTriples(fname[..e]);
      NothingAfterEnd(fname);
      EndIsBehindSeparator(fname);
      TriplesAreLong(fname[..e]);
      assert 4 <= e <= |fname| && OnlyTriples(fname[..e]) && ExtOk(fname[e..]);
    }
    if e :| 4 <= e <= |fname| && OnlyTriples(fname[..e]) && ExtOk(fname[e..]) {
      var h := fname[..e];
      OnlyTriplesEndsInTriple(h);
      assert h == h[..e - 4] + "/" + h[e - 3..];
      NumberEndIs(h[..e - 4], h[e - 3..], fname[e..]);
      assert fname == h[..e - 4] + "/" + h[e - 3..] + fname[e..];
      NoLevelIffOnlyTriples(h);
    }
  }

  lemma TriplesAreLong(h: string)
    requires OnlyTriples(h) && exists i :: 0 <= i < |h| && h[i] == '/'
    ensures |h| >= 4
  {
  }

  lemma WalksOf(h: string)
    requires h != ""
    ensures Walk(h) != Groups([])
  {
  }

  lemma {:induction false} EndIsBehindSeparator(fname: string)
    requires NumberEnd(fname).Some?
    ensures exists i :: 0 <= i < NumberEnd(fname).value && fname[i] == '/'
  {
    if NumberEnd(fname[1..]).Some? {
      EndIsBehindSeparator(fname[1..]);
      var i :| 0 <= i < NumberEnd(fname[1..]).value && fname[1..][i] == '/';
      assert fname[i + 1] == '/';
    }
  }

  method FindLastSeparator(s: string) returns (pos: Option<nat>)
    ensures pos == None <==> NoSeparator(s)
    ensures pos.Some? ==> pos.value < |s| && s[pos.value] == '/' && NoSeparator(s[pos.value + 1..])
  {
    var i := |s|;
    while i > 0
      invariant 0 <= i <= |s| && NoSeparator(s[i..])
    {
      i := i - 1;
      if s[i] == '/' {
        return Some(i);
      }
    }
    pos := None;
  }

  /** The scan for the end of the number starts on the separator and takes only digits after it. */
  method FindNumberEnd(fname: string, slash: nat) returns (pos: nat)
    requires slash < |fname| && fname[slash] == '/' && NoSeparator(fname[slash + 1..])
    ensures NumberEnd(fname) == Some(pos)
  {
    pos := slash;
    while pos < |fname| && (fname[pos] == '/' || IsDigit(fname[pos]))
      invariant slash <= pos <= |fname|
      invariant forall i | slash < i < pos :: IsDigit(fname[i])
    {
      assert pos > slash ==> fname[slash + 1..][pos - slash - 1] == fname[pos];
      pos := pos + 1;
    }
    NumberEndIs(fname[..slash], fname[slash + 1..pos], fname[pos..]);
    assert fname == fname[..slash] + "/" + fname[slash + 1..pos] + fname[pos..];
    assert forall i | 0 <= i < |fname[pos..]| :: fname[pos..][i] == fname[slash + 1..][pos - slash - 1 + i];
  }

  function Prepended(ds: seq<nat>, w: Walked): Walked {
    if w.Groups? then Groups(ds + w.digits) else w
  }

  lemma PrependedBehind(ds: seq<nat>, d: nat, w: Walked)
    ensures Prepended(ds, Behind(d, w)) == Prepended(ds + [d], w)
  {
    if w.Groups? {
      assert ds + ([d] + w.digits) == ds + [d] + w.digits;
    }
  }

  lemma BadRun(s: string)
    requires DigitRun(s) < |s| && (DigitRun(s) > 0 ==> s[|s| - DigitRun(s) - 1] != '/')
    ensures Walk(s) == BadGroup
  {
    hide DigitRun;
  }

  /** A character that is no digit in the middle of a group. */
  lemma BadCharacter(s: string, i: nat)
    requires i < |s| && AllDigits(s[i + 1..]) && !IsDigit(s[i])
    requires i + 1 < |s| ==> s[i] != '/'
    ensures Walk(s) == BadGroup
  {
    hide Walk, DigitRun;
    assert s == s[..i + 1] + s[i + 1..];
    DigitRunIs(s[..i + 1], s[i + 1..]);
    BadRun(s);
  }

  /** The backward walk with size_t positions; after a separator at the start both positions stop it, after
      three digits there both have wrapped around. */
  method WalkBackward(fname: string, end: nat) returns (w: Walked)
    requires 0 < end <= |fname| < SIZE_T - 2
    ensures w == Walk(fname[..end])
  {
    hide Walk, Number, DigitRun;
    var digits: seq<nat> := [];
    var last: nat, pos: nat := end, end;
    assert Prepended([], Walk(fname[..end])) == Walk(fname[..end]);
    while true
      invariant pos <= last <= end || (pos == last == SIZE_T - 1 && Walk(fname[..end]) == NoLevel)
      invariant last <= end ==>
        && AllDigits(fname[pos..last]) && (pos < last ==> pos > 0 && fname[pos - 1] != '/')
        && Walk(fname[..end]) == Prepended(digits, Walk(fname[..last]))
      decreases if pos <= end then pos + 1 else 0
    {
      pos := Wrap(pos - 1);
      if !(pos < last) {
        WalkOfEmpty(fname[..last]);
        return Groups(digits);
      }
      if pos >= |fname| {
        return NoLevel;
      }
      ghost var s := fname[..last];
      var c := fname[pos];
      assert s[pos + 1..] == fname[pos + 1..last];
      if !IsDigit(c) {
        BadCharacter(s, pos);
        return BadGroup;
      }
      assert fname[pos..last] == [c] + fname[pos + 1..last] && s[pos..] == fname[pos..last];
      if pos == 0 || fname[pos - 1] == '/' {
        GroupScannedAt(s, pos);
        var dist := last - pos;
        if dist != 3 && dist != 1 {
          return BadGroup;
        }
        var group := Number(fname[pos..last]);
        PrependedBehind(digits, group, Walk(if pos > 0 then s[..pos - 1] else ""));
        digits := digits + [group];
        if dist == 1 {
          return Groups(digits);
        }
        if pos > 0 {
          assert s[..pos - 1] == fname[..pos - 1];
        }
        pos := Wrap(pos - 1);
        last := pos;
      }
    }
  }

  /** GraphId::FromTilePath. */
  method FromTilePath(fname: string) returns (r: Parse)
    requires |fname| < SIZE_T - 2
    ensures r == ParsePath(fname)
  {
    hide Walk;
    var slash := FindLastSeparator(fname);
    NoSeparatorNoEnd(fname);
    if slash == None {
      return Invalid;
    }
    var pos := FindNumberEnd(fname, slash.value);
    if pos != |fname| && fname[pos] != '.' {
      return Invalid;
    }
    var w := WalkBackward(fname, pos);
    match w
    case BadGroup => r := Invalid;
    case NoLevel => r := OffTheStart;
    case Groups(digits) => r := FromDigits(digits);
  }

  /** The id of the collected groups: the level on top, then a sum of growing multiples. */
  method FromDigits(digits: seq<nat>) returns (r: Parse)
    ensures r == FromGroups(digits)
  {
    if digits == [] {
      return OffTheStart;
    }
    var level := digits[|digits| - 1];
    if level >= 3 && level != 3 {
      return Invalid;
    }
    var rest := digits[..|digits| - 1];
    var maxId := MaxId(level);
    if |rest| != Parts(maxId) {
      return Invalid;
    }
    var multiplier, id := 1, 0;
    for i := 0 to |rest|
      invariant multiplier == Pow1000(i)
      invariant id + multiplier * Value(rest[i..]) == Value(rest)
    {
      ValueStep(rest, i, multiplier);
      id := id + rest[i] * multiplier;
      multiplier := multiplier * 1000;
    }
    assert rest[|rest|..] == [];
    if id > maxId {
      return Invalid;
    }
    r := Parsed(TileId(level, id));
  }

  lemma ValueStep(ds: seq<nat>, i: nat, m: nat)
    requires i < |ds|
    ensures m * Value(ds[i..]) == ds[i] * m + m * 1000 * Value(ds[i + 1..])
  {
    assert ds[i..][1..] == ds[i + 1..];
    assert Value(ds[i..]) == ds[i] + 1000 * Value(ds[i + 1..]);
  }

  // ---------------------------------------------------------------------------------------------
  // The listing script

  /** "{:,}" for a number: commas between groups of three digits. */
  function WithCommas(n: nat): string {
    if n < 10 then [DigitChar(n)]
    else if n < 100 then [DigitChar(n / 10), DigitChar(n % 10)]
    else if n < 1000 then Three(n)
    else WithCommas(n / 1000) + "," + Three(n % 1000)
  }

  /** Up to three digits, the first of them no zero but for zero itself. */
  lemma NoCommas(n: nat)
    requires n < 1000
    ensures AllDigits(WithCommas(n)) && Number(WithCommas(n)) == n
    ensures |WithCommas(n)| == if n < 10 then 1 else if n < 100 then 2 else 3
  {
    if n < 10 {
      NumberOfOne(DigitChar(n));
    } else if n < 100 {
      var a, b := DigitChar(n / 10), DigitChar(n % 10);
      assert [a, b][..1] == [a];
      NumberOfOne(a);
      assert Number([a, b]) == n / 10 * 10 + n % 10;
    } else {
      NumberOfThree(n);
    }
  }

  function Replaced(s: string, a: char, b: char): (r: string)
    ensures |r| == |s| && forall i | 0 <= i < |s| :: r[i] == if s[i] == a then b else s[i]
  {
    seq(|s|, i requires 0 <= i < |s| => if s[i] == a then b else s[i])
  }

  /** int(number / 10) truncates toward zero. */
  function Tenth(n: int): int {
    if n >= 0 then n / 10 else -(-n / 10)
  }

  function Magnitude(n: int): nat {
    if n < 0 then -n else n
  }

  lemma OneDigitLess(n: int)
    requires n != 0
    ensures Magnitude(Tenth(n)) < Magnitude(n)
    ensures DigitsIn(Magnitude(n)) == 1 + DigitsIn(Magnitude(Tenth(n)))
  {
    assert Magnitude(Tenth(n)) == Magnitude(n) / 10;
  }

  method Digits(number: int) returns (digits: nat)
    ensures digits == DigitsIn(Magnitude(number)) + if number < 0 then 1 else 0
  {
    hide DigitsIn, Tenth;
    digits := if number < 0 then 1 else 0;
    var n := number;
    while n != 0
      invariant digits + DigitsIn(Magnitude(n)) == DigitsIn(Magnitude(number)) + if number < 0 then 1 else 0
      decreases Magnitude(n)
    {
      OneDigitLess(n);
      n := Tenth(n);
      digits := digits + 1;
    }
    NoDigits();
  }

  lemma NoDigits()
    ensures DigitsIn(0) == 0
  {
  }

  lemma {:induction false} WithCommasIsInGroups(level: nat, tileid: nat, groups: nat)
    requires 0 < level < 10 && tileid < Pow1000(groups)
    ensures WithCommas(level * Pow1000(groups) + tileid) == [DigitChar(level)] + InGroups(tileid, groups, ',')
  {
    hide Three, DigitChar;
    if groups > 0 {
      var rest := level * Pow1000(groups - 1);
      ThousandTimes(level, Pow1000(groups - 1));
      var n := 1000 * rest + tileid;
      DividedByThousand(n, rest + tileid / 1000, tileid % 1000);
      WithCommasIsInGroups(level, tileid / 1000, groups - 1);
    }
  }

  lemma ThousandTimes(level: nat, p: nat)
    ensures level * (1000 * p) == 1000 * (level * p)
    ensures level > 0 && p > 0 ==> level * p >= 1
  {
  }

  lemma {:induction false} ReplacedInGroups(tileid: nat, groups: nat)
    ensures Replaced(InGroups(tileid, groups, ','), ',', '/') == InGroups(tileid, groups, '/')
  {
    if groups > 0 {
      ReplacedInGroups(tileid / 1000, groups - 1);
    }
  }

  /** Tiles.GetFile: the level is put before the digits by adding it to the number, or, for level 0, by
      writing it over a one. */
  method GetFile(tileid: nat, level: nat, maxTileId: nat, suffix: string) returns (file: string)
    requires level < 10 && 0 < maxTileId && tileid <= maxTileId
    ensures file == Printed(TileId(level, tileid), maxTileId, '/', "." + suffix)
  {
    hide WithCommas, InGroups, Pow10, Pow1000, DigitsIn, DigitChar, Replaced;
    var maxLength := Digits(maxTileId);
    var remainder := maxLength % 3;
    if remainder != 0 {
      maxLength := maxLength + (3 - remainder);
    }
    ghost var groups := Parts(maxTileId);
    PowersAgree(groups);
    PartsSuffice(tileid, maxTileId);
    ReplacedInGroups(tileid, groups);
    var top := if level == 0 then 1 else level;
    WithCommasIsInGroups(top, tileid, groups);
    var number := WithCommas(top * Pow10(maxLength) + tileid);
    file := Replaced(number, ',', '/');
    ReplacedBehindDigit(top, InGroups(tileid, groups, ','));
    file := file + "." + suffix;
    if level == 0 {
      file := "0" + file[1..];
      ZeroDigit();
    }
  }

  lemma ReplacedBehindDigit(d: nat, s: string)
    requires d < 10
    ensures Replaced([DigitChar(d)] + s, ',', '/') == [DigitChar(d)] + Replaced(s, ',', '/')
  {
  }

  lemma ZeroDigit()
    ensures DigitChar(0) == '0'
  {
  }

  /** Printed by FileSuffix or by the script, and then parsed: the two texts are equal and the tile comes back. */
  method PrintBothWaysAndParse(id: TileId, suffix: string)
    returns (file: Result<string, PathError>, script: string, r: Parse)
    requires id.level < 3 && InRange(id) && NoSeparator(suffix) && |suffix| < 1000
    ensures file == Ok(script) && r == Parsed(id)
  {
    hide InGroups, Parts;
    file := FileSuffix(id, "." + suffix, '/', None);
    script := GetFile(id.tileid, id.level, MaxId(id.level), suffix);
    RoundTrip("", id, "." + suffix);
    assert script == "" + Name(id) + ("." + suffix);
    ShortName(id);
    r := FromTilePath(script);
  }

  lemma ShortName(id: TileId)
    requires InRange(id)
    ensures |Name(id)| <= 0x1_0000_0000
  {
    FewDigits(MaxId(id.level));
  }
}