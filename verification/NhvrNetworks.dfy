/** The heavy vehicle networks of a way: collected from the regulator's packages with the most restrictive
    status, printed as a tag, and parsed again when a truck is routed. */
module NhvrNetworks {
  import opened DecimalDigits
  import opened Wrappers

  // ---------------------------------------------------------------------------------------------
  // The importer

  const APPROVED: nat := 0
  const CONDITIONAL: nat := 1
  const RESTRICTED: nat := 2

  /** A road segment of a package; each field may be null. */
  datatype Feature = Feature(wayId: Option<int>, networkName: Option<string>, accessCode: Option<string>)

  type WayNetworks = map<string, nat>

  function AccessStatus(code: Option<string>): Option<nat> {
    if code == Some("Approved") then Some(APPROVED)
    else if code == Some("Approved with Conditions") then Some(CONDITIONAL)
    else if code == Some("Restricted") then Some(RESTRICTED)
    else None
  }

  /** The feature counts: a way id that is neither null nor zero, a name, and a known status. */
  predicate Counts(f: Feature) {
    && f.wayId.Some? && f.wayId.value != 0
    && f.networkName.Some? && f.networkName.value != ""
    && AccessStatus(f.accessCode).Some?
  }

  /** The feature says that the way is in the network with the status. */
  predicate Says(f: Feature, way: int, name: string, status: nat) {
    Counts(f) && f.wayId.value == way && f.networkName.value == name && AccessStatus(f.accessCode).value == status
  }

  ghost predicate Said(fs: seq<Feature>, way: int, name: string, status: nat) {
    exists f :: f in fs && Says(f, way, name, status)
  }

  function Of(networks: map<int, WayNetworks>, way: int, name: string): Option<nat> {
    if way in networks && name in networks[way] then Some(networks[way][name]) else None
  }

  /** What is collected is exactly what was said, each network with the most restrictive status. */
  ghost predicate Collects(networks: map<int, WayNetworks>, fs: seq<Feature>) {
    && (forall way | way in networks :: exists name, status: nat :: Said(fs, way, name, status))
    && (forall way, name, status: nat | Said(fs, way, name, status) ::
          Of(networks, way, name).Some? && status <= Of(networks, way, name).value)
    && (forall way, name | Of(networks, way, name).Some? :: Said(fs, way, name, Of(networks, way, name).value))
  }

  /** One feature with a way, a name and a status, as the inner loop handles it. */
  function Recorded(networks: map<int, WayNetworks>, way: int, name: string, status: nat): map<int, WayNetworks> {
    var wayNetworks := if way in networks then networks[way] else map[];
    if name in wayNetworks && wayNetworks[name] >= status then networks
    else networks[way := wayNetworks[name := status]]
  }

  lemma SaidWithLast(fs: seq<Feature>, f: Feature, way: int, name: string, status: nat)
    ensures Said(fs + [f], way, name, status) <==> Said(fs, way, name, status) || Says(f, way, name, status)
  {
    assert forall g :: g in fs + [f] <==> g in fs || g == f;
  }

  lemma RecordedOf(networks: map<int, WayNetworks>, way: int, name: string, status: nat, w: int, n: string)
    ensures var recorded := Recorded(networks, way, name, status);
            && recorded.Keys == networks.Keys + {way}
            && Of(recorded, w, n) ==
               if w != way || n != name then Of(networks, w, n)
               else if Of(networks, w, n).Some? && Of(networks, w, n).value > status then Of(networks, w, n)
               else Some(status)
  {
  }

  lemma RecordingCollects(networks: map<int, WayNetworks>, fs: seq<Feature>, f: Feature)
    requires Collects(networks, fs)
    ensures !Counts(f) ==> Collects(networks, fs + [f])
    ensures Counts(f) ==>
      Collects(Recorded(networks, f.wayId.value, f.networkName.value, AccessStatus(f.accessCode).value), fs + [f])
  {
    forall way, name, status: nat
      ensures Said(fs + [f], way, name, status) <==> Said(fs, way, name, status) || Says(f, way, name, status)
    {
      SaidWithLast(fs, f, way, name, status);
    }
    hide Said;
    if Counts(f) {
      var way, name, status := f.wayId.value, f.networkName.value, AccessStatus(f.accessCode).value;
      assert forall w, n, s: nat :: Says(f, w, n, s) <==> w == way && n == name && s == status;
      hide Says, Counts, AccessStatus;
      var recorded := Recorded(networks, way, name, status);
      forall w, n
        ensures Of(recorded, w, n) ==
               if w != way || n != name then Of(networks, w, n)
               else if Of(networks, w, n).Some? && Of(networks, w, n).value > status then Of(networks, w, n)
               else Some(status)
      {
        RecordedOf(networks, way, name, status, w, n);
      }
      RecordedOf(networks, way, name, status, way, name);
      hide Of, Recorded;
      assert Said(fs + [f], way, name, status);
    }
  }

  /** A package's segments; nothing if it cannot be opened or has no layer of segments. */
  function AllFeatures(packages: seq<Option<seq<Feature>>>): seq<Feature> {
    if packages == [] then []
    else
      var last := packages[|packages| - 1];
      AllFeatures(packages[..|packages| - 1]) + (if last.Some? then last.value else [])
  }

  /** read_gpkgs. */
  method ReadGpkgs(packages: seq<Option<seq<Feature>>>) returns (networks: map<int, WayNetworks>)
    ensures Collects(networks, AllFeatures(packages))
  {
    hide Collects;
    networks := map[];
    NothingCollected();
    for p := 0 to |packages|
      invariant Collects(networks, AllFeatures(packages[..p]))
    {
      assert packages[..p + 1][..p] == packages[..p];
      if packages[p] == None {
        assert AllFeatures(packages[..p + 1]) == AllFeatures(packages[..p]);
        continue;
      }
      var layer := packages[p].value;
      ghost var before := AllFeatures(packages[..p]);
      assert before + layer[..0] == before;
      for i := 0 to |layer|
        invariant Collects(networks, before + layer[..i])
      {
        var feat := layer[i];
        RecordingCollects(networks, before + layer[..i], feat);
        assert before + layer[..i] + [feat] == before + layer[..i + 1];
        networks := Take(networks, feat);
      }
      assert layer[..|layer|] == layer;
    }
    assert packages[..|packages|] == packages;
  }

  lemma NothingCollected()
    ensures Collects(map[], AllFeatures([]))
  {
  }

  /** The body of the loop over segments. */
  method Take(networks: map<int, WayNetworks>, feat: Feature) returns (r: map<int, WayNetworks>)
    ensures r == if !Counts(feat) then networks
                 else Recorded(networks, feat.wayId.value, feat.networkName.value, AccessStatus(feat.accessCode).value)
  {
    r := networks;
    var status := AccessStatus(feat.accessCode);
    if feat.wayId == None || feat.wayId.value == 0 || feat.networkName == None || feat.networkName.value == "" ||
       status == None {
      return;
    }
    var way, name := feat.wayId.value, feat.networkName.value;
    if way !in r {
      r := r[way := map[]];
    }
    var prevStatus := if name in r[way] then Some(r[way][name]) else None;
    if prevStatus.Some? && prevStatus.value != status.value {
      if prevStatus.value < status.value {
        r := r[way := r[way][name := status.value]];
      }
    } else {
      assert prevStatus.Some? ==> r[way][name := status.value] == r[way] == networks[way];
      r := r[way := r[way][name := status.value]];
      assert prevStatus.Some? ==> r == networks;
    }
  }

  ghost predicate SameFeatures(fs: seq<Feature>, gs: seq<Feature>) {
    forall f :: f in fs <==> f in gs
  }

  /** The result does not depend on the order of packages and segments, nor on repetitions. */
  lemma CollectedIsUnique(a: map<int, WayNetworks>, b: map<int, WayNetworks>, fs: seq<Feature>, gs: seq<Feature>)
    requires Collects(a, fs) && Collects(b, gs) && SameFeatures(fs, gs)
    ensures a == b
  {
    forall way, name, status: nat
      ensures Said(fs, way, name, status) <==> Said(gs, way, name, status)
    {
    }
    hide Said;
    forall way, name
      ensures Of(a, way, name) == Of(b, way, name)
    {
      if Of(a, way, name).Some? { assert Said(fs, way, name, Of(a, way, name).value); }
      if Of(b, way, name).Some? { assert Said(gs, way, name, Of(b, way, name).value); }
    }
    forall way
      ensures way in a <==> way in b
    {
      if way in a {
        var name, status: nat :| Said(fs, way, name, status);
        assert Of(b, way, name).Some?;
      }
      if way in b {
        var name, status: nat :| Said(gs, way, name, status);
        assert Of(a, way, name).Some?;
      }
    }
    forall way | way in a
      ensures a[way] == b[way]
    {
      forall name
        ensures name in a[way] <==> name in b[way]
        ensures name in a[way] && name in b[way] ==> a[way][name] == b[way][name]
      {
        assert Of(a, way, name) == Of(b, way, name);
      }
    }
  }

  // ---------------------------------------------------------------------------------------------
  // The tag

  /** Python compares strings by their characters' code points. */
  predicate StrLess(a: string, b: string) {
    b != "" && (a == "" || a[0] < b[0] || (a[0] == b[0] && StrLess(a[1..], b[1..])))
  }

  lemma {:induction false} StrLessTotal(a: string, b: string)
    ensures a == b || StrLess(a, b) || StrLess(b, a)
    ensures !(StrLess(a, b) && StrLess(b, a)) && !StrLess(a, a)
  {
    if a != "" {
      StrLessTotal(a[1..], a[1..]);
      if b != "" {
        StrLessTotal(a[1..], b[1..]);
        assert a == [a[0]] + a[1..] && b == [b[0]] + b[1..];
      }
    }
  }

  lemma {:induction false} StrLessTransitive(a: string, b: string, c: string)
    requires StrLess(a, b) && StrLess(b, c)
    ensures StrLess(a, c)
  {
    if a != "" && a[0] == b[0] && b[0] == c[0] {
      StrLessTransitive(a[1..], b[1..], c[1..]);
    }
  }

  type Item = (string, nat)

  predicate Ascending(items: seq<Item>) {
    forall i, j | 0 <= i < j < |items| :: StrLess(items[i].0, items[j].0)
  }

  /** The sequence lists the map's pairs, each once, by name. */
  ghost predicate Lists(items: seq<Item>, m: WayNetworks) {
    && Ascending(items)
    && (forall i | 0 <= i < |items| :: items[i].0 in m && m[items[i].0] == items[i].1)
    && (forall name | name in m :: (name, m[name]) in items)
  }

  predicate IsLeast(name: string, names: set<string>) {
    name in names && forall other | other in names :: other == name || StrLess(name, other)
  }

  lemma {:induction false} LeastExists(names: set<string>) returns (least: string)
    requires names != {}
    ensures IsLeast(least, names) && forall other | IsLeast(other, names) :: other == least
    decreases |names|
  {
    var some :| some in names;
    least := some;
    if names != {some} {
      var rest := LeastExists(names - {some});
      StrLessTotal(some, rest);
      if StrLess(rest, some) { least := rest; }
      forall other | other in names && other != least
        ensures StrLess(least, other)
      {
        if other != some && other != rest && least == some { StrLessTransitive(some, rest, other); }
      }
    }
    forall other | IsLeast(other, names) ensures other == least { StrLessTotal(other, least); }
  }

  lemma OneLeast(names: set<string>)
    requires names != {}
    ensures exists least :: IsLeast(least, names)
    ensures forall a, b | IsLeast(a, names) && IsLeast(b, names) :: a == b
  {
    var least := LeastExists(names);
  }

  /** sorted(networks.items()); the names are distinct, so the statuses do not matter. */
  function SortedItems(m: WayNetworks): (items: seq<Item>)
    ensures Lists(items, m)
    decreases |m.Keys|
  {
    if m == map[] then []
    else
      OneLeast(m.Keys);
      var name :| IsLeast(name, m.Keys);
      var rest := SortedItems(m - {name});
      LeastInFront(m, name, rest);
      [(name, m[name])] + rest
  }

  lemma LeastInFront(m: WayNetworks, name: string, rest: seq<Item>)
    requires IsLeast(name, m.Keys) && Lists(rest, m - {name})
    ensures Lists([(name, m[name])] + rest, m)
  {
    hide StrLess;
    var items := [(name, m[name])] + rest;
    forall n | n in m
      ensures (n, m[n]) in items
    {
      if n != name {
        assert n in m - {name} && (m - {name})[n] == m[n];
        var k :| 0 <= k < |rest| && rest[k] == (n, m[n]);
        assert items[k + 1] == (n, m[n]);
      }
    }
    forall i, j | 0 <= i < j < |items|
      ensures StrLess(items[i].0, items[j].0)
    {
      assert items[j] == rest[j - 1];
      if i == 0 { assert items[j].0 in m - {name}; }
    }
  }

  function StatusChar(status: nat): char
    requires status < 3
  {
    if status == 0 then '0' else if status == 1 then '1' else '2'
  }

  predicate KnownStatuses(items: seq<Item>) {
    forall i | 0 <= i < |items| :: items[i].1 < 3
  }

  /** "name:status" joined by "|". */
  function Joined(items: seq<Item>): string
    requires KnownStatuses(items)
  {
    if items == [] then ""
    else
      var first := items[0].0 + [':', StatusChar(items[0].1)];
      if |items| == 1 then first else first + "|" + Joined(items[1..])
  }

  /** format_tag. */
  function FormatTag(networks: WayNetworks): string
    requires forall name | name in networks :: networks[name] < 3
  {
    Joined(SortedItems(networks))
  }

  // ---------------------------------------------------------------------------------------------
  // The parser

  datatype ParseError = InvalidArgument | OutOfRange

  function IndexOfChar(s: string, c: char): (i: nat)
    ensures i <= |s| && (i < |s| ==> s[i] == c) && forall k | 0 <= k < i :: s[k] != c
  {
    if s == "" || s[0] == c then 0 else IndexOfChar(s[1..], c) + 1
  }

  /** The pieces getline takes from a stream; an empty one at the very end does not come. */
  function Pieces(s: string, delimiter: char): seq<string>
    decreases |s|
  {
    if s == "" then []
    else
      var i := IndexOfChar(s, delimiter);
      if i == |s| then [s] else [s[..i]] + Pieces(s[i + 1..], delimiter)
  }

  predicate IsSpace(c: char) {
    c == ' ' || c == '\t' || c == '\n' || c == '\r' || c as int == 11 || c as int == 12
  }

  function SkipSpaces(s: string): string {
    if s != "" && IsSpace(s[0]) then SkipSpaces(s[1..]) else s
  }

  function LeadingNumber(s: string, start: nat): nat {
    if s != "" && IsDigit(s[0]) then LeadingNumber(s[1..], start * 10 + DigitOf(s[0])) else start
  }

  /** std::stoi: white space, a sign, digits, and whatever follows. */
  function Stoi(s: string): Result<int, ParseError> {
    var t := SkipSpaces(s);
    var negative := t != "" && t[0] == '-';
    var digits := if t != "" && (t[0] == '-' || t[0] == '+') then t[1..] else t;
    if digits == "" || !IsDigit(digits[0]) then Err(InvalidArgument)
    else
      var n: int := LeadingNumber(digits, 0);
      var value := if negative then -n else n;
      if -0x8000_0000 <= value < 0x8000_0000 then Ok(value) else Err(OutOfRange)
  }

  // White space, in the C locale.
  const SPACES: set<char> := {' ', '\t', '\n', '\r', 11 as char, 12 as char}

  predicate Decimals(s: string) {
    forall i | 0 <= i < |s| :: '0' <= s[i] <= '9'
  }

  /** What follows is no digit. */
  predicate NoDigit(s: string) {
    s == "" || s[0] < '0' || '9' < s[0]
  }

  /** The number that digits stand for. */
  function Decimal(digits: string): nat
    requires Decimals(digits)
  {
    if digits == "" then 0
    else
      var last := digits[|digits| - 1];
      10 * Decimal(digits[..|digits| - 1]) + (last as int - '0' as int)
  }

  lemma {:induction false} SkipsSpaces(spaces: string, rest: string)
    requires (forall i | 0 <= i < |spaces| :: spaces[i] in SPACES) && (rest == "" || rest[0] !in SPACES)
    ensures SkipSpaces(spaces + rest) == rest
  {
    if spaces == "" {
      assert spaces + rest == rest;
    } else {
      assert (spaces + rest)[0] == spaces[0] && (spaces + rest)[1..] == spaces[1..] + rest;
      SpacesAreSpaces(spaces[0]);
      SkipsSpaces(spaces[1..], rest);
    }
    if rest != "" {
      SpacesAreSpaces(rest[0]);
    }
  }

  lemma SpacesAreSpaces(c: char)
    ensures IsSpace(c) <==> c in SPACES
  {
  }

  lemma {:induction false} ReadsNumber(head: string, tail: string, rest: string)
    requires Decimals(head) && Decimals(tail) && Decimals(head + tail) && NoDigit(rest)
    ensures LeadingNumber(tail + rest, Decimal(head)) == Decimal(head + tail)
    decreases |tail|
  {
    if tail == "" {
      assert tail + rest == rest && head + tail == head;
    } else {
      var more := head + [tail[0]];
      assert more[..|more| - 1] == head && more + tail[1..] == head + tail;
      assert (tail + rest)[0] == tail[0] && (tail + rest)[1..] == tail[1..] + rest;
      ReadsNumber(more, tail[1..], rest);
    }
  }

  lemma DigitsOnly(digits: string, rest: string)
    requires Decimals(digits) && NoDigit(rest)
    ensures LeadingNumber(digits + rest, 0) == Decimal(digits)
  {
    assert "" + digits == digits;
    ReadsNumber("", digits, rest);
  }

  /** White space, a sign or none, digits, and whatever follows: the number, if an int can hold it. */
  lemma StoiReads(spaces: string, sign: Option<char>, digits: string, rest: string)
    requires (forall i | 0 <= i < |spaces| :: spaces[i] in SPACES) && sign in {None, Some('+'), Some('-')}
    requires digits != "" && Decimals(digits) && NoDigit(rest)
    ensures var signed := if sign.Some? then [sign.value] + digits + rest else digits + rest;
            var n := if sign == Some('-') then 0 - Decimal(digits) else Decimal(digits);
            Stoi(spaces + signed) == if -0x8000_0000 <= n <= 0x7fff_ffff then Ok(n) else Err(OutOfRange)
  {
    hide IsSpace, Decimal, LeadingNumber, SkipSpaces;
    var signed := if sign.Some? then [sign.value] + digits + rest else digits + rest;
    assert signed[0] == if sign.Some? then sign.value else digits[0];
    SkipsSpaces(spaces, signed);
    assert (if sign.Some? then signed[1..] else signed) == digits + rest;
    DigitsOnly(digits, rest);
  }

  /** Without a digit behind the sign there is no number. */
  lemma StoiRefuses(spaces: string, sign: Option<char>, rest: string)
    requires (forall i | 0 <= i < |spaces| :: spaces[i] in SPACES) && sign in {None, Some('+'), Some('-')}
    requires NoDigit(rest)
    requires sign == None && rest != "" ==> rest[0] !in SPACES && rest[0] != '+' && rest[0] != '-'
    ensures Stoi(spaces + if sign.Some? then [sign.value] + rest else rest) == Err(InvalidArgument)
  {
    hide IsSpace, SkipSpaces;
    var signed := if sign.Some? then [sign.value] + rest else rest;
    SkipsSpaces(spaces, signed);
    if sign.Some? {
      assert signed[1..] == rest;
    }
  }

  /** An NHVRNetworkEntry; the status is a byte, and takes the lowest byte of whatever number was there. */
  datatype Entry = Entry(name: string, status: int)

  function ParseEntry(item: string): Result<Entry, ParseError> {
    var parts := Pieces(item, ':');
    var name := if |parts| > 0 then parts[0] else "";
    var statusStr := if |parts| > 1 then parts[1] else "";
    match Stoi(statusStr)
    case Ok(status) => Ok(Entry(name, status % 256))
    case Err(e) => Err(e)
  }

  function ParseAll(items: seq<string>): Result<seq<Entry>, ParseError> {
    if items == [] then Ok([])
    else match ParseEntry(items[0])
      case Err(e) => Err(e)
      case Ok(entry) => match ParseAll(items[1..])
        case Err(e) => Err(e)
        case Ok(rest) => Ok([entry] + rest)
  }

  function ParseTag(raw: string): Result<seq<Entry>, ParseError> {
    ParseAll(Pieces(raw, '|'))
  }

  function Prefixed(entries: seq<Entry>, r: Result<seq<Entry>, ParseError>): Result<seq<Entry>, ParseError> {
    match r
    case Ok(rest) => Ok(entries + rest)
    case Err(_) => r
  }

  /** EdgeInfo::nhvr_networks on the raw tag. */
  method ParseNhvrNetworks(raw: string) returns (r: Result<seq<Entry>, ParseError>)
    ensures r == ParseTag(raw)
  {
    hide ParseEntry, IndexOfChar;
    var result: seq<Entry> := [];
    var rest := raw;
    PrefixedNone(result, ParseTag(raw));
    while rest != ""
      invariant ParseTag(raw) == Prefixed(result, ParseTag(rest))
      decreases |rest|
    {
      var i := IndexOfChar(rest, '|');
      var item := rest[..i];
      ghost var whole := rest;
      rest := if i == |rest| then "" else rest[i + 1..];
      PiecesStep(whole, '|');
      var entry := ParseEntry(item);
      if entry.Err? {
        return Err(entry.error);
      }
      PrefixedStep(result, entry.value, ParseTag(rest));
      result := result + [entry.value];
    }
    assert result + [] == result;
    r := Ok(result);
  }

  lemma PrefixedNone(entries: seq<Entry>, r: Result<seq<Entry>, ParseError>)
    requires entries == []
    ensures Prefixed(entries, r) == r
  {
    if r.Ok? { assert entries + r.value == r.value; }
  }

  lemma PiecesStep(s: string, delimiter: char)
    requires s != ""
    ensures var i := IndexOfChar(s, delimiter);
            var rest := if i == |s| then "" else s[i + 1..];
            Pieces(s, delimiter) == [s[..i]] + Pieces(rest, delimiter)
  {
    assert s[..|s|] == s && [s] + [] == [s];
  }

  lemma PrefixedStep(entries: seq<Entry>, entry: Entry, r: Result<seq<Entry>, ParseError>)
    ensures Prefixed(entries, Prefixed([entry], r)) == Prefixed(entries + [entry], r)
  {
    if r.Ok? { assert entries + ([entry] + r.value) == entries + [entry] + r.value; }
  }

  // ---------------------------------------------------------------------------------------------
  // Printer and parser undo each other

  predicate Without(s: string, c: char) {
    forall i | 0 <= i < |s| :: s[i] != c
  }

  /** A network name the tag's format can hold. */
  predicate Clean(name: string) {
    Without(name, '|') && Without(name, ':')
  }

  function EntriesOf(items: seq<Item>): (es: seq<Entry>)
    ensures |es| == |items| && forall i | 0 <= i < |es| :: es[i] == Entry(items[i].0, items[i].1)
  {
    seq(|items|, i requires 0 <= i < |items| => Entry(items[i].0, items[i].1))
  }

  lemma {:induction false} IndexBehind(a: string, c: char, b: string)
    requires Without(a, c)
    ensures IndexOfChar(a + [c] + b, c) == |a|
  {
    if a != "" {
      IndexBehind(a[1..], c, b);
      assert (a + [c] + b)[1..] == a[1..] + [c] + b;
    } else {
      assert (a + [c] + b)[0] == c;
    }
  }

  lemma FirstPiece(a: string, c: char, b: string)
    requires Without(a, c)
    ensures Pieces(a + [c] + b, c) == [a] + Pieces(b, c)
  {
    IndexBehind(a, c, b);
    var s := a + [c] + b;
    assert s[..|a|] == a && s[|a| + 1..] == b;
    PiecesStep(s, c);
  }

  lemma OnlyPiece(a: string, c: char)
    requires Without(a, c) && a != ""
    ensures Pieces(a, c) == [a]
  {
  }

  lemma StoiOfStatus(status: nat)
    requires status < 3
    ensures Stoi([StatusChar(status)]) == Ok(status)
  {
    var s := [StatusChar(status)];
    assert s[1..] == "";
    assert LeadingNumber(s, 0) == LeadingNumber(s[1..], status);
  }

  lemma ParsePrintedEntry(name: string, status: nat)
    requires Without(name, ':') && status < 3
    ensures ParseEntry(name + [':', StatusChar(status)]) == Ok(Entry(name, status))
  {
    var statusStr := [StatusChar(status)];
    assert name + [':', StatusChar(status)] == name + [':'] + statusStr;
    FirstPiece(name, ':', statusStr);
    OnlyPiece(statusStr, ':');
    StoiOfStatus(status);
  }

  lemma NothingParsed(items: seq<Item>)
    requires items == []
    ensures ParseTag(Joined(items)) == Ok(EntriesOf(items)) && ParseAll([]) == Ok(EntriesOf(items))
  {
  }

  lemma EntriesOfMore(items: seq<Item>)
    requires items != []
    ensures EntriesOf(items) == [Entry(items[0].0, items[0].1)] + EntriesOf(items[1..])
    ensures |items| == 1 ==> ParseAll([]) == Ok(EntriesOf(items[1..]))
  {
  }

  lemma FirstParsed(first: string, rest: seq<string>)
    ensures ParseEntry(first).Ok? && ParseAll(rest).Ok? ==>
              ParseAll([first] + rest) == Ok([ParseEntry(first).value] + ParseAll(rest).value)
  {
    hide ParseEntry;
    assert ([first] + rest)[1..] == rest;
  }

  lemma PrintedEntryIsClean(name: string, status: nat)
    requires Clean(name) && status < 3
    ensures Without(name, ':') && Without(name + [':', StatusChar(status)], '|')
  {
  }

  lemma {:induction false} ParseJoined(items: seq<Item>)
    requires KnownStatuses(items) && forall i | 0 <= i < |items| :: Clean(items[i].0)
    ensures ParseTag(Joined(items)) == Ok(EntriesOf(items))
  {
    hide ParseEntry, Joined, Pieces, EntriesOf, Without, StatusChar, ParseAll;
    if items == [] {
      NothingParsed(items);
    } else {
      var first := items[0].0 + [':', StatusChar(items[0].1)];
      PrintedEntryIsClean(items[0].0, items[0].1);
      ParsePrintedEntry(items[0].0, items[0].1);
      ParseJoined(items[1..]);
      EntriesOfMore(items);
      if |items| == 1 {
        OnlyPiece(first, '|');
        JoinedOfOne(items);
        FirstParsed(first, []);
        assert [first] + [] == [first];
      } else {
        FirstPiece(first, '|', Joined(items[1..]));
        JoinedOfMore(items);
        FirstParsed(first, Pieces(Joined(items[1..]), '|'));
      }
    }
  }

  lemma JoinedOfOne(items: seq<Item>)
    requires KnownStatuses(items) && |items| == 1
    ensures Joined(items) == items[0].0 + [':', StatusChar(items[0].1)]
  {
  }

  lemma JoinedOfMore(items: seq<Item>)
    requires KnownStatuses(items) && |items| > 1
    ensures Joined(items) == items[0].0 + [':', StatusChar(items[0].1)] + ['|'] + Joined(items[1..])
  {
  }

  lemma {:induction false} PiecesWithout(s: string, c: char, d: char)
    ensures forall i | 0 <= i < |Pieces(s, c)| ::
              Without(Pieces(s, c)[i], c) && (Without(s, d) ==> Without(Pieces(s, c)[i], d))
    decreases |s|
  {
    if s != "" {
      var i := IndexOfChar(s, c);
      var rest := if i == |s| then "" else s[i + 1..];
      PiecesStep(s, c);
      PiecesWithout(rest, c, d);
      WithoutInPart(s, c, i);
      WithoutInPart(s, d, i);
      hide Pieces, IndexOfChar, Without;
      var ps := Pieces(rest, c);
      assert forall k | 0 < k < |[s[..i]] + ps| :: ([s[..i]] + ps)[k] == ps[k - 1];
    }
  }

  lemma WithoutInPart(s: string, d: char, i: nat)
    requires i <= |s|
    ensures Without(s, d) ==> Without(s[..i], d) && (i < |s| ==> Without(s[i + 1..], d)) && Without("", d)
    ensures (forall k | 0 <= k < i :: s[k] != d) ==> Without(s[..i], d)
  {
  }

  /** A name that comes out of the parser has no separator in it. */
  lemma {:induction false} ParsedNamesAreClean(items: seq<string>)
    requires ParseAll(items).Ok? && forall i | 0 <= i < |items| :: Without(items[i], '|')
    ensures forall i | 0 <= i < |ParseAll(items).value| :: Clean(ParseAll(items).value[i].name)
  {
    if items != [] {
      PiecesWithout(items[0], ':', '|');
      ParsedNamesAreClean(items[1..]);
    }
  }

  /** Printing and parsing gives the networks back, by name, exactly if no name holds a separator. */
  lemma RoundTripIffClean(networks: WayNetworks)
    requires forall name | name in networks :: networks[name] < 3
    ensures ParseTag(FormatTag(networks)) == Ok(EntriesOf(SortedItems(networks))) <==>
            forall name | name in networks :: Clean(name)
  {
    var items := SortedItems(networks);
    hide ParseTag, Joined, Clean, Pieces;
    if forall name | name in networks :: Clean(name) {
      ParseJoined(items);
    }
    if ParseTag(FormatTag(networks)) == Ok(EntriesOf(items)) {
      ParsedTagIsClean(FormatTag(networks));
      forall name | name in networks
        ensures Clean(name)
      {
        var i :| 0 <= i < |items| && items[i] == (name, networks[name]);
        assert Clean(EntriesOf(items)[i].name);
      }
    }
  }

  lemma ParsedTagIsClean(raw: string)
    requires ParseTag(raw).Ok?
    ensures forall i | 0 <= i < |ParseTag(raw).value| :: Clean(ParseTag(raw).value[i].name)
  {
    PiecesWithout(raw, '|', '|');
    ParsedNamesAreClean(Pieces(raw, '|'));
  }

  // ---------------------------------------------------------------------------------------------
  // From the packages to the truck

  /** The networks that are said of the way have names without separators. */
  ghost predicate CleanNames(fs: seq<Feature>, way: int) {
    forall name, status: nat | Said(fs, way, name, status) :: Clean(name)
  }

  lemma CollectedStatuses(networks: map<int, WayNetworks>, fs: seq<Feature>, way: int)
    requires Collects(networks, fs) && way in networks
    ensures forall name | name in networks[way] :: networks[way][name] < 3
    ensures CleanNames(fs, way) <==> forall name | name in networks[way] :: Clean(name)
  {
    hide Clean;
    if forall name | name in networks[way] :: Clean(name) {
      forall name, status: nat | Said(fs, way, name, status)
        ensures Clean(name)
      {
        assert Of(networks, way, name).Some?;
      }
    }
    forall name | name in networks[way]
      ensures networks[way][name] < 3 && (CleanNames(fs, way) ==> Clean(name))
    {
      assert Of(networks, way, name).Some?;
      assert Said(fs, way, name, networks[way][name]);
      var f :| f in fs && Says(f, way, name, networks[way][name]);
    }
  }

  ghost predicate Covers(entries: seq<Entry>, name: string, status: nat) {
    exists i :: 0 <= i < |entries| && entries[i].name == name && status <= entries[i].status
  }

  /** The entries are the way's networks as the packages have them: every network once, by name, with the
      most restrictive status any segment gives. */
  ghost predicate DecodesTo(entries: seq<Entry>, fs: seq<Feature>, way: int) {
    && (forall i, j | 0 <= i < j < |entries| :: StrLess(entries[i].name, entries[j].name))
    && (forall i | 0 <= i < |entries| :: 0 <= entries[i].status && Said(fs, way, entries[i].name, entries[i].status))
    && (forall name, status: nat | Said(fs, way, name, status) :: Covers(entries, name, status))
  }

  lemma InRest(a: seq<Entry>, e: Entry)
    requires a != [] && forall i, j | 0 <= i < j < |a| :: StrLess(a[i].name, a[j].name)
    ensures e in a[1..] <==> e in a && e != a[0]
  {
    hide StrLess;
    StrLessTotal(a[0].name, a[0].name);
    assert a == [a[0]] + a[1..];
  }

  lemma {:induction false} AscendingIsUnique(a: seq<Entry>, b: seq<Entry>)
    requires forall i, j | 0 <= i < j < |a| :: StrLess(a[i].name, a[j].name)
    requires forall i, j | 0 <= i < j < |b| :: StrLess(b[i].name, b[j].name)
    requires forall e :: e in a <==> e in b
    ensures a == b
  {
    hide StrLess;
    assert b != [] ==> b[0] in b;
    if a != [] {
      assert a[0] in b && b[0] in a;
      StrLessTotal(a[0].name, b[0].name);
      assert a[0] == b[0];
      forall e
        ensures e in a[1..] <==> e in b[1..]
      {
        InRest(a, e);
        InRest(b, e);
      }
      AscendingIsUnique(a[1..], b[1..]);
    }
  }

  /** The one entry that covers what was said. */
  lemma CoveringEntry(a: seq<Entry>, fs: seq<Feature>, way: int, name: string, status: nat) returns (j: nat)
    requires DecodesTo(a, fs, way) && Said(fs, way, name, status)
    ensures j < |a| && a[j].name == name && status <= a[j].status && Said(fs, way, name, a[j].status)
    ensures forall k | 0 <= k < |a| && a[k].name == name :: k == j
  {
    hide Said, StrLess;
    assert Covers(a, name, status);
    j :| 0 <= j < |a| && a[j].name == name && status <= a[j].status;
    StrLessTotal(name, name);
  }

  lemma EntryWasSaid(a: seq<Entry>, fs: seq<Feature>, way: int, i: nat)
    requires DecodesTo(a, fs, way) && i < |a|
    ensures 0 <= a[i].status && Said(fs, way, a[i].name, a[i].status)
  {
    hide Said, StrLess, Covers;
  }

  lemma SaidStays(a: seq<Entry>, b: seq<Entry>, fs: seq<Feature>, way: int, i: nat)
    requires DecodesTo(a, fs, way) && DecodesTo(b, fs, way) && i < |a|
    ensures a[i] in b
  {
    hide DecodesTo, Said;
    EntryWasSaid(a, fs, way, i);
    var j := CoveringEntry(b, fs, way, a[i].name, a[i].status);
    var k := CoveringEntry(a, fs, way, a[i].name, b[j].status);
    assert k == i;
  }

  /** There is one right answer. */
  lemma DecodingIsUnique(a: seq<Entry>, b: seq<Entry>, fs: seq<Feature>, way: int)
    requires DecodesTo(a, fs, way) && DecodesTo(b, fs, way)
    ensures a == b
  {
    hide Said, StrLess, Covers;
    forall i | 0 <= i < |a|
      ensures a[i] in b
    {
      SaidStays(a, b, fs, way, i);
    }
    forall i | 0 <= i < |b|
      ensures b[i] in a
    {
      SaidStays(b, a, fs, way, i);
    }
    AscendingIsUnique(a, b);
  }

  /** From any stream of segments, through the importer, the tag and the parser: the entries are right exactly if the
      names of the way's networks are clean. */
  lemma ImportThenDecode(networks: map<int, WayNetworks>, fs: seq<Feature>, way: int)
    requires Collects(networks, fs)
    ensures way in networks <==> exists name, status: nat :: Said(fs, way, name, status)
    ensures way in networks ==> forall name | name in networks[way] :: networks[way][name] < 3
    ensures way in networks ==>
              var parsed := ParseTag(FormatTag(networks[way]));
              parsed.Ok? && DecodesTo(parsed.value, fs, way) <==> CleanNames(fs, way)
  {
    hide Said, CleanNames, ParseTag, FormatTag, Clean, StrLess;
    if name, status: nat :| Said(fs, way, name, status) {
      assert Of(networks, way, name).Some?;
    }
    if way in networks {
      CollectedStatuses(networks, fs, way);
      RoundTripIffClean(networks[way]);
      ItemsDecode(networks, fs, way);
      var parsed := ParseTag(FormatTag(networks[way]));
      if parsed.Ok? && DecodesTo(parsed.value, fs, way) {
        DecodingIsUnique(parsed.value, EntriesOf(SortedItems(networks[way])), fs, way);
      }
    }
  }

  lemma ListedIffCollected(items: seq<Item>, m: WayNetworks, name: string)
    requires Lists(items, m) && name in m
    ensures exists i :: 0 <= i < |items| && items[i] == (name, m[name])
  {
    assert (name, m[name]) in items;
  }

  lemma ListedIsSaid(networks: map<int, WayNetworks>, fs: seq<Feature>, way: int, items: seq<Item>, i: nat)
    requires Collects(networks, fs) && way in networks && Lists(items, networks[way]) && i < |items|
    ensures Said(fs, way, items[i].0, items[i].1)
  {
    hide Said, StrLess;
    assert Of(networks, way, items[i].0) == Some(items[i].1);
  }

  lemma SaidIsListed(networks: map<int, WayNetworks>, fs: seq<Feature>, way: int, items: seq<Item>, name: string,
                     status: nat)
    requires Collects(networks, fs) && way in networks && Lists(items, networks[way]) && Said(fs, way, name, status)
    ensures exists i :: 0 <= i < |items| && items[i].0 == name && status <= items[i].1
  {
    hide Said, StrLess;
    assert Of(networks, way, name).Some?;
    ListedIffCollected(items, networks[way], name);
  }

  lemma ItemsDecode(networks: map<int, WayNetworks>, fs: seq<Feature>, way: int)
    requires Collects(networks, fs) && way in networks
    ensures DecodesTo(EntriesOf(SortedItems(networks[way])), fs, way)
  {
    var items := SortedItems(networks[way]);
    var entries := EntriesOf(items);
    assert Ascending(items);
    hide Said, StrLess, SortedItems, Collects, Lists, Covers;
    forall i | 0 <= i < |entries|
      ensures 0 <= entries[i].status && Said(fs, way, entries[i].name, entries[i].status)
    {
      ListedIsSaid(networks, fs, way, items, i);
    }
    forall name, status: nat | Said(fs, way, name, status)
      ensures Covers(entries, name, status)
    {
      SaidIsListed(networks, fs, way, items, name, status);
      ListedCovers(items, name, status);
    }
  }

  lemma ListedCovers(items: seq<Item>, name: string, status: nat)
    requires exists i :: 0 <= i < |items| && items[i].0 == name && status <= items[i].1
    ensures Covers(EntriesOf(items), name, status)
  {
    var i :| 0 <= i < |items| && items[i].0 == name && status <= items[i].1;
    assert EntriesOf(items)[i].name == name;
  }

  /** EdgeInfo::nhvr_networks: an edge without the tag has no entries. */
  function Networks(tag: Option<string>): Result<seq<Entry>, ParseError> {
    match tag
    case None => Ok([])
    case Some(raw) => ParseTag(raw)
  }

  /** A requested network is prohibited. */
  predicate Prohibits(entries: seq<Entry>, requested: set<string>) {
    exists i :: 0 <= i < |entries| && entries[i].status == RESTRICTED && entries[i].name in requested
  }

  /** The truck costing's test of an edge: a requested network that is prohibited on the way. */
  method IsProhibited(entries: seq<Entry>, requested: set<string>) returns (b: bool)
    ensures b <==> Prohibits(entries, requested)
  {
    if requested != {} {
      for i := 0 to |entries|
        invariant forall k | 0 <= k < i :: !(entries[k].status == RESTRICTED && entries[k].name in requested)
      {
        if entries[i].status == RESTRICTED && entries[i].name in requested {
          return true;
        }
      }
    }
    b := false;
  }

  /** A way is closed to a truck exactly if some segment restricts one of its networks there, whatever other
      segments say. */
  lemma ProhibitedIffRestricted(entries: seq<Entry>, fs: seq<Feature>, way: int, requested: set<string>)
    requires DecodesTo(entries, fs, way)
    ensures Prohibits(entries, requested) <==> exists name :: name in requested && Said(fs, way, name, RESTRICTED)
  {
    hide StrLess, Said;
    if name :| name in requested && Said(fs, way, name, RESTRICTED) {
      assert Covers(entries, name, RESTRICTED);
      var i :| 0 <= i < |entries| && entries[i].name == name && RESTRICTED <= entries[i].status;
      SaidAtMostRestricted(fs, way, name, entries[i].status);
    }
  }

  lemma SaidAtMostRestricted(fs: seq<Feature>, way: int, name: string, status: nat)
    requires Said(fs, way, name, status)
    ensures status <= RESTRICTED
  {
  }

  // ---------------------------------------------------------------------------------------------
  // From the access codes in the packages to the closed road

  /** Some package that can be read has a segment of the way with this network and this access code. */
  ghost predicate HasSegment(packages: seq<Option<seq<Feature>>>, way: int, name: string, code: string) {
    exists p :: p in packages && p.Some? && Feature(Some(way), Some(name), Some(code)) in p.value
  }

  lemma {:induction false} FeaturesOfPackages(packages: seq<Option<seq<Feature>>>, f: Feature)
    ensures f in AllFeatures(packages) <==> exists p :: p in packages && p.Some? && f in p.value
  {
    if packages != [] {
      var most, last := packages[..|packages| - 1], packages[|packages| - 1];
      FeaturesOfPackages(most, f);
      assert packages == most + [last];
      assert f in AllFeatures(packages) <==> f in AllFeatures(most) || (last.Some? && f in last.value);
    }
  }

  /** What is said, in terms of the codes. */
  lemma SaidMeansCode(packages: seq<Option<seq<Feature>>>, way: int, name: string, status: nat)
    ensures Said(AllFeatures(packages), way, name, status) <==>
            && way != 0 && name != ""
            && ((status == 0 && HasSegment(packages, way, name, "Approved"))
                || (status == 1 && HasSegment(packages, way, name, "Approved with Conditions"))
                || (status == 2 && HasSegment(packages, way, name, "Restricted")))
  {
    FeaturesOfPackages(packages, Feature(Some(way), Some(name), Some("Approved")));
    FeaturesOfPackages(packages, Feature(Some(way), Some(name), Some("Approved with Conditions")));
    FeaturesOfPackages(packages, Feature(Some(way), Some(name), Some("Restricted")));
    if Said(AllFeatures(packages), way, name, status) {
      var f :| f in AllFeatures(packages) && Says(f, way, name, status);
      assert f == Feature(Some(way), Some(name), f.accessCode);
    } else if way != 0 && name != "" {
      SegmentIsSaid(packages, way, name, "Approved", 0);
      SegmentIsSaid(packages, way, name, "Approved with Conditions", 1);
      SegmentIsSaid(packages, way, name, "Restricted", 2);
    }
  }

  lemma SegmentIsSaid(packages: seq<Option<seq<Feature>>>, way: int, name: string, code: string, status: nat)
    requires way != 0 && name != "" && AccessStatus(Some(code)) == Some(status)
    ensures HasSegment(packages, way, name, code) ==> Said(AllFeatures(packages), way, name, status)
  {
    var f := Feature(Some(way), Some(name), Some(code));
    FeaturesOfPackages(packages, f);
    assert Says(f, way, name, status);
  }

  /** The decoded entry of a network: prohibited if any segment says "Restricted", else conditional if any says
      "Approved with Conditions", else approved if any says "Approved"; any other code leaves no entry. */
  ghost predicate HasStatus(entries: seq<Entry>, packages: seq<Option<seq<Feature>>>, way: int, name: string) {
    var approved := HasSegment(packages, way, name, "Approved");
    var conditional := HasSegment(packages, way, name, "Approved with Conditions");
    var restricted := HasSegment(packages, way, name, "Restricted");
    && (Entry(name, 2) in entries <==> restricted)
    && (Entry(name, 1) in entries <==> conditional && !restricted)
    && (Entry(name, 0) in entries <==> approved && !conditional && !restricted)
  }

  lemma DecodedStatus(entries: seq<Entry>, packages: seq<Option<seq<Feature>>>, way: int, name: string)
    requires DecodesTo(entries, AllFeatures(packages), way) && way != 0 && name != ""
    ensures HasStatus(entries, packages, way, name)
  {
    hide DecodesTo, Said, HasSegment;
    var fs := AllFeatures(packages);
    SaidMeansCode(packages, way, name, 0);
    SaidMeansCode(packages, way, name, 1);
    SaidMeansCode(packages, way, name, 2);
    forall status: nat | status < 3
      ensures Entry(name, status) in entries <==>
              Said(fs, way, name, status) && forall higher: nat | status < higher < 3 :: !Said(fs, way, name, higher)
    {
      EntryIffHighest(entries, fs, way, name, status);
    }
  }

  lemma EntryIffHighest(entries: seq<Entry>, fs: seq<Feature>, way: int, name: string, status: nat)
    requires DecodesTo(entries, fs, way) && status < 3
    ensures Entry(name, status) in entries <==>
            Said(fs, way, name, status) && forall higher: nat | status < higher < 3 :: !Said(fs, way, name, higher)
  {
    hide DecodesTo, Said;
    if Entry(name, status) in entries {
      var i :| 0 <= i < |entries| && entries[i] == Entry(name, status);
      EntryWasSaid(entries, fs, way, i);
      forall higher: nat | status < higher < 3
        ensures !Said(fs, way, name, higher)
      {
        if Said(fs, way, name, higher) {
          var j := CoveringEntry(entries, fs, way, name, higher);
        }
      }
    } else if Said(fs, way, name, status) {
      var j := CoveringEntry(entries, fs, way, name, status);
      SaidAtMostRestricted(fs, way, name, entries[j].status);
    }
  }

  /** The entries are of the way, and no other numbers stand for a status. */
  lemma EntriesAreKnown(entries: seq<Entry>, packages: seq<Option<seq<Feature>>>, way: int, e: Entry)
    requires DecodesTo(entries, AllFeatures(packages), way) && e in entries
    ensures way != 0 && e.name != "" && 0 <= e.status <= 2
  {
    hide DecodesTo, Said, HasSegment;
    var i :| 0 <= i < |entries| && entries[i] == e;
    EntryWasSaid(entries, AllFeatures(packages), way, i);
    SaidMeansCode(packages, way, e.name, e.status);
  }

  /** The way's networks have names without separators. */
  ghost predicate NoSeparators(packages: seq<Option<seq<Feature>>>, way: int) {
    forall name, code | HasSegment(packages, way, name, code)
                        && code in {"Approved", "Approved with Conditions", "Restricted"} ::
      '|' !in name && ':' !in name
  }

  lemma NoSeparatorsIsClean(packages: seq<Option<seq<Feature>>>, way: int)
    requires NoSeparators(packages, way)
    ensures CleanNames(AllFeatures(packages), way)
  {
    hide Said, HasSegment;
    forall name, status: nat | Said(AllFeatures(packages), way, name, status)
      ensures Clean(name)
    {
      SaidMeansCode(packages, way, name, status);
    }
  }

  /** The whole way of a restriction: packages are read, the way gets its tag, the tag is parsed, and a truck that asks
      for some networks is refused or not. */
  method RouteTruck(packages: seq<Option<seq<Feature>>>, way: int, requested: set<string>)
    returns (entries: seq<Entry>, refused: bool)
    requires NoSeparators(packages, way)
    ensures refused <==> way != 0 && exists name :: name in requested && name != ""
                                                    && HasSegment(packages, way, name, "Restricted")
    ensures way != 0 ==> forall name | name != "" :: HasStatus(entries, packages, way, name)
    ensures forall e | e in entries :: way != 0 && e.name != "" && 0 <= e.status <= 2
  {
    hide Collects, DecodesTo, ParseTag, FormatTag, HasSegment, HasStatus, Said, CleanNames, NoSeparators, AllFeatures;
    ghost var fs := AllFeatures(packages);
    var networks := ReadGpkgs(packages);
    ImportThenDecode(networks, fs, way);
    NoSeparatorsIsClean(packages, way);
    if way in networks {
      var parsed := ParseNhvrNetworks(FormatTag(networks[way]));
      entries := parsed.value;
    } else {
      NothingDecodes(fs, way);
      entries := [];
    }
    refused := IsProhibited(entries, requested);
    ProhibitedIffRestricted(entries, fs, way, requested);
    forall name
      ensures Said(fs, way, name, 2) <==> way != 0 && name != "" && HasSegment(packages, way, name, "Restricted")
    {
      SaidMeansCode(packages, way, name, 2);
    }
    forall name | way != 0 && name != ""
      ensures HasStatus(entries, packages, way, name)
    {
      DecodedStatus(entries, packages, way, name);
    }
    forall e | e in entries
      ensures way != 0 && e.name != "" && 0 <= e.status <= 2
    {
      EntriesAreKnown(entries, packages, way, e);
    }
  }

  lemma NothingDecodes(fs: seq<Feature>, way: int)
    requires !exists name, status: nat :: Said(fs, way, name, status)
    ensures DecodesTo([], fs, way)
  {
  }

  /** A name with separators can be taken apart into entries nobody wrote. */
  lemma SeparatorsAreTakenApart()
    ensures ParseTag(FormatTag(map["A:2|B" := 0])) == Ok([Entry("A", 2), Entry("B", 0)])
  {
    var m := map["A:2|B" := 0];
    var items := SortedItems(m);
    assert "A:2|B" in m && m["A:2|B"] == 0;
    assert items == [("A:2|B", 0)];
    var two := [("A", 2), ("B", 0)];
    JoinedOfOne(items);
    JoinedOfOne(two[1..]);
    JoinedOfMore(two);
    assert Joined(items) == "A:2|B:0" == Joined(two);
    ParseJoined(two);
    assert EntriesOf(two) == [Entry("A", 2), Entry("B", 0)];
  }

  /** A status that is no byte is taken for its lowest byte: this one closes the road. */
  lemma StatusWrapsAround()
    ensures ParseTag("A:258") == Ok([Entry("A", 2)])
  {
    hide Stoi, ParseTag, Pieces;
    ReadsAsNumber();
    ParseOne("A", "258");
    assert "A" + ":" + "258" == "A:258";
  }

  lemma ReadsAsNumber()
    ensures Stoi("258") == Ok(258)
  {
    var s := "258";
    assert s[1..] == "58" && "58"[1..] == "8" && "8"[1..] == "";
    assert LeadingNumber(s, 0) == LeadingNumber("58", 2) == LeadingNumber("8", 25) == 258;
  }

  lemma ParseOne(name: string, status: string)
    requires name != "" && Clean(name) && Clean(status) && Stoi(status).Ok?
    ensures ParseTag(name + ":" + status) == Ok([Entry(name, Stoi(status).value % 256)])
  {
    var item := name + ":" + status;
    hide Stoi;
    assert item[..|name|] == name && item[|name| + 1..] == status && item[|name|] == ':';
    assert forall i | 0 <= i < |name| :: item[i] == name[i];
    assert forall i | |name| < i < |item| :: item[i] == status[i - |name| - 1];
    assert Without(item, '|');
    assert IndexOfChar(item, '|') == |item| && IndexOfChar(item, ':') == |name|;
    assert IndexOfChar(status, ':') == |status|;
    assert Pieces(item, '|') == [item];
    PiecesStep(item, ':');
    assert Pieces(status, ':') == if status == "" then [] else [status];
    hide IndexOfChar, Pieces;
    assert ParseEntry(item) == Ok(Entry(name, Stoi(status).value % 256));
    var entry := Entry(name, Stoi(status).value % 256);
    assert ParseAll([item][1..]) == Ok([]) && [item][0] == item;
    assert ParseAll([item]) == Ok([entry] + []) && [entry] + [] == [entry];
  }
}
