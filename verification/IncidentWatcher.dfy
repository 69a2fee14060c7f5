/** incident_singleton_t: one thread keeps rescanning a directory of incident tiles while other programs
    write, replace and delete the files. It decides by comparing modification times, in whole seconds,
    with the time the last scan began, and forgets tiles it no longer finds. */
module IncidentWatcher {
  import opened TileHierarchy
  import opened Wrappers

  datatype IncidentsTile = IncidentsTile(locations: seq<string>)

  /** What is in a file: something that does not parse, a tile without incidents, or incidents. */
  datatype Content = Unparsable | NoLocations | Incidents(tile: IncidentsTile)

  datatype File = File(mtime: nat, content: Content)

  /** read_tile: files that do not parse and tiles without incidents are not kept. */
  function ReadTile(c: Content): Option<IncidentsTile> {
    match c
    case Incidents(tile) => Some(tile)
    case _ => None
  }

  type Cache = map<TileId, Option<IncidentsTile>>

  /** update_tile: with a static tile set (lock free) the slots are fixed. */
  function Stored(cache: Cache, lockFree: bool, t: TileId, tile: Option<IncidentsTile>): Cache {
    if t !in cache && lockFree then cache else cache[t := tile]
  }

  /** The entries of tiles that were not seen in the scan are cleared. */
  function Purged(cache: Cache, seen: set<TileId>): Cache {
    map t | t in cache :: if t in seen then cache[t] else None
  }

  function Lookup(cache: Cache, t: TileId): Option<IncidentsTile> {
    if t in cache then cache[t] else None
  }

  /** The state shared between the watcher and the readers. */
  class IncidentState {
    const lockFree: bool
    var initialized: bool
    var cache: Cache

    /** A static tile set preallocates its slots. */
    constructor (tileset: set<TileId>)
      ensures lockFree == (tileset != {}) && !initialized
      ensures cache == map t | t in tileset :: None
    {
      lockFree := tileset != {};
      initialized := false;
      cache := map t | t in tileset :: None;
    }

    method UpdateTile(t: TileId, tile: Option<IncidentsTile>) returns (updated: bool)
      modifies this`cache
      ensures cache == Stored(old(cache), lockFree, t, tile)
      ensures updated <==> t in old(cache) || !lockFree
    {
      if t !in cache {
        if lockFree {
          return false;
        }
        cache := cache[t := None];
      }
      cache := cache[t := tile];
      return true;
    }

    /** The loop at the end of a scan, over the entries in any order. */
    method Purge(seen: set<TileId>) returns (updates: nat)
      modifies this`cache
      ensures cache == Purged(old(cache), seen)
      ensures updates == |set t | t in old(cache) && t !in seen && old(cache)[t].Some?|
    {
      updates := 0;
      var entries := cache.Keys;
      ghost var before := cache;
      ghost var cleared: set<TileId> := {};
      while entries != {}
        invariant cleared == (set t | t in before && t !in entries && t !in seen && before[t].Some?)
        invariant before == old(cache) && updates == |cleared|
        invariant entries <= cache.Keys == old(cache).Keys
        invariant forall t | t in entries :: cache[t] == old(cache)[t]
        invariant forall t | t in cache && t !in entries :: cache[t] == Purged(old(cache), seen)[t]
        decreases entries
      {
        var t :| t in entries;
        entries := entries - {t};
        if t !in seen && cache[t].Some? {
          var updated := UpdateTile(t, None);
          updates := updates + 1;
          cleared := cleared + {t};
        }
      }
      assert cleared == (set t | t in old(cache) && t !in seen && old(cache)[t].Some?);
    }

    method Get(t: TileId) returns (tile: Option<IncidentsTile>)
      ensures tile == Lookup(cache, t)
    {
      if t !in cache {
        return None;
      }
      tile := cache[t];
    }
  }

  // ---------------------------------------------------------------------------------------------
  // All interleavings

  /** Where the watcher stands. A scan knows when it began and what it has seen; `loading` is the file
      whose modification time it has compared and found new, but which it has not read yet. */
  datatype Phase = Waiting | Scanning(began: nat, seen: set<TileId>, loading: Option<TileId>)

  /** The last four fields record history: the files the directory iteration must come by (there from the
      beginning of the scan on, and not touched), those that were there at some time during the scan, and
      those touched since the current and since the last completed scan began. */
  datatype State = State(
    tileset: set<TileId>, disk: map<TileId, File>, clock: nat,
    cache: Cache, lastScan: nat, scans: nat, phase: Phase,
    due: set<TileId>, appeared: set<TileId>, dirtyNow: set<TileId>, dirty: set<TileId>)

  datatype Step =
    | Write(t: TileId, content: Content)
    | Delete(t: TileId)
    | Tick(seconds: nat)
    | BeginScan
    | Visit(t: TileId)
    | Load
    | Finish

  predicate Touches(step: Step, t: TileId) {
    (step.Write? || step.Delete?) && step.t == t
  }

  predicate Enabled(s: State, step: Step) {
    match step
    case Write(_, _) => true
    case Delete(t) => t in s.disk
    case Tick(_) => true
    case BeginScan => s.phase.Waiting?
    // a file may have been deleted after the iteration came by its name
    case Visit(t) => s.phase.Scanning? && s.phase.loading.None? && t in s.appeared
    case Load => s.phase.Scanning? && s.phase.loading.Some?
    case Finish => s.phase.Scanning? && s.phase.loading.None? && s.due <= s.phase.seen
  }

  function Touched(s: State, t: TileId): State {
    s.(due := s.due - {t}, appeared := s.appeared + {t}, dirtyNow := s.dirtyNow + {t}, dirty := s.dirty + {t})
  }

  function LockFree(s: State): bool {
    s.tileset != {}
  }

  function Apply(s: State, step: Step): State
    requires Enabled(s, step)
  {
    match step
    case Write(t, content) => Touched(s, t).(disk := s.disk[t := File(s.clock, content)])
    case Delete(t) => Touched(s, t).(disk := map u | u in s.disk && u != t :: s.disk[u])
    case Tick(seconds) => s.(clock := s.clock + seconds)
    case BeginScan =>
      s.(phase := Scanning(s.clock, {}, None), due := s.disk.Keys, appeared := s.disk.Keys, dirtyNow := {})
    case Visit(t) =>
      // the time cannot be read when the file is gone, and then nothing more happens
      s.(phase := s.phase.(seen := s.phase.seen + {t},
                           loading := if t in s.disk && s.lastScan <= s.disk[t].mtime then Some(t) else None))
    case Load =>
      // opening the file fails when it is gone
      var t := s.phase.loading.value;
      var tile := if t in s.disk then ReadTile(s.disk[t].content) else None;
      s.(cache := Stored(s.cache, LockFree(s), t, tile), phase := s.phase.(loading := None))
    case Finish =>
      s.(cache := Purged(s.cache, s.phase.seen), lastScan := s.phase.began, scans := s.scans + 1,
         phase := Waiting, dirty := s.dirtyNow)
  }

  predicate Initial(s: State) {
    && (forall t | t in s.disk :: s.disk[t].mtime <= s.clock)
    && s.cache == (map t | t in s.tileset :: None)
    && s.lastScan == 0 && s.scans == 0 && s.phase == Waiting
    && s.dirtyNow == {} && s.dirty == {}
  }

  /** A run: every step was possible in the state before it. */
  predicate IsRun(s: State, steps: seq<Step>)
    decreases steps
  {
    steps == [] || (Enabled(s, steps[0]) && IsRun(Apply(s, steps[0]), steps[1..]))
  }

  function After(s: State, steps: seq<Step>): State
    requires IsRun(s, steps)
    decreases steps
  {
    if steps == [] then s else After(Apply(s, steps[0]), steps[1..])
  }

  predicate Tracked(s: State, t: TileId) {
    s.tileset == {} || t in s.tileset
  }

  /** A reader gets exactly what the file system holds. */
  predicate Synced(s: State, t: TileId) {
    Lookup(s.cache, t) == if t in s.disk then ReadTile(s.disk[t].content) else None
  }

  /** The invariant that every step of every party keeps. */
  ghost predicate Inv(s: State) {
    && (forall t | t in s.disk :: s.disk[t].mtime <= s.clock)
    && s.lastScan <= s.clock
    && (s.tileset != {} ==> s.cache.Keys == s.tileset)
    && (s.scans == 0 ==> s.lastScan == 0)
    && (forall t | t in s.disk && t in s.dirty :: s.lastScan <= s.disk[t].mtime)
    && (s.scans > 0 ==> forall t | Tracked(s, t) && t !in s.dirty :: Synced(s, t))
    && (s.phase.Scanning? ==>
          && s.lastScan <= s.phase.began <= s.clock
          && s.phase.seen <= s.appeared
          && (s.phase.loading.Some? ==> s.phase.loading.value in s.phase.seen)
          && (forall t | t !in s.dirtyNow :: t in s.appeared <==> t in s.disk)
          && (forall t | t !in s.dirtyNow && t in s.disk :: t in s.due)
          && (forall t | t in s.disk && t in s.dirtyNow :: s.phase.began <= s.disk[t].mtime)
          && (forall t | Tracked(s, t) && t !in s.dirtyNow && t in s.phase.seen && s.phase.loading != Some(t) ::
                Synced(s, t)))
  }

  lemma InitialInv(s: State)
    requires Initial(s)
    ensures Inv(s)
  {
  }

  lemma TouchKeepsInv(s: State, step: Step)
    requires Inv(s) && Enabled(s, step) && (step.Write? || step.Delete?)
    ensures Inv(Apply(s, step))
  {
  }

  lemma TickKeepsInv(s: State, step: Step)
    requires Inv(s) && Enabled(s, step) && step.Tick?
    ensures Inv(Apply(s, step))
  {
  }

  lemma BeginKeepsInv(s: State)
    requires Inv(s) && Enabled(s, BeginScan)
    ensures Inv(Apply(s, BeginScan))
  {
  }

  lemma VisitKeepsInv(s: State, step: Step)
    requires Inv(s) && Enabled(s, step) && step.Visit?
    ensures Inv(Apply(s, step))
  {
  }

  lemma LoadKeepsInv(s: State)
    requires Inv(s) && Enabled(s, Load)
    ensures Inv(Apply(s, Load))
  {
  }

  lemma FinishKeepsInv(s: State)
    requires Inv(s) && Enabled(s, Finish)
    ensures Inv(Apply(s, Finish))
  {
    var s' := Apply(s, Finish);
    forall t | Tracked(s', t) && t !in s'.dirty
      ensures Synced(s', t)
    {
    }
  }

  /** Every step of the writers, of the clock and of the watcher keeps the invariant. */
  lemma StepKeepsInv(s: State, step: Step)
    requires Inv(s) && Enabled(s, step)
    ensures Inv(Apply(s, step))
  {
    hide Inv, Enabled, Apply;
    match step {
      case Write(_, _) => TouchKeepsInv(s, step);
      case Delete(_) => TouchKeepsInv(s, step);
      case Tick(_) => TickKeepsInv(s, step);
      case BeginScan => BeginKeepsInv(s);
      case Visit(_) => VisitKeepsInv(s, step);
      case Load => LoadKeepsInv(s);
      case Finish => FinishKeepsInv(s);
    }
  }

  lemma {:induction false} RunKeepsInv(s: State, steps: seq<Step>)
    requires Inv(s) && IsRun(s, steps)
    ensures Inv(After(s, steps))
    decreases steps
  {
    hide Inv, Apply, Enabled;
    if steps != [] {
      StepKeepsInv(s, steps[0]);
      RunKeepsInv(Apply(s, steps[0]), steps[1..]);
    }
  }

  lemma {:induction false} RunSplits(s: State, first: seq<Step>, second: seq<Step>)
    requires IsRun(s, first + second)
    ensures IsRun(s, first) && IsRun(After(s, first), second)
    ensures After(s, first + second) == After(After(s, first), second)
    decreases first
  {
    hide Apply, Enabled;
    if first == [] {
      assert first + second == second;
    } else {
      assert (first + second)[1..] == first[1..] + second;
      RunSplits(Apply(s, first[0]), first[1..], second);
    }
  }

  predicate Untouched(steps: seq<Step>, t: TileId) {
    forall step | step in steps :: !Touches(step, t)
  }

  /** While nobody touches a file it stays as it is and does not become dirty again. */
  lemma {:induction false} UntouchedStays(s: State, steps: seq<Step>, t: TileId)
    requires IsRun(s, steps) && Untouched(steps, t)
    ensures var s' := After(s, steps);
            && (t in s.disk <==> t in s'.disk) && (t in s.disk ==> s'.disk[t] == s.disk[t])
            && (t !in s.dirtyNow ==> t !in s'.dirtyNow)
            && (t !in s.dirtyNow && t !in s.dirty ==> t !in s'.dirty)
            && s.scans <= s'.scans && s'.tileset == s.tileset
    decreases steps
  {
    if steps != [] {
      assert steps[0] in steps && forall step | step in steps[1..] :: step in steps;
      UntouchedStays(Apply(s, steps[0]), steps[1..], t);
    }
  }

  /** What a reader gets for a tile is what is in its file: the incidents, or nothing when there are none, when they
      do not parse, or when there is no file. */
  ghost predicate Shows(cache: Cache, disk: map<TileId, File>, t: TileId) {
    && (forall tile | t in disk && disk[t].content == Incidents(tile) :: t in cache && cache[t] == Some(tile))
    && (t !in disk || disk[t].content == NoLocations || disk[t].content == Unparsable ==>
          t !in cache || cache[t] == None)
  }

  lemma SyncedShows(s: State, t: TileId)
    requires Synced(s, t)
    ensures Shows(s.cache, s.disk, t)
  {
  }

  /** A completed scan is exact about every tracked file that nobody touched while it ran, and that
      includes every file last modified before the second in which the scan began. */
  lemma ScanIsExact(s: State, t: TileId)
    requires Inv(s) && Enabled(s, Finish) && Tracked(s, t)
    ensures t !in s.dirtyNow ==> Shows(Apply(s, Finish).cache, s.disk, t)
    ensures t in s.disk && s.disk[t].mtime < s.phase.began ==> Shows(Apply(s, Finish).cache, s.disk, t)
  {
    StepKeepsInv(s, Finish);
    if Synced(Apply(s, Finish), t) {
      SyncedShows(Apply(s, Finish), t);
    }
  }

  /** No update is ever lost: once a scan that began after a file was written, replaced or deleted (be it
      in the same second) has completed, readers get the file's content, or nothing, and keep getting it
      until the file is touched again, whatever else happens in between. */
  lemma NoUpdateIsLost(s: State, before: seq<Step>, update: Step, t: TileId, between: seq<Step>, during: seq<Step>,
                       since: seq<Step>)
    requires Initial(s) && Tracked(s, t) && Touches(update, t)
    requires IsRun(s, before + [update] + between + [BeginScan] + during + [Finish] + since)
    requires Untouched(between, t) && Untouched(during, t) && Untouched(since, t)
    ensures var cache := After(s, before + [update] + between + [BeginScan] + during + [Finish] + since).cache;
            && (forall tile | update == Write(t, Incidents(tile)) :: t in cache && cache[t] == Some(tile))
            && (update == Write(t, NoLocations) || update == Write(t, Unparsable) || update == Delete(t) ==>
                  t !in cache || cache[t] == None)
  {
    hide Inv;
    var upTo := before + [update];
    var begun := upTo + between + [BeginScan];
    var ended := begun + during + [Finish];
    assert before + [update] + between + [BeginScan] + during + [Finish] + since == ended + since;
    RunSplits(s, ended, since);
    RunSplits(s, begun + during, [Finish]);
    RunSplits(s, begun, during);
    RunSplits(s, upTo + between, [BeginScan]);
    RunSplits(s, upTo, between);
    RunSplits(s, before, [update]);
    OneStep(After(s, before), update);
    OneStep(After(s, upTo + between), BeginScan);
    OneStep(After(s, begun + during), Finish);
    UntouchedStays(After(s, upTo), between, t);
    UntouchedStays(After(s, begun), during, t);
    UntouchedStays(After(s, ended), since, t);
    InitialInv(s);
    RunKeepsInv(s, ended + since);
    TilesetStays(s, ended + since);
    InvSyncs(After(s, ended + since), t);
    SyncedShows(After(s, ended + since), t);
  }

  lemma OneStep(s: State, step: Step)
    requires IsRun(s, [step])
    ensures Enabled(s, step) && After(s, [step]) == Apply(s, step)
  {
    assert After(Apply(s, step), [step][1..]) == Apply(s, step);
  }

  lemma {:induction false} TilesetStays(s: State, steps: seq<Step>)
    requires IsRun(s, steps)
    ensures After(s, steps).tileset == s.tileset
    decreases steps
  {
    if steps != [] {
      TilesetStays(Apply(s, steps[0]), steps[1..]);
    }
  }

  lemma InvSyncs(s: State, t: TileId)
    requires Inv(s) && s.scans > 0 && Tracked(s, t) && t !in s.dirty
    ensures Synced(s, t)
  {
  }

  /** Two scans are enough: a file that was touched while the first ran is current after the second. */
  lemma NextScanCatchesUp(s: State, during: seq<Step>, t: TileId)
    requires Inv(s) && Tracked(s, t) && s.phase.Waiting?
    requires IsRun(s, [BeginScan] + during + [Finish]) && Untouched(during, t)
    ensures var s' := After(s, [BeginScan] + during + [Finish]);
            Shows(s'.cache, s'.disk, t)
  {
    hide Inv;
    RunSplits(s, [BeginScan] + during, [Finish]);
    RunSplits(s, [BeginScan], during);
    OneStep(s, BeginScan);
    OneStep(After(s, [BeginScan] + during), Finish);
    UntouchedStays(After(s, [BeginScan]), during, t);
    RunKeepsInv(s, [BeginScan] + during + [Finish]);
    TilesetStays(s, [BeginScan] + during + [Finish]);
    InvSyncs(After(s, [BeginScan] + during + [Finish]), t);
    SyncedShows(After(s, [BeginScan] + during + [Finish]), t);
  }

  // ---------------------------------------------------------------------------------------------
  // Scans can always be completed

  /** The steps of a watcher that nobody disturbs: by every file that is left, and reading it if it is new. */
  lemma {:induction false} ScanGoesOn(s: State) returns (steps: seq<Step>)
    requires s.phase.Scanning? && s.phase.loading.None? && s.due <= s.appeared
    ensures IsRun(s, steps) && Enabled(After(s, steps), Finish)
    ensures forall step | step in steps :: step.Visit? || step.Load?
    decreases s.due - s.phase.seen
  {
    if s.due <= s.phase.seen {
      return [];
    }
    var t :| t in s.due && t !in s.phase.seen;
    var visited := Apply(s, Visit(t));
    if visited.phase.loading.None? {
      var rest := ScanGoesOn(visited);
      steps := [Visit(t)] + rest;
      assert steps[1..] == rest;
    } else {
      var rest := ScanGoesOn(Apply(visited, Load));
      steps := [Visit(t), Load] + rest;
      assert steps[1..][1..] == rest;
    }
  }

  /** From every state between two scans the watcher can complete one. */
  lemma ScanCanComplete(s: State) returns (during: seq<Step>)
    requires s.phase.Waiting?
    ensures IsRun(s, [BeginScan] + during + [Finish]) && forall t :: Untouched(during, t)
    ensures After(s, [BeginScan] + during + [Finish]).phase == Waiting
    ensures After(s, [BeginScan] + during + [Finish]).scans == s.scans + 1
  {
    hide Apply;
    BeginsAtAll(s);
    during := ScanGoesOn(Apply(s, BeginScan));
    FinishCounts(After(Apply(s, BeginScan), during));
    RunJoins(Apply(s, BeginScan), during, [Finish]);
    ScansStay(Apply(s, BeginScan), during);
    assert ([BeginScan] + during + [Finish])[1..] == during + [Finish];
  }

  /** Before the watcher starts, any files may be there that are not from the future. */
  lemma AnyStart(tileset: set<TileId>, disk: map<TileId, File>, clock: nat)
    requires forall t | t in disk :: disk[t].mtime <= clock
    ensures Initial(State(tileset, disk, clock, map t | t in tileset :: None, 0, 0, Waiting, {}, {}, {}, {}))
  {
  }

  /** Whatever time passes, a file can be written, or deleted, and the next scan shows readers what is there. */
  lemma UpdateCanBeShown(s: State, seconds: nat, t: TileId, update: Step) returns (steps: seq<Step>)
    requires Initial(s) && (s.tileset == {} || t in s.tileset)
    requires (update == Delete(t) && t in s.disk) || (update.Write? && update.t == t)
    ensures IsRun(s, [Tick(seconds), update] + steps)
    ensures var cache := After(s, [Tick(seconds), update] + steps).cache;
            && (forall tile | update == Write(t, Incidents(tile)) :: t in cache && cache[t] == Some(tile))
            && (update == Delete(t) || update.content.NoLocations? || update.content.Unparsable? ==>
                  t !in cache || cache[t] == None)
  {
    hide Inv, After;
    var waited := Apply(s, Tick(seconds));
    var during := ScanCanComplete(Apply(waited, update));
    steps := [BeginScan] + during + [Finish];
    var all := [Tick(seconds), update] + steps;
    assert all[1..] == [update] + steps && all[1..][1..] == steps;
    assert [Tick(seconds)] + [update] + [] + [BeginScan] + during + [Finish] + [] == all;
    assert IsRun(waited, all[1..]);
    NoUpdateIsLost(s, [Tick(seconds)], update, t, [], during, []);
  }

  /** Writers and the clock act whenever they like, also during a scan; the watcher begins no scan within another. */
  lemma AnyoneAnytime(s: State, t: TileId, content: Content, seconds: nat)
    ensures Enabled(s, Write(t, content)) && Enabled(s, Tick(seconds)) && (t in s.disk ==> Enabled(s, Delete(t)))
    ensures Enabled(s, BeginScan) <==> s.phase == Waiting
  {
  }

  /** A file that is touched during a scan may be missed by it: the writers never hold up the end of a scan. */
  lemma WritersDoNotHoldUp(s: State, step: Step)
    requires Enabled(s, Finish) && Enabled(s, step) && (step.Write? || step.Delete? || step.Tick?)
    ensures Enabled(Apply(s, step), Finish)
  {
  }

  lemma BeginsAtAll(s: State)
    requires s.phase.Waiting?
    ensures Enabled(s, BeginScan)
    ensures var s' := Apply(s, BeginScan);
            s'.phase.Scanning? && s'.phase.loading.None? && s'.due <= s'.appeared && s'.scans == s.scans
  {
  }

  lemma FinishCounts(s: State)
    requires Enabled(s, Finish)
    ensures IsRun(s, [Finish]) && After(s, [Finish]) == Apply(s, Finish)
    ensures Apply(s, Finish).phase == Waiting && Apply(s, Finish).scans == s.scans + 1
  {
    assert After(Apply(s, Finish), [Finish][1..]) == Apply(s, Finish);
  }

  lemma {:induction false} ScansStay(s: State, steps: seq<Step>)
    requires IsRun(s, steps) && forall step | step in steps :: step.Visit? || step.Load?
    ensures After(s, steps).scans == s.scans
    decreases steps
  {
    if steps != [] {
      ScansStay(Apply(s, steps[0]), steps[1..]);
    }
  }

  lemma {:induction false} RunJoins(s: State, first: seq<Step>, second: seq<Step>)
    requires IsRun(s, first) && IsRun(After(s, first), second)
    ensures IsRun(s, first + second) && After(s, first + second) == After(After(s, first), second)
    decreases first
  {
    hide Apply, Enabled;
    if first == [] {
      assert first + second == second;
    } else {
      assert (first + second)[1..] == first[1..] + second;
      RunJoins(Apply(s, first[0]), first[1..], second);
    }
  }
}
