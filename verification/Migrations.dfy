/** The runner that applies the compliance schema and seed scripts once: its transactions, its runs cut off
    at any statement, and any sequence of runs. */
module Migrations {
  import opened Wrappers

  const CREATE_TABLES: string := "combined_create_tables.sql"
  const SEED: string := "combined_seed.sql"

  const MIGRATIONS: seq<string> := [CREATE_TABLES, SEED]

  predicate IsMigration(name: string) {
    name == CREATE_TABLES || name == SEED
  }

  /** The scripts that were merged into one. */
  function LegacyVersions(merged: string): set<string> {
    if merged == CREATE_TABLES then {"create_table.sql", "create_goods_tables.sql"}
    else if merged == SEED then {"hvnl_seed.sql", "goods_seed.sql"}
    else {}
  }

  /** The database: the rows of the tracking table if there is one, how often each merged script's effects are
      in it, and what is there from whatever script: the profiles table, seeded rows, and goods rows. */
  datatype Database = Database(
    tracking: Option<set<string>>, executed: multiset<string>, hasProfiles: bool, hasRows: bool, hasGoods: bool)

  const EMPTY := Database(None, multiset{}, false, false, false)

  /** A script's effects: the tables or the rows. */
  function Executed(db: Database, name: string): Database {
    db.(executed := db.executed[name := db.executed[name] + 1],
        hasProfiles := db.hasProfiles || name == CREATE_TABLES,
        hasRows := db.hasRows || name == SEED,
        hasGoods := db.hasGoods || name == SEED)
  }

  /** The table script can be executed again; the seed is plain INSERTs and fails on the primary keys of rows
      that are there. `failing` are the scripts that fail for reasons of their own. */
  predicate Fails(db: Database, name: string, failing: set<string>) {
    name in failing || (name == SEED && db.hasRows)
  }

  /** The merged names that the recorded older versions cover. */
  function LegacyApplied(versions: set<string>): set<string> {
    set name | name in {CREATE_TABLES, SEED} && name !in versions && LegacyVersions(name) <= versions
  }

  /** A file counts as applied if it is recorded or if everything it was merged from is. */
  predicate Covered(name: string, versions: set<string>) {
    name in versions || (IsMigration(name) && LegacyVersions(name) <= versions)
  }

  /** What an untracked database made by the setup script is taken to have. */
  function Adopted(db: Database): set<string> {
    {CREATE_TABLES, SEED} + (if db.hasGoods then {"create_goods_tables.sql", "goods_seed.sql"} else {})
  }

  // ---------------------------------------------------------------------------------------------
  // What runs keep

  /** Of a database that started empty: a script's effects are there exactly if its name is recorded, and then
      once; the seed only after the tables. */
  ghost predicate ExactlyOnce(db: Database) {
    match db.tracking
    case None => db == EMPTY
    case Some(versions) =>
      && (forall name | name in versions :: IsMigration(name))
      && (forall name :: db.executed[name] == if name in versions then 1 else 0)
      && (SEED in versions ==> CREATE_TABLES in versions)
      && (db.hasProfiles ==> CREATE_TABLES in versions)
      && (db.hasRows <==> SEED in versions)
  }

  /** From one tracked state to a later one without a reset: files that were covered stay unexecuted, the others
      are executed exactly if they are recorded now, and nothing else changes. */
  ghost predicate Since(db: Database, db': Database) {
    && db.tracking.Some? && db'.tracking.Some?
    && var (before, after) := (db.tracking.value, db'.tracking.value);
    && before <= after && (forall name | name in after && name !in before :: IsMigration(name))
    && (forall name :: db'.executed[name] ==
          db.executed[name] + if IsMigration(name) && !Covered(name, before) && name in after then 1 else 0)
  }

  lemma SinceIsTransitive(a: Database, b: Database, c: Database)
    requires Since(a, b) && Since(b, c)
    ensures Since(a, c)
  {
    var before, middle, after := a.tracking.value, b.tracking.value, c.tracking.value;
    forall name | IsMigration(name)
      ensures c.executed[name] == a.executed[name] + if !Covered(name, before) && name in after then 1 else 0
    {
      CoveredStays(name, before, middle);
    }
  }

  /** Recording merged names covers no file that was not covered or recorded itself. */
  lemma CoveredStays(name: string, before: set<string>, middle: set<string>)
    requires IsMigration(name) && before <= middle
    requires forall n | n in middle && n !in before :: IsMigration(n)
    ensures Covered(name, middle) <==> Covered(name, before) || name in middle
  {
    LegacyNamesAreOld(name);
    if LegacyVersions(name) <= middle {
      forall n | n in LegacyVersions(name) ensures n in before {}
    }
  }

  lemma LegacyNamesAreOld(name: string)
    ensures forall n | n in LegacyVersions(name) :: !IsMigration(n)
  {
    assert |"create_table.sql"| != |CREATE_TABLES| && |"create_goods_tables.sql"| != |CREATE_TABLES|;
    assert |"hvnl_seed.sql"| != |SEED| && |"goods_seed.sql"| != |SEED|;
    assert |"create_table.sql"| != |SEED| && |"create_goods_tables.sql"| != |SEED|;
    assert |"hvnl_seed.sql"| != |CREATE_TABLES| && |"goods_seed.sql"| != |CREATE_TABLES|;
  }

  // ---------------------------------------------------------------------------------------------
  // A run

  datatype Outcome = UpToDate | DryRun | CutOff | ScriptFailed

  /** No run needs more statements. */
  const ENOUGH: nat := 16

  /** A connection: what is committed, what the open transaction sees, and how many more statements are run
      before the process is cut off. */
  class Connection {
    var committed: Database
    var working: Database
    var budget: nat

    constructor (db: Database, budget: nat)
      ensures committed == working == db && this.budget == budget
    {
      committed, working, this.budget := db, db, budget;
    }

    /** One more statement, unless the process is cut off before it. */
    method Alive() returns (alive: bool)
      modifies this`budget
      ensures alive <==> old(budget) > 0
      ensures alive ==> budget == old(budget) - 1
    {
      alive := budget > 0;
      if alive {
        budget := budget - 1;
      }
    }

    method Commit() returns (alive: bool)
      modifies this`budget, this`committed
      ensures committed == if alive then working else old(committed)
      ensures (alive <==> old(budget) >= 1) && (alive ==> budget == old(budget) - 1)
    {
      alive := Alive();
      if alive {
        committed := working;
      }
    }

    /** --reset. */
    method Reset() returns (alive: bool)
      requires working == committed
      modifies this
      ensures alive <==> old(budget) >= 2
      ensures if alive then committed == working == EMPTY && budget == old(budget) - 2
              else committed == old(committed)
    {
      alive := Alive();
      if !alive { return; }
      working := EMPTY;
      alive := Commit();
    }

    /** Creates the schema and the tracking table, in a transaction of their own. */
    method EnsureTracking() returns (alive: bool, hadTracking: bool)
      requires working == committed
      modifies this
      ensures alive <==> old(budget) >= 4
      ensures if alive then committed == working == Tracked(old(committed)) && budget == old(budget) - 4
              else committed == old(committed)
      ensures alive ==> hadTracking == old(committed).tracking.Some?
    {
      hadTracking := false;
      alive := Alive();  // CREATE SCHEMA
      if !alive { return; }
      alive := Alive();  // to_regclass
      if !alive { return; }
      hadTracking := working.tracking.Some?;
      alive := Alive();  // CREATE TABLE IF NOT EXISTS
      if !alive { return; }
      working := Tracked(working);
      alive := Commit();
    }

    /** INSERT ... ON CONFLICT DO NOTHING. */
    method Record(names: set<string>) returns (alive: bool)
      requires working == committed && working.tracking.Some?
      modifies this
      ensures alive <==> old(budget) >= 2
      ensures if alive then committed == working == Recorded(old(committed), names) && budget == old(budget) - 2
              else committed == old(committed)
    {
      alive := Alive();
      if !alive { return; }
      working := Recorded(working, names);
      alive := Commit();
    }

    /** Finds out what counts as applied, and records it where the history is older than the merged files. */
    method FindApplied(hadTracking: bool) returns (alive: bool, applied: set<string>)
      requires working == committed && working.tracking.Some? && (!hadTracking ==> working.tracking.value == {})
      modifies this
      ensures alive <==> old(budget) >= Statements(old(committed), hadTracking)
      ensures alive ==>
        && committed == working == Recorded(old(committed), OnRecord(old(committed), hadTracking))
        && applied == committed.tracking.value
        && budget == old(budget) - Statements(old(committed), hadTracking)
      ensures !alive ==> committed == old(committed)
    {
      applied := {};
      RecordNothing(committed);
      alive := Alive();  // SELECT version, or to_regclass
      if !alive { return; }
      if hadTracking {
        applied := working.tracking.value;
        var legacyApplied := LegacyApplied(applied);
        if legacyApplied != {} {
          alive := Record(legacyApplied);
          applied := applied + legacyApplied;
        }
      } else if working.hasProfiles {
        applied := applied + {CREATE_TABLES, SEED};
        alive := Alive();  // to_regclass and count
        if !alive { return; }
        if working.hasGoods {
          applied := applied + {"create_goods_tables.sql", "goods_seed.sql"};
        }
        assert applied == Adopted(working);
        alive := Record(applied);
      }
    }

    /** One file, with its record, in a transaction; a failing script is rolled back. */
    method Apply(name: string, failing: set<string>) returns (outcome: Outcome)
      requires working == committed && working.tracking.Some?
      modifies this
      ensures var r := AfterApply(old(committed), name, old(budget), failing);
              committed == r.db && outcome == r.outcome
      ensures outcome == UpToDate ==> working == committed && budget == old(budget) - 3
    {
      var alive := Alive();
      if !alive { return CutOff; }
      if Fails(working, name, failing) {
        working := committed;
        return ScriptFailed;
      }
      working := Executed(working, name);
      alive := Alive();
      if !alive { return CutOff; }
      working := Recorded(working, {name});
      alive := Commit();
      outcome := if alive then UpToDate else CutOff;
    }

    /** The loop over the files that do not count as applied. */
    method ApplyAll(applied: set<string>, failing: set<string>) returns (outcome: Outcome)
      requires working == committed && working.tracking.Some?
      modifies this
      ensures Ended(committed, outcome) == AfterFiles(old(committed), applied, old(budget), failing, 0)
    {
      outcome := UpToDate;
      for i := 0 to |MIGRATIONS|
        invariant outcome == UpToDate && working == committed && working.tracking.Some?
        invariant AfterFiles(committed, applied, budget, failing, i) ==
                  AfterFiles(old(committed), applied, old(budget), failing, 0)
      {
        hide Fails, Executed;
        var name := MIGRATIONS[i];
        if name in applied {
          continue;
        }
        outcome := Apply(name, failing);
        if outcome != UpToDate { return; }
      }
    }

    /** One run, up to wherever it is cut off. */
    method Migrate(reset: bool, dryRun: bool, failing: set<string>) returns (outcome: Outcome)
      requires working == committed
      modifies this
      ensures Ended(committed, outcome) == RunResult(old(committed), Run(reset, dryRun, old(budget), failing))
    {
      hide AfterFiles, OnRecord, Statements;
      var alive := true;
      if reset && !dryRun {
        alive := Reset();
        if !alive { return CutOff; }
      }
      if dryRun {
        return DryRun;
      }
      var hadTracking: bool;
      alive, hadTracking := EnsureTracking();
      if !alive { return CutOff; }
      var applied: set<string>;
      alive, applied := FindApplied(hadTracking);
      if !alive { return CutOff; }
      outcome := ApplyAll(applied, failing);
    }
  }

  function Tracked(db: Database): Database {
    if db.tracking == None then db.(tracking := Some({})) else db
  }

  function Recorded(db: Database, names: set<string>): Database
    requires db.tracking.Some?
  {
    db.(tracking := Some(db.tracking.value + names))
  }

  lemma RecordNothing(db: Database)
    requires db.tracking.Some?
    ensures Recorded(db, {}) == db
  {
    assert db.tracking.value + {} == db.tracking.value;
  }

  /** The names that are recorded before any file is applied. */
  function OnRecord(db: Database, hadTracking: bool): set<string>
    requires db.tracking.Some?
  {
    if hadTracking then LegacyApplied(db.tracking.value)
    else if db.hasProfiles then Adopted(db)
    else {}
  }

  /** How many statements finding that out and recording it takes. */
  function Statements(db: Database, hadTracking: bool): nat
    requires db.tracking.Some?
  {
    if hadTracking then if LegacyApplied(db.tracking.value) == {} then 1 else 3
    else if db.hasProfiles then 4
    else 1
  }

  // ---------------------------------------------------------------------------------------------
  // What a run amounts to

  /** Whether the schemas are dropped first, whether nothing is to be done, how many statements are run before
      the process is cut off, and which scripts fail for reasons of their own. */
  datatype Run = Run(reset: bool, dryRun: bool, budget: nat, failing: set<string>)

  datatype RunEnd = Ended(db: Database, outcome: Outcome)

  function AfterApply(db: Database, name: string, budget: nat, failing: set<string>): RunEnd
    requires db.tracking.Some?
  {
    if budget == 0 then Ended(db, CutOff)
    else if Fails(db, name, failing) then Ended(db, ScriptFailed)
    else if budget < 3 then Ended(db, CutOff)
    else Ended(Recorded(Executed(db, name), {name}), UpToDate)
  }

  function AfterFiles(db: Database, applied: set<string>, budget: nat, failing: set<string>, i: nat): RunEnd
    requires db.tracking.Some? && i <= |MIGRATIONS|
    decreases |MIGRATIONS| - i
  {
    if i == |MIGRATIONS| then Ended(db, UpToDate)
    else if MIGRATIONS[i] in applied then AfterFiles(db, applied, budget, failing, i + 1)
    else
      var r := AfterApply(db, MIGRATIONS[i], budget, failing);
      if r.outcome != UpToDate then r else AfterFiles(r.db, applied, budget - 3, failing, i + 1)
  }

  function RunResult(db: Database, run: Run): RunEnd {
    if run.dryRun then Ended(db, DryRun)
    else if run.reset && run.budget < 2 then Ended(db, CutOff)
    else
      var start := if run.reset then EMPTY else db;
      var budget := if run.reset then run.budget - 2 else run.budget;
      if budget < 4 then Ended(start, CutOff)
      else
        var tracked := Tracked(start);
        var statements := Statements(tracked, start.tracking.Some?);
        if budget - 4 < statements then Ended(tracked, CutOff)
        else
          var recorded := Recorded(tracked, OnRecord(tracked, start.tracking.Some?));
          AfterFiles(recorded, recorded.tracking.value, budget - 4 - statements, run.failing, 0)
  }

  // ---------------------------------------------------------------------------------------------
  // Each transaction keeps the invariants

  lemma ApplyKeepsExactlyOnce(db: Database, name: string)
    requires ExactlyOnce(db) && db.tracking.Some? && IsMigration(name) && name !in db.tracking.value
    requires name == SEED ==> CREATE_TABLES in db.tracking.value
    ensures ExactlyOnce(Recorded(Executed(db, name), {name}))
  {
  }

  lemma NothingCoveredFromEmpty(db: Database)
    requires ExactlyOnce(db) && db.tracking.Some?
    ensures LegacyApplied(db.tracking.value) == {}
  {
    var versions := db.tracking.value;
    LegacyNamesAreOld(CREATE_TABLES);
    LegacyNamesAreOld(SEED);
    forall name | name in {CREATE_TABLES, SEED}
      ensures !(LegacyVersions(name) <= versions)
    {
      if name == CREATE_TABLES { assert "create_table.sql" in LegacyVersions(name); }
      else { assert "hvnl_seed.sql" in LegacyVersions(name); }
    }
  }

  lemma RecordingCoveredIsSince(db: Database)
    requires db.tracking.Some?
    ensures Since(db, Recorded(db, LegacyApplied(db.tracking.value)))
  {
  }

  lemma ApplyIsSince(db: Database, name: string)
    requires db.tracking.Some? && IsMigration(name) && !Covered(name, db.tracking.value)
    ensures Since(db, Recorded(Executed(db, name), {name}))
  {
  }

  // ---------------------------------------------------------------------------------------------
  // The phases of a run

  /** A database of the older setup script: it has the tables and their rows but no history. */
  predicate MadeBySetup(db: Database) {
    db.tracking == None && db.hasProfiles && db.hasRows
  }

  /** Untouched, with an empty history, or adopted; nothing is executed. */
  ghost predicate Adopting(db: Database, db': Database) {
    db' == db || db' == db.(tracking := Some({})) || db' == db.(tracking := Some(Adopted(db)))
  }

  lemma EmptyIsExactlyOnce()
    ensures ExactlyOnce(EMPTY)
  {
  }

  lemma SinceItself(db: Database)
    requires db.tracking.Some?
    ensures Since(db, db)
  {
  }

  lemma TrackingKeeps(db: Database)
    ensures ExactlyOnce(db) ==> ExactlyOnce(Tracked(db))
    ensures db.tracking.Some? ==> Since(db, Tracked(db))
    ensures MadeBySetup(db) ==> Adopting(db, Tracked(db))
  {
  }

  lemma RecordingKeeps(db: Database, hadTracking: bool)
    requires hadTracking == db.tracking.Some?
    ensures var recorded := Recorded(Tracked(db), OnRecord(Tracked(db), hadTracking));
            && (ExactlyOnce(db) ==> ExactlyOnce(recorded))
            && (db.tracking.Some? ==> Since(db, recorded))
            && (MadeBySetup(db) ==> recorded == db.(tracking := Some(Adopted(db))))
  {
    if hadTracking {
      RecordingCoveredIsSince(db);
      if ExactlyOnce(db) {
        NothingCoveredFromEmpty(db);
        RecordNothing(db);
      }
    } else {
      assert {} + Adopted(db) == Adopted(db);
      RecordNothing(Tracked(db));
    }
  }

  function FilesBefore(i: nat): set<string>
    requires i <= 2
  {
    if i == 0 then {} else if i == 1 then {CREATE_TABLES} else {CREATE_TABLES, SEED}
  }

  /** The committed state of a run that started in `start`, with the first `i` files dealt with. */
  ghost predicate RunState(start: Database, applied: set<string>, db: Database, i: nat)
    requires i <= 2
  {
    && db.tracking == Some(applied + FilesBefore(i))
    && (ExactlyOnce(start) ==> ExactlyOnce(db))
    && (start.tracking.Some? ==>
          && Since(start, db)
          && forall name | IsMigration(name) && name !in applied :: !Covered(name, start.tracking.value))
    && (MadeBySetup(start) ==>
          && {CREATE_TABLES, SEED} <= applied
          && db == start.(tracking := Some(Adopted(start))))
  }

  lemma RunStateStart(start: Database, hadTracking: bool, applied: set<string>)
    requires hadTracking == start.tracking.Some?
    requires var recorded := Recorded(Tracked(start), OnRecord(Tracked(start), hadTracking));
             applied == recorded.tracking.value
    ensures RunState(start, applied, Recorded(Tracked(start), OnRecord(Tracked(start), hadTracking)), 0)
  {
    RecordingKeeps(start, hadTracking);
    assert applied + FilesBefore(0) == applied;
    hide Since, ExactlyOnce;
    if hadTracking {
      forall name | IsMigration(name) && name !in applied
        ensures !Covered(name, start.tracking.value)
      {
        assert name !in LegacyApplied(start.tracking.value);
      }
    }
  }

  /** Skipping an applied file, or applying another one, leads to the next state. */
  lemma RunStateStep(start: Database, applied: set<string>, db: Database, i: nat)
    requires i < 2 && RunState(start, applied, db, i)
    ensures db.tracking.Some?
    ensures MIGRATIONS[i] in applied ==> RunState(start, applied, db, i + 1)
    ensures MIGRATIONS[i] !in applied ==>
      RunState(start, applied, Recorded(Executed(db, MIGRATIONS[i]), {MIGRATIONS[i]}), i + 1)
  {
    var name := MIGRATIONS[i];
    assert applied + FilesBefore(i + 1) == applied + FilesBefore(i) + {name};
    if name in applied {
      assert applied + FilesBefore(i + 1) == applied + FilesBefore(i);
    } else {
      if ExactlyOnce(start) {
        ApplyKeepsExactlyOnce(db, name);
      }
      if start.tracking.Some? {
        CoveredStays(name, start.tracking.value, db.tracking.value);
        ApplyIsSince(db, name);
        SinceIsTransitive(start, db, Recorded(Executed(db, name), {name}));
      }
    }
    hide Since, ExactlyOnce, Covered, Executed;
  }

  lemma RunStateKeeps(start: Database, applied: set<string>, db: Database, i: nat)
    requires i <= 2 && RunState(start, applied, db, i)
    ensures ExactlyOnce(start) ==> ExactlyOnce(db)
    ensures start.tracking.Some? ==> Since(start, db)
    ensures MadeBySetup(start) ==> Adopting(start, db) && db.tracking == Some(Adopted(start))
    ensures i == 2 ==> db.tracking.Some? && {CREATE_TABLES, SEED} <= db.tracking.value
  {
    hide Since, ExactlyOnce, Covered;
  }

  lemma FilesKeepRunState(start: Database, applied: set<string>, db: Database, budget: nat, failing: set<string>,
                          i: nat)
    returns (j: nat)
    requires i <= 2 && RunState(start, applied, db, i)
    ensures db.tracking.Some? && i <= j <= 2
    ensures var r := AfterFiles(db, applied, budget, failing, i);
            RunState(start, applied, r.db, j) && (r.outcome == UpToDate ==> j == 2)
    decreases 2 - i
  {
    hide RunState, Fails, Executed;
    assert db.tracking.Some? by { RunStateTracks(start, applied, db, i); }
    j := i;
    if i < 2 {
      RunStateStep(start, applied, db, i);
      if MIGRATIONS[i] in applied {
        j := FilesKeepRunState(start, applied, db, budget, failing, i + 1);
      } else {
        var r := AfterApply(db, MIGRATIONS[i], budget, failing);
        if r.outcome == UpToDate {
          j := FilesKeepRunState(start, applied, r.db, budget - 3, failing, i + 1);
        }
      }
    }
  }

  lemma RunStateTracks(start: Database, applied: set<string>, db: Database, i: nat)
    requires i <= 2 && RunState(start, applied, db, i)
    ensures db.tracking.Some?
  {
  }

  /** One run, cut off anywhere. A dry run changes nothing. On a database that started empty every script's
      effects stay tied to its record; on a tracked one the covered files stay unexecuted; a completed run has
      both files on record; and a database of the setup script is adopted without executing anything. */
  lemma RunKeeps(db: Database, run: Run)
    ensures var r := RunResult(db, run);
            && (run.dryRun ==> r.db == db)
            && (ExactlyOnce(db) ==> ExactlyOnce(r.db))
            && (run.reset ==> r.db == db || ExactlyOnce(r.db))
            && (!run.reset && db.tracking.Some? ==> Since(db, r.db))
            && (r.outcome == UpToDate ==> r.db.tracking.Some? && {CREATE_TABLES, SEED} <= r.db.tracking.value)
            && (!run.reset && MadeBySetup(db) ==> Adopting(db, r.db))
  {
    hide Since, ExactlyOnce, OnRecord, Statements, RunState, Adopting, AfterFiles;
    EmptyIsExactlyOnce();
    if db.tracking.Some? { SinceItself(db); }
    AdoptingItself(db);
    var start := if run.reset then EMPTY else db;
    var had := start.tracking.Some?;
    TrackingKeeps(start);
    var tracked := Tracked(start);
    var recorded := Recorded(tracked, OnRecord(tracked, had));
    RunStateStart(start, had, recorded.tracking.value);
    if !run.dryRun && !(run.reset && run.budget < 2) {
      var budget := if run.reset then run.budget - 2 else run.budget;
      var statements := Statements(tracked, had);
      if budget >= 4 && budget - 4 >= statements {
        var j := FilesKeepRunState(start, recorded.tracking.value, recorded, budget - 4 - statements, run.failing, 0);
        RunStateKeeps(start, recorded.tracking.value, RunResult(db, run).db, j);
      }
    }
  }

  lemma AdoptingItself(db: Database)
    ensures Adopting(db, db)
  {
  }

  // ---------------------------------------------------------------------------------------------
  // The seed's rows

  /** The seed was executed at most once, and only where there were no rows. */
  ghost predicate RowsOnce(db: Database) {
    db.executed[SEED] <= if db.hasRows then 1 else 0
  }

  lemma {:induction false} FilesKeepRows(db: Database, applied: set<string>, budget: nat, failing: set<string>, i: nat)
    requires db.tracking.Some? && i <= 2
    ensures var r := AfterFiles(db, applied, budget, failing, i).db;
            && (RowsOnce(db) ==> RowsOnce(r))
            && (db.hasRows ==> r.hasRows && r.executed[SEED] == db.executed[SEED])
    decreases 2 - i
  {
    if i < 2 {
      if MIGRATIONS[i] in applied {
        FilesKeepRows(db, applied, budget, failing, i + 1);
      } else {
        var r := AfterApply(db, MIGRATIONS[i], budget, failing);
        if r.outcome == UpToDate {
          FilesKeepRows(r.db, applied, budget - 3, failing, i + 1);
        }
      }
    }
  }

  /** From any start, rows are never seeded twice: where there are some, no run executes the seed until the
      schemas are dropped. */
  lemma RowsAreSeededOnce(db: Database, run: Run)
    ensures var r := RunResult(db, run).db;
            && (RowsOnce(db) ==> RowsOnce(r))
            && (db.hasRows && !run.reset ==> r.hasRows && r.executed[SEED] == db.executed[SEED])
  {
    hide AfterFiles, OnRecord, Statements;
    var start := if run.reset then EMPTY else db;
    var tracked := Tracked(start);
    var recorded := Recorded(tracked, OnRecord(tracked, start.tracking.Some?));
    if !run.dryRun && !(run.reset && run.budget < 2) {
      var budget := if run.reset then run.budget - 2 else run.budget;
      var statements := Statements(tracked, start.tracking.Some?);
      if budget >= 4 && budget - 4 >= statements {
        FilesKeepRows(recorded, recorded.tracking.value, budget - 4 - statements, run.failing, 0);
      }
    }
  }

  // ---------------------------------------------------------------------------------------------
  // Databases that can never come up to date

  /** A run will have to execute the seed: it is not covered, and there is no setup script's database to adopt. */
  predicate NeedsSeed(db: Database) {
    match db.tracking
    case None => !db.hasProfiles
    case Some(versions) => !Covered(SEED, versions)
  }

  /** But its rows are there already. */
  predicate Stuck(db: Database) {
    NeedsSeed(db) && db.hasRows
  }

  lemma SeedNotRecorded(versions: set<string>)
    ensures SEED in versions + LegacyApplied(versions) <==> Covered(SEED, versions)
  {
  }

  /** A stuck database fails on the seed, or earlier, in every run that does not drop it, and stays stuck. */
  lemma StuckStays(db: Database, run: Run)
    requires Stuck(db) && !run.reset
    ensures Stuck(RunResult(db, run).db) && RunResult(db, run).outcome != UpToDate
  {
    var tracked := Tracked(db);
    var had := db.tracking.Some?;
    SeedNotRecorded(tracked.tracking.value);
    LegacyNamesAreOld(SEED);
    var recorded := Recorded(tracked, OnRecord(tracked, had));
    var applied := recorded.tracking.value;
    assert SEED !in applied;
    StaysUncovered(tracked.tracking.value, OnRecord(tracked, had));
    StaysUncovered(applied, {CREATE_TABLES});
  }

  lemma StaysUncovered(versions: set<string>, more: set<string>)
    requires !Covered(SEED, versions) && more <= {CREATE_TABLES, SEED} && SEED !in more
    ensures !Covered(SEED, versions + more)
  {
    LegacyNamesAreOld(SEED);
  }

  const UNDISTURBED := Run(false, false, ENOUGH, {})

  /** Any other database comes up to date in one undisturbed run. */
  lemma CompletesIfNotStuck(db: Database)
    requires !Stuck(db)
    ensures RunResult(db, UNDISTURBED).outcome == UpToDate
  {
    var tracked := Tracked(db);
    SeedNotRecorded(tracked.tracking.value);
  }

  predicate WithoutReset(runs: seq<Run>) {
    forall run | run in runs :: !run.reset
  }

  function AfterRuns(db: Database, runs: seq<Run>): Database {
    if runs == [] then db else RunResult(AfterRuns(db, runs[..|runs| - 1]), runs[|runs| - 1]).db
  }

  /** Some sequence of runs without a reset ends with the database up to date. */
  ghost predicate CanComeUp(db: Database) {
    exists runs, last :: ComesUp(db, runs, last)
  }

  ghost predicate ComesUp(db: Database, runs: seq<Run>, last: Run) {
    WithoutReset(runs) && !last.reset && RunResult(AfterRuns(db, runs), last).outcome == UpToDate
  }

  lemma {:induction false} StuckForever(db: Database, runs: seq<Run>)
    requires Stuck(db) && WithoutReset(runs)
    ensures Stuck(AfterRuns(db, runs))
  {
    hide RunResult, Stuck;
    if runs != [] {
      assert runs[|runs| - 1] in runs && forall run | run in runs[..|runs| - 1] :: run in runs;
      StuckForever(db, runs[..|runs| - 1]);
      StuckStays(AfterRuns(db, runs[..|runs| - 1]), runs[|runs| - 1]);
    }
  }

  /** A database can come up to date without a reset exactly if it is not stuck. */
  lemma CanComeUpIffNotStuck(db: Database)
    ensures CanComeUp(db) <==> !Stuck(db)
  {
    hide RunResult, Stuck;
    if Stuck(db) {
      forall runs, last
        ensures !ComesUp(db, runs, last)
      {
        if WithoutReset(runs) && !last.reset {
          StuckForever(db, runs);
          StuckStays(AfterRuns(db, runs), last);
        }
      }
    } else {
      CompletesIfNotStuck(db);
      assert ComesUp(db, [], UNDISTURBED);
    }
  }

  /** So a database that tracks only one of the two older seeds, with its rows, is stuck: the merged seed counts
      as applied only with both. */
  lemma PartlySeededIsStuck(db: Database)
    requires db.tracking.Some? && db.hasRows && SEED !in db.tracking.value
    requires "hvnl_seed.sql" !in db.tracking.value || "goods_seed.sql" !in db.tracking.value
    ensures !CanComeUp(db)
  {
    assert "hvnl_seed.sql" in LegacyVersions(SEED) && "goods_seed.sql" in LegacyVersions(SEED);
    CanComeUpIffNotStuck(db);
  }

  /** A database that started empty is never stuck, whatever runs it has seen. */
  lemma FromEmptyNeverStuck(db: Database)
    requires ExactlyOnce(db)
    ensures CanComeUp(db)
  {
    if db.tracking.Some? {
      NothingCoveredFromEmpty(db);
      SeedNotRecorded(db.tracking.value);
      assert db.tracking.value + {} == db.tracking.value;
    }
    CanComeUpIffNotStuck(db);
  }

  /** Any runs on an empty database, with or without resets and cut off anywhere, leave one that can come up. */
  lemma {:induction false} EmptyAlwaysComesUp(runs: seq<Run>)
    ensures ExactlyOnce(AfterRuns(EMPTY, runs)) && CanComeUp(AfterRuns(EMPTY, runs))
  {
    hide RunResult, ExactlyOnce, CanComeUp;
    if runs == [] {
      EmptyIsExactlyOnce();
    } else {
      EmptyAlwaysComesUp(runs[..|runs| - 1]);
      RunKeeps(AfterRuns(EMPTY, runs[..|runs| - 1]), runs[|runs| - 1]);
    }
    FromEmptyNeverStuck(AfterRuns(EMPTY, runs));
  }

  /** A database of the setup script can still come up to date after its first run exactly if that run was not
      cut off between the transaction of the tracking table and that of the adoption. */
  lemma SetupComesUpIffNotCutBetween(db: Database, run: Run)
    requires MadeBySetup(db) && !run.reset && !run.dryRun
    ensures CanComeUp(RunResult(db, run).db) <==> !(4 <= run.budget < 8)
  {
    SetupRun(db, run);
    CanComeUpIffNotStuck(RunResult(db, run).db);
    assert "hvnl_seed.sql" in LegacyVersions(SEED);
  }

  /** What the first run leaves of the history of such a database. */
  lemma SetupRun(db: Database, run: Run)
    requires MadeBySetup(db) && !run.reset && !run.dryRun
    ensures RunResult(db, run).db ==
              db.(tracking := if run.budget < 4 then None else if run.budget < 8 then Some({}) else Some(Adopted(db)))
  {
    assert {} + Adopted(db) == Adopted(db);
  }

  /** The case is reached. Cut off after four statements, a database with the tables and rows has its tables
      created once more by the next run, and that run fails on the seed, as will every later one. */
  method AdoptionCutOff() returns (db: Database, outcome: Outcome)
    ensures outcome == ScriptFailed && db.executed[CREATE_TABLES] == 1 && db.executed[SEED] == 0
    ensures !CanComeUp(db)
  {
    var setup := Database(None, multiset{}, true, true, true);
    var first := new Connection(setup, 4);
    outcome := first.Migrate(false, false, {});
    var second := new Connection(first.committed, ENOUGH);
    ghost var before := first.committed;
    outcome := second.Migrate(false, false, {});
    db := second.committed;
    SetupRun(setup, Run(false, false, 4, {}));
    StuckStays(before, UNDISTURBED);
    CanComeUpIffNotStuck(db);
    assert "create_table.sql" in LegacyVersions(CREATE_TABLES) && "hvnl_seed.sql" in LegacyVersions(SEED);
  }

  // ---------------------------------------------------------------------------------------------
  // Any sequence of runs

  /** Any sequence of runs, each on a connection of its own and cut off anywhere. */
  method RunAll(first: Database, runs: seq<Run>) returns (db: Database, outcomes: seq<Outcome>)
    ensures db == AfterRuns(first, runs)
    ensures ExactlyOnce(first) ==> ExactlyOnce(db)
    ensures RowsOnce(first) ==> RowsOnce(db)
    ensures first.tracking.Some? && WithoutReset(runs) ==> Since(first, db)
    ensures |outcomes| == |runs|
    ensures |runs| > 0 && outcomes[|runs| - 1] == UpToDate ==>
      db.tracking.Some? && {CREATE_TABLES, SEED} <= db.tracking.value
  {
    hide ExactlyOnce, Since, Adopting, RunResult, RowsOnce;
    db, outcomes := first, [];
    if first.tracking.Some? { SinceItself(first); }
    for i := 0 to |runs|
      invariant |outcomes| == i && db == AfterRuns(first, runs[..i])
      invariant ExactlyOnce(first) ==> ExactlyOnce(db)
      invariant RowsOnce(first) ==> RowsOnce(db)
      invariant first.tracking.Some? && WithoutReset(runs) ==> db.tracking.Some? && Since(first, db)
      invariant i > 0 && outcomes[i - 1] == UpToDate ==>
        db.tracking.Some? && {CREATE_TABLES, SEED} <= db.tracking.value
    {
      var run := runs[i];
      assert run in runs && runs[..i + 1][..i] == runs[..i];
      ghost var before := db;
      var connection := new Connection(db, run.budget);
      var outcome := connection.Migrate(run.reset, run.dryRun, run.failing);
      db := connection.committed;
      RunKeeps(before, run);
      RowsAreSeededOnce(before, run);
      if first.tracking.Some? && WithoutReset(runs) {
        SinceIsTracked(before, db);
        SinceIsTransitive(first, before, db);
      }
      outcomes := outcomes + [outcome];
    }
    assert runs[..|runs|] == runs;
  }

  lemma SinceIsTracked(db: Database, db': Database)
    requires Since(db, db')
    ensures db'.tracking.Some?
  {
  }

  /** A database that tracks all four names from before the merge never executes a merged file. */
  lemma LegacyNeverExecutes(db: Database, db': Database)
    requires Since(db, db')
    requires {"create_table.sql", "create_goods_tables.sql", "hvnl_seed.sql", "goods_seed.sql"} <= db.tracking.value
    ensures db'.executed == db.executed
  {
    assert forall name :: db'.executed[name] == db.executed[name];
  }

  // ---------------------------------------------------------------------------------------------
  // What a run does, by the names of the files

  /** The merged file is on record, or both files that it was merged from are. */
  predicate CountsAsApplied(versions: set<string>, merged: string, one: string, other: string) {
    merged in versions || (one in versions && other in versions)
  }

  lemma OnceMore(executed: multiset<string>, name: string)
    ensures executed[name := executed[name] + 1] == executed + multiset{name}
  {
  }

  /** The files that are not on record, executed one after the other. */
  lemma FilesDone(db: Database, budget: nat)
    requires db.tracking.Some?
    requires budget >= (if "combined_create_tables.sql" in db.tracking.value then 0 else 3)
                     + (if "combined_seed.sql" in db.tracking.value then 0 else 3)
    requires db.hasRows ==> "combined_seed.sql" in db.tracking.value
    ensures var versions := db.tracking.value;
            var tables, seed := "combined_create_tables.sql" in versions, "combined_seed.sql" in versions;
            var r := AfterFiles(db, versions, budget, {}, 0);
            && r.outcome == UpToDate
            && r.db.tracking == Some(versions + {"combined_create_tables.sql", "combined_seed.sql"})
            && r.db.executed == db.executed + (if tables then multiset{} else multiset{"combined_create_tables.sql"})
                                            + (if seed then multiset{} else multiset{"combined_seed.sql"})
            && r.db.hasProfiles == (db.hasProfiles || !tables)
            && r.db.hasRows == (db.hasRows || !seed) && r.db.hasGoods == (db.hasGoods || !seed)
  {
    var versions := db.tracking.value;
    var middle := if CREATE_TABLES in versions then db else Recorded(Executed(db, CREATE_TABLES), {CREATE_TABLES});
    var b := if CREATE_TABLES in versions then budget else budget - 3;
    OnceMore(db.executed, CREATE_TABLES);
    OnceMore(middle.executed, SEED);
    assert |CREATE_TABLES| != |SEED|;
    assert AfterFiles(db, versions, budget, {}, 0) == AfterFiles(middle, versions, b, {}, 1);
    var last := if SEED in versions then middle else Recorded(Executed(middle, SEED), {SEED});
    assert AfterFiles(middle, versions, b, {}, 1) == Ended(last, UpToDate);
    BothAdded(versions);
    assert last.tracking == Some(versions + {CREATE_TABLES, SEED});
  }

  lemma BothAdded(versions: set<string>)
    ensures versions + {CREATE_TABLES} + {SEED} == versions + {CREATE_TABLES, SEED}
    ensures CREATE_TABLES in versions ==> versions + {SEED} == versions + {CREATE_TABLES, SEED}
    ensures SEED in versions ==> versions + {CREATE_TABLES} == versions + {CREATE_TABLES, SEED}
    ensures CREATE_TABLES in versions && SEED in versions ==> versions == versions + {CREATE_TABLES, SEED}
  {
  }

  /** A run that nothing disturbs. Without a history it adopts a database that has the profiles table, and executes
      both files on any other. With one it executes each file that is not on record itself or by its older names. */
  lemma UndisturbedRun(db: Database, budget: nat)
    requires budget >= 11 && (db.tracking == None && !db.hasProfiles ==> !db.hasRows)
    requires db.tracking.Some? && db.hasRows ==>
               CountsAsApplied(db.tracking.value, "combined_seed.sql", "hvnl_seed.sql", "goods_seed.sql")
    ensures RunResult(db, Run(false, false, budget, {})).outcome == UpToDate
    ensures var r := RunResult(db, Run(false, false, budget, {})).db;
            var both := {"combined_create_tables.sql", "combined_seed.sql"};
            match db.tracking
            case None =>
              if db.hasProfiles then
                var goods: set<string> := if db.hasGoods then {"create_goods_tables.sql", "goods_seed.sql"} else {};
                r == db.(tracking := Some(both + goods))
              else
                r == Database(Some(both), db.executed + multiset(both), true, true, true)
            case Some(versions) =>
              var tables := CountsAsApplied(versions, "combined_create_tables.sql", "create_table.sql",
                                            "create_goods_tables.sql");
              var seed := CountsAsApplied(versions, "combined_seed.sql", "hvnl_seed.sql", "goods_seed.sql");
              && r.tracking == Some(versions + both)
              && r.executed == db.executed + (if tables then multiset{} else multiset{"combined_create_tables.sql"})
                                           + (if seed then multiset{} else multiset{"combined_seed.sql"})
              && r.hasProfiles == (db.hasProfiles || !tables)
              && r.hasRows == (db.hasRows || !seed) && r.hasGoods == (db.hasGoods || !seed)
  {
    hide RunResult, AfterFiles, OnRecord, Statements;
    var had := db.tracking.Some?;
    var tracked := Tracked(db);
    var names := OnRecord(tracked, had);
    var recorded := Recorded(tracked, names);
    RecordedNames(db);
    StatementsFit(db);
    RunIsFiles(db, budget);
    FilesDone(recorded, budget - 4 - Statements(tracked, had));
    NamesAddUp(tracked.tracking.value, names);
    ExecutedBoth(db.executed);
  }

  /** Behind the preparations a run is the loop over the files. */
  lemma RunIsFiles(db: Database, budget: nat)
    requires budget >= 11
    ensures var tracked := Tracked(db);
            var statements := Statements(tracked, db.tracking.Some?);
            var recorded := Recorded(tracked, OnRecord(tracked, db.tracking.Some?));
            && statements <= 7
            && RunResult(db, Run(false, false, budget, {})) ==
               AfterFiles(recorded, recorded.tracking.value, budget - 4 - statements, {}, 0)
  {
    hide AfterFiles, OnRecord;
  }

  lemma NamesAddUp(versions: set<string>, names: set<string>)
    ensures names <= {CREATE_TABLES, SEED} ==>
              versions + names + {CREATE_TABLES, SEED} == versions + {CREATE_TABLES, SEED}
    ensures {CREATE_TABLES, SEED} <= names ==> versions + names + {CREATE_TABLES, SEED} == versions + names
    ensures versions == {} ==> versions + names == names && versions + {CREATE_TABLES, SEED} == {CREATE_TABLES, SEED}
  {
  }

  lemma ExecutedBoth(executed: multiset<string>)
    ensures executed + multiset{CREATE_TABLES} + multiset{SEED} == executed + multiset({CREATE_TABLES, SEED})
    ensures executed + multiset{} + multiset{} == executed
  {
    assert |CREATE_TABLES| != |SEED|;
  }

  lemma StatementsFit(db: Database)
    ensures var tracked := Tracked(db);
            var names := tracked.tracking.value + OnRecord(tracked, db.tracking.Some?);
            Statements(tracked, db.tracking.Some?)
            + (if "combined_create_tables.sql" in names then 0 else 3)
            + (if "combined_seed.sql" in names then 0 else 3) <= 7
  {
  }

  /** What is on record before any file is executed. */
  lemma RecordedNames(db: Database)
    ensures var tracked := Tracked(db);
            var names := OnRecord(tracked, db.tracking.Some?);
            match db.tracking
            case None =>
              && tracked.tracking == Some({})
              && names == if db.hasProfiles then
                            {"combined_create_tables.sql", "combined_seed.sql"}
                            + (if db.hasGoods then {"create_goods_tables.sql", "goods_seed.sql"} else {})
                          else {}
            case Some(versions) =>
              && tracked == db && names <= {"combined_create_tables.sql", "combined_seed.sql"}
              && ("combined_create_tables.sql" in versions + names <==>
                  CountsAsApplied(versions, "combined_create_tables.sql", "create_table.sql",
                                  "create_goods_tables.sql"))
              && ("combined_seed.sql" in versions + names <==>
                  CountsAsApplied(versions, "combined_seed.sql", "hvnl_seed.sql", "goods_seed.sql"))
  {
  }

  /** A new database, cut off after so many statements: two transactions of four statements and one, then one of three
      for each file. */
  lemma EmptyCutOff(budget: nat, reset: bool, db: Database)
    requires !reset ==> db == Database(None, multiset{}, false, false, false)
    requires reset ==> budget >= 2
    ensures var n := if reset then budget - 2 else budget;
            RunResult(db, Run(reset, false, budget, {})) ==
            if n < 4 then Ended(Database(None, multiset{}, false, false, false), CutOff)
            else if n < 8 then Ended(Database(Some({}), multiset{}, false, false, false), CutOff)
            else if n < 11 then
              Ended(Database(Some({"combined_create_tables.sql"}), multiset{"combined_create_tables.sql"},
                             true, false, false), CutOff)
            else
              Ended(Database(Some({"combined_create_tables.sql", "combined_seed.sql"}),
                             multiset{"combined_create_tables.sql", "combined_seed.sql"}, true, true, true), UpToDate)
  {
    var n := if reset then budget - 2 else budget;
    if n >= 5 {
      var tracked := Database(Some({}), multiset{}, false, false, false);
      RecordNothing(tracked);
      assert tracked == Tracked(EMPTY);
      NothingRecorded();
      OnceMore(multiset{}, CREATE_TABLES);
      assert multiset{} + multiset{CREATE_TABLES} == multiset{CREATE_TABLES};
      assert {} + {CREATE_TABLES} == {CREATE_TABLES};
      OnceMore(multiset{CREATE_TABLES}, SEED);
      assert {CREATE_TABLES} + {SEED} == {CREATE_TABLES, SEED};
      var middle := Database(Some({CREATE_TABLES}), multiset{CREATE_TABLES}, true, false, false);
      assert n >= 8 ==> AfterApply(tracked, CREATE_TABLES, n - 5, {}) == Ended(middle, UpToDate);
      assert n >= 8 ==> AfterFiles(tracked, {}, n - 5, {}, 0) == AfterFiles(middle, {}, n - 8, {}, 1);
      assert RunResult(db, Run(reset, false, budget, {})) == AfterFiles(tracked, {}, n - 5, {}, 0);
    }
  }

  /** A database that tracks the four older names needs seven statements, after which the merged ones are on record;
      one that tracks those needs five. */
  lemma TrackedCutOff(db: Database, budget: nat)
    requires db.tracking.Some?
    ensures db.tracking.value == {"create_table.sql", "create_goods_tables.sql", "hvnl_seed.sql", "goods_seed.sql"} ==>
              RunResult(db, Run(false, false, budget, {})) ==
              if budget < 7 then Ended(db, CutOff)
              else Ended(db.(tracking := Some(db.tracking.value
                                              + {"combined_create_tables.sql", "combined_seed.sql"})), UpToDate)
    ensures {"combined_create_tables.sql", "combined_seed.sql"} <= db.tracking.value ==>
              RunResult(db, Run(false, false, budget, {})) == Ended(db, if budget < 5 then CutOff else UpToDate)
  {
    hide AfterFiles;
    var versions := db.tracking.value;
    RecordedNames(db);
    LegacyNamesAreOld(CREATE_TABLES);
    LegacyNamesAreOld(SEED);
    var names := LegacyApplied(versions);
    if {CREATE_TABLES, SEED} <= versions {
      assert names == {};
      RecordNothing(db);
      FilesDone(db, budget);
      NothingLeft(db, budget - 5);
    } else if versions == {"create_table.sql", "create_goods_tables.sql", "hvnl_seed.sql", "goods_seed.sql"} {
      assert names == {CREATE_TABLES, SEED};
      NothingLeft(Recorded(db, names), budget - 7);
    }
  }

  lemma NothingLeft(db: Database, budget: int)
    requires db.tracking.Some? && {CREATE_TABLES, SEED} <= db.tracking.value
    ensures budget >= 0 ==> AfterFiles(db, db.tracking.value, budget, {}, 0) == Ended(db, UpToDate)
  {
    if budget >= 0 {
      assert AfterFiles(db, db.tracking.value, budget, {}, 1) == Ended(db, UpToDate);
    }
  }

  lemma NothingRecorded()
    ensures OnRecord(Tracked(EMPTY), false) == {} && Statements(Tracked(EMPTY), false) == 1
  {
  }
}
