/** Schema migrations under failures, crashes and restarts, over the schema the two migrations build. */
module Migrations {
  import opened Wrappers

  datatype Dialect = SQLite | Postgres | OtherDialect

  /** The tables of migration 1, in the order it creates them. */
  const TABLES := 4

  const LATEST := 2

  /** The custom part of the database: whether the version table exists, the version in it, if any, how many of
      migration 1's tables exist, and the column of migration 2. `executed` is every migration that has run to
      its end. */
  datatype Database = Database(
    versionTable: bool,
    version: Option<nat>,
    tables: nat,
    publishColumn: bool,
    executed: seq<nat>)

  /** Where a run stops, counted in statements it may still execute; None is a run that nothing stops. */
  type Budget = Option<nat>

  function Spend(b: Budget): Budget
    requires b != Some(0)
  {
    if b.None? then None else Some(b.value - 1)
  }

  datatype Outcome = Completed | Stopped

  class Migrator {
    const dialect: Dialect
    var db: Database
    var budget: Budget

    constructor (dialect: Dialect, db: Database, budget: Budget)
      ensures this.dialect == dialect && this.db == db && this.budget == budget
    {
      this.dialect, this.db, this.budget := dialect, db, budget;
    }

    /** waMigrateV1: each table is created if it is not there. */
    method MigrateV1() returns (ok: bool)
      requires db.tables <= TABLES
      modifies this
      ensures db.tables <= TABLES
      ensures (db, budget, ok) == CreateTables(dialect, old(db), old(budget))
    {
      if dialect.OtherDialect? {
        return false;
      }
      for i := 0 to TABLES
        invariant db.tables <= TABLES && i <= db.tables
        invariant CreateTables(dialect, old(db), old(budget)) == CreateFrom(db, budget, i)
      {
        if budget == Some(0) {
          return false;
        }
        budget := Spend(budget);
        if db.tables <= i {
          db := db.(tables := i + 1);
        }
      }
      db := db.(executed := db.executed + [1]);
      ok := true;
    }

    /** waMigrateV2: SQLite has no ADD COLUMN IF NOT EXISTS. */
    method MigrateV2() returns (ok: bool)
      modifies this
      ensures (db, budget, ok) == AddColumn(dialect, old(db), old(budget))
    {
      if dialect.OtherDialect? || budget == Some(0) {
        return false;
      }
      if dialect.SQLite? && db.publishColumn {
        return false;
      }
      budget := Spend(budget);
      db := db.(publishColumn := true, executed := db.executed + [2]);
      ok := true;
    }

    /** The table of migrations. */
    method Migrate(i: nat) returns (ok: bool)
      requires i < LATEST && db.tables <= TABLES
      modifies this
      ensures db.tables <= TABLES
      ensures (db, budget, ok) == Migration(dialect, old(db), old(budget), i)
    {
      if i == 0 {
        ok := MigrateV1();
      } else {
        ok := MigrateV2();
      }
    }

    /** runWAMigrations: create the version table, read the version, then run and record what is pending. */
    method Run() returns (outcome: Outcome)
      requires db.tables <= TABLES
      modifies this
      ensures (db, outcome) == Attempt(dialect, old(db), old(budget))
    {
      if budget == Some(0) {
        return Stopped;
      }
      budget := Spend(budget);
      db := db.(versionTable := true);
      if budget == Some(0) {
        return Stopped;
      }
      budget := Spend(budget);
      outcome := RunPending();
    }

    /** From the version read on. */
    method RunPending() returns (outcome: Outcome)
      requires db.tables <= TABLES
      modifies this
      ensures (db, outcome) == FromVersion(dialect, old(db), old(budget))
    {
      var version := 0;
      if db.version.None? {
        if budget == Some(0) {
          return Stopped;
        }
        budget := Spend(budget);
        db := db.(version := Some(0));
      } else {
        version := db.version.value;
      }
      assert FromVersion(dialect, old(db), old(budget)) == Pending(dialect, db, budget, version);
      var i := version;
      while i < LATEST
        invariant db.tables <= TABLES
        invariant FromVersion(dialect, old(db), old(budget)) == Pending(dialect, db, budget, i)
      {
        var ok := Migrate(i);
        if !ok {
          return Stopped;
        }
        if budget == Some(0) {
          return Stopped;
        }
        budget := Spend(budget);
        db := db.(version := Some(i + 1));
        i := i + 1;
      }
      return Completed;
    }
  }

  // ---------- as functions ----------

  function CreateFrom(db: Database, budget: Budget, i: nat): (Database, Budget, bool)
    requires i <= TABLES
    decreases TABLES - i
  {
    if i == TABLES then (db.(executed := db.executed + [1]), budget, true)
    else if budget == Some(0) then (db, budget, false)
    else CreateFrom(if db.tables <= i then db.(tables := i + 1) else db, Spend(budget), i + 1)
  }

  function CreateTables(dialect: Dialect, db: Database, budget: Budget): (Database, Budget, bool) {
    if dialect.OtherDialect? then (db, budget, false) else CreateFrom(db, budget, 0)
  }

  function AddColumn(dialect: Dialect, db: Database, budget: Budget): (Database, Budget, bool) {
    if dialect.OtherDialect? || budget == Some(0) || (dialect.SQLite? && db.publishColumn) then (db, budget, false)
    else (db.(publishColumn := true, executed := db.executed + [2]), Spend(budget), true)
  }

  function Migration(dialect: Dialect, db: Database, budget: Budget, i: nat): (Database, Budget, bool) {
    if i == 0 then CreateTables(dialect, db, budget) else AddColumn(dialect, db, budget)
  }

  function Pending(dialect: Dialect, db: Database, budget: Budget, i: nat): (Database, Outcome)
    decreases LATEST - i
  {
    if i >= LATEST then (db, Completed)
    else
      var (db', budget', ok) := Migration(dialect, db, budget, i);
      if !ok || budget' == Some(0) then (db', Stopped)
      else Pending(dialect, db'.(version := Some(i + 1)), Spend(budget'), i + 1)
  }

  /** The rest of a run, once the version has been read. */
  function FromVersion(dialect: Dialect, db: Database, budget: Budget): (Database, Outcome) {
    if db.version.Some? then Pending(dialect, db, budget, db.version.value)
    else if budget == Some(0) then (db, Stopped)
    else Pending(dialect, db.(version := Some(0)), Spend(budget), 0)
  }

  /** One run of the migrations, stopped by a failure or a crash after so many statements. */
  function Attempt(dialect: Dialect, db: Database, budget: Budget): (Database, Outcome) {
    if budget == Some(0) then (db, Stopped)
    else
      var ready := db.(versionTable := true);
      if budget == Some(1) then (ready, Stopped) else FromVersion(dialect, ready, Spend(Spend(budget)))
  }

  // ---------- attempts in a row ----------

  /** An empty database. */
  const NEW := Database(false, None, 0, false, [])

  function Version(db: Database): nat {
    if db.version.None? then 0 else db.version.value
  }

  /** What every attempt keeps. Migrations have run in nondecreasing order with no gap; only the one after
      the stored version can have run without being recorded; and the schema is what they have built. */
  ghost predicate Consistent(db: Database) {
    && Version(db) <= LATEST && db.tables <= TABLES && (db.version.Some? ==> db.versionTable)
    && (forall i, j | 0 <= i < j < |db.executed| :: db.executed[i] <= db.executed[j])
    && (forall v | 1 <= v <= Version(db) :: v in db.executed)
    && (forall v | v in db.executed :: 1 <= v <= Version(db) + 1 && v <= LATEST)
    && (1 in db.executed ==> db.tables == TABLES)
    && (db.publishColumn <==> 2 in db.executed)
  }

  function After(dialect: Dialect, budgets: seq<Budget>): Database {
    if budgets == [] then NEW
    else Attempt(dialect, After(dialect, budgets[..|budgets| - 1]), budgets[|budgets| - 1]).0
  }

  lemma {:induction false} CreateFromMeaning(db: Database, budget: Budget, i: nat)
    requires i <= TABLES
    ensures var (db', budget', ok) := CreateFrom(db, budget, i);
            && db'.versionTable == db.versionTable && db'.version == db.version
            && db'.publishColumn == db.publishColumn && db.tables <= db'.tables
            && db'.executed == db.executed + (if ok then [1] else [])
            && (db.tables <= TABLES ==> db'.tables <= TABLES)
            && (i <= db.tables && ok ==> db'.tables >= TABLES)
            && (budget.None? ==> ok && budget'.None?)
    decreases TABLES - i
  {
    if i < TABLES && budget != Some(0) {
      CreateFromMeaning(if db.tables <= i then db.(tables := i + 1) else db, Spend(budget), i + 1);
    }
  }

  lemma {:induction false} PendingKeepsConsistent(dialect: Dialect, db: Database, budget: Budget, i: nat)
    requires Consistent(db) && db.version == Some(i)
    ensures Consistent(Pending(dialect, db, budget, i).0)
    decreases LATEST - i
  {
    if i < LATEST {
      CreateFromMeaning(db, budget, 0);
      var (db', budget', ok) := Migration(dialect, db, budget, i);
      if ok {
        MigrationKeepsConsistent(db, db', i);
        if budget' != Some(0) {
          PendingKeepsConsistent(dialect, db'.(version := Some(i + 1)), Spend(budget'), i + 1);
        }
      }
    }
  }

  /** A migration that has run, before and after its version is written. */
  lemma MigrationKeepsConsistent(db: Database, r: Database, i: nat)
    requires Consistent(db) && db.version == Some(i) && i < LATEST
    requires r.versionTable == db.versionTable && r.version == db.version && r.executed == db.executed + [i + 1]
    requires db.tables <= r.tables <= TABLES
    requires i == 0 ==> r.tables == TABLES && r.publishColumn == db.publishColumn
    requires i == 1 ==> r.publishColumn
    ensures Consistent(r) && Consistent(r.(version := Some(i + 1)))
  {
    forall k | 0 <= k < |db.executed| ensures db.executed[k] <= i + 1 {
      assert db.executed[k] in db.executed;
    }
    assert forall v :: v in r.executed <==> v in db.executed || v == i + 1;
  }

  /** Over any number of attempts, each stopped anywhere: migrations run in nondecreasing order with no gap, at
      most one ahead of the stored version, and the schema is what they have built. */
  lemma {:induction false} AttemptsKeepOrder(dialect: Dialect, budgets: seq<Budget>)
    ensures Consistent(After(dialect, budgets))
  {
    if budgets != [] {
      var n := |budgets| - 1;
      AttemptsKeepOrder(dialect, budgets[..n]);
      AttemptKeepsConsistent(dialect, After(dialect, budgets[..n]), budgets[n]);
    }
  }

  lemma AttemptKeepsConsistent(dialect: Dialect, db: Database, budget: Budget)
    requires Consistent(db)
    ensures Consistent(Attempt(dialect, db, budget).0)
  {
    if budget != Some(0) {
      var ready := db.(versionTable := true);
      assert Consistent(ready);
      if budget != Some(1) {
        FromVersionKeepsConsistent(dialect, ready, Spend(Spend(budget)));
      }
    }
  }

  lemma FromVersionKeepsConsistent(dialect: Dialect, db: Database, budget: Budget)
    requires Consistent(db) && db.versionTable
    ensures Consistent(FromVersion(dialect, db, budget).0)
  {
    if db.version.Some? {
      PendingKeepsConsistent(dialect, db, budget, db.version.value);
    } else if budget != Some(0) {
      PendingKeepsConsistent(dialect, db.(version := Some(0)), Spend(budget), 0);
    }
  }

  function Consecutive(from: nat, count: nat): seq<nat> {
    seq(count, i => from + i)
  }

  /** From this version so many migrations ran, and at most the last one's version was not written. */
  ghost predicate RanFrom(version: nat, count: nat, before: Database, after: Database) {
    && after.executed == before.executed + Consecutive(version + 1, count)
    && (Version(after) == version + count || (count > 0 && Version(after) == version + count - 1))
  }

  /** What one attempt runs: consecutive migrations, starting right after the stored version, each recorded
      before the next starts. So a migration runs again only if its version write was lost. */
  lemma AttemptRuns(dialect: Dialect, db: Database, budget: Budget) returns (count: nat)
    ensures RanFrom(Version(db), count, db, Attempt(dialect, db, budget).0)
  {
    if budget == Some(0) || budget == Some(1) {
      count := 0;
      assert db.executed + Consecutive(Version(db) + 1, 0) == db.executed;
    } else {
      count := FromVersionRuns(dialect, db.(versionTable := true), Spend(Spend(budget)));
    }
  }

  lemma FromVersionRuns(dialect: Dialect, db: Database, budget: Budget) returns (count: nat)
    ensures RanFrom(Version(db), count, db, FromVersion(dialect, db, budget).0)
  {
    if db.version.Some? {
      count := PendingRuns(dialect, db, budget, db.version.value);
    } else if budget == Some(0) {
      count := 0;
      assert db.executed + Consecutive(1, 0) == db.executed;
    } else {
      count := PendingRuns(dialect, db.(version := Some(0)), Spend(budget), 0);
    }
  }

  lemma {:induction false} PendingRuns(dialect: Dialect, db: Database, budget: Budget, i: nat) returns (count: nat)
    requires db.version == Some(i)
    ensures RanFrom(i, count, db, Pending(dialect, db, budget, i).0)
    decreases LATEST - i
  {
    count := 0;
    assert db.executed + Consecutive(i + 1, 0) == db.executed;
    if i < LATEST {
      MigrationRuns(dialect, db, budget, i);
      var (db', budget', ok) := Migration(dialect, db, budget, i);
      if ok {
        count := 1;
        if budget' != Some(0) {
          var rest := PendingRuns(dialect, db'.(version := Some(i + 1)), Spend(budget'), i + 1);
          count := rest + 1;
          RanFromNext(db, db', Pending(dialect, db, budget, i).0, i, rest);
        }
      }
    }
  }

  lemma RanFromNext(db: Database, db': Database, r: Database, i: nat, rest: nat)
    requires db'.executed == db.executed + [i + 1] && RanFrom(i + 1, rest, db'.(version := Some(i + 1)), r)
    ensures RanFrom(i, rest + 1, db, r)
  {
    assert [i + 1] + Consecutive(i + 2, rest) == Consecutive(i + 1, rest + 1);
  }

  lemma MigrationRuns(dialect: Dialect, db: Database, budget: Budget, i: nat)
    requires i < LATEST
    ensures var (db', _, ok) := Migration(dialect, db, budget, i);
            db'.version == db.version && db'.executed == db.executed + if ok then [i + 1] else []
  {
    CreateFromMeaning(db, budget, 0);
  }

  /** The one state from which SQLite cannot go on: migration 2 ran and its version write was lost. */
  predicate Stuck(dialect: Dialect, db: Database) {
    dialect.SQLite? && Version(db) == 1 && db.publishColumn
  }

  /** From every reachable state of a known dialect, a run that nothing stops ends at the latest version with
      the whole schema, exactly when the state is not the stuck one; there every run fails and changes nothing. */
  lemma {:induction false} UnstoppedRunCompletesIff(dialect: Dialect, budgets: seq<Budget>, budget: Budget)
    requires !dialect.OtherDialect?
    ensures var db := After(dialect, budgets);
            var (r, outcome) := Attempt(dialect, db, None);
            && (outcome.Completed? <==> !Stuck(dialect, db))
            && (outcome.Completed? ==> Version(r) == LATEST && r.tables == TABLES && r.publishColumn)
            && (Stuck(dialect, db) ==> Attempt(dialect, db, budget) == (db, Stopped))
  {
    AttemptsKeepOrder(dialect, budgets);
    var db := After(dialect, budgets).(versionTable := true);
    assert Consistent(db);
    if Version(db) == 0 {
      assert 2 !in db.executed;
      FirstCompletes(dialect, db.(version := Some(0)));
    } else {
      assert Version(db) == 2 ==> 2 in db.executed;
    }
  }

  /** From version 0 both migrations run. */
  lemma FirstCompletes(dialect: Dialect, db: Database)
    requires !dialect.OtherDialect? && !db.publishColumn && db.tables <= TABLES
    ensures var (r, outcome) := Pending(dialect, db, None, 0);
            outcome.Completed? && Version(r) == LATEST && r.tables == TABLES && r.publishColumn
  {
    CreateFromMeaning(db, None, 0);
    var (db', budget', ok) := Migration(dialect, db, None, 0);
    var migrated := db'.(version := Some(1));
    assert Pending(dialect, db, None, 0) == Pending(dialect, migrated, None, 1);
  }

  /** On a database that is neither, no migration runs; a run with anything to do stops. */
  lemma OtherDialectStops(db: Database, budget: Budget)
    ensures var (r, outcome) := Attempt(OtherDialect, db, budget);
            && r.executed == db.executed && r.tables == db.tables && r.publishColumn == db.publishColumn
            && Version(r) == Version(db) && (Version(db) < 2 ==> outcome.Stopped?)
  {
  }

  /** The stuck state is reachable: a crash between migration 2 and its version write. */
  lemma StuckIsReachable() returns (budgets: seq<Budget>)
    ensures Stuck(SQLite, After(SQLite, budgets))
  {
    budgets := [Some(9)];
    assert budgets[..0] == [];
    var db := NEW.(versionTable := true, version := Some(0));
    CreateFour(db);
    var migrated := db.(tables := TABLES, executed := [1], version := Some(1));
    assert Pending(SQLite, db, Some(6), 0) == Pending(SQLite, migrated, Some(1), 1);
  }

  lemma CreateFour(db: Database)
    requires db.tables == 0 && db.executed == []
    ensures CreateFrom(db, Some(6), 0) == (db.(tables := TABLES, executed := [1]), Some(2), true)
  {
    assert CreateFrom(db, Some(6), 0) == CreateFrom(db.(tables := 1), Some(5), 1);
    assert CreateFrom(db.(tables := 1), Some(5), 1) == CreateFrom(db.(tables := 2), Some(4), 2);
    assert CreateFrom(db.(tables := 2), Some(4), 2) == CreateFrom(db.(tables := 3), Some(3), 3);
    assert CreateFrom(db.(tables := 3), Some(3), 3) == CreateFrom(db.(tables := 4), Some(2), 4);
    assert [] + [1] == [1];
  }
}
