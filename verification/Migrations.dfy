/** The SQLite schema: a baseline and ascending migrations, each in a transaction. */
module Migrations {
  import opened Results

  // A script sets PRAGMA user_version to its own version at its end.
  datatype Script = Script(version: int, sql: string)

  // What is on disk: the stored version and the scripts that made the schema.
  datatype Database = Database(version: int, applied: seq<Script>)

  const NEW_DATABASE := Database(0, [])

  function AfterScript(db: Database, s: Script): Database {
    Database(s.version, db.applied + [s])
  }

  /** How one transaction goes; a failing script may have done anything to the
      database before it failed, and the ROLLBACK after it may fail as well. */
  datatype Outcome =
    Succeeds | BeginFails | ScriptFails(partial: Database, rolledBack: bool) | CommitFails(rolledBack: bool)

  datatype Failure = EmptyBaseline | BaselineFailed | MigrationFailed(version: int)

  // The database and the exception, if one was thrown.
  datatype Migrated = Migrated(db: Database, failure: Option<Failure>)

  function MigrateFrom(db: Database, scripts: seq<Script>, outcomes: seq<Outcome>): Migrated
    requires |outcomes| == |scripts|
    decreases |scripts|
  {
    if scripts == [] then Migrated(db, None)
    else
      var s := scripts[0];
      if s.version <= db.version || s.sql == "" then MigrateFrom(db, scripts[1..], outcomes[1..])
      else if outcomes[0].Succeeds? then MigrateFrom(AfterScript(db, s), scripts[1..], outcomes[1..])
      else Migrated(db, Some(MigrationFailed(s.version)))
  }

  /** Opening a database: the baseline where there is no schema, then the
      migrations. */
  function OpenOf(db: Database, base: Script, first: Outcome, scripts: seq<Script>, outcomes: seq<Outcome>): Migrated
    requires |outcomes| == |scripts|
  {
    if db.version != 0 then MigrateFrom(db, scripts, outcomes)
    else if base.sql == "" then Migrated(db, Some(EmptyBaseline))
    else if first.Succeeds? then MigrateFrom(AfterScript(db, base), scripts, outcomes)
    else Migrated(db, Some(BaselineFailed))
  }

  class Connection {
    var committed: Database
    var working: Option<Database>

    constructor (committed: Database)
      ensures this.committed == committed && working == None
    {
      this.committed, working := committed, None;
    }

    /** BEGIN, script, COMMIT, with ROLLBACK after a failure: all or nothing on disk.
        Only where the ROLLBACK fails, too, is the transaction left open. */
    method RunInTransaction(s: Script, outcome: Outcome) returns (ok: bool)
      requires working == None
      modifies this
      ensures ok == outcome.Succeeds?
      ensures committed == if ok then AfterScript(old(committed), s) else old(committed)
      ensures working.Some? <==> (outcome.ScriptFails? || outcome.CommitFails?) && !outcome.rolledBack
    {
      if outcome.BeginFails? {
        return false;
      }
      working := Some(committed);
      if outcome.ScriptFails? {
        working := Some(outcome.partial);
        if outcome.rolledBack {
          working := None;
        }
        return false;
      }
      working := Some(AfterScript(working.value, s));
      if outcome.CommitFails? {
        if outcome.rolledBack {
          working := None;
        }
        return false;
      }
      committed := working.value;
      working := None;
      return true;
    }

    /** Closing the database drops a transaction that is still open. */
    method Close()
      modifies this
      ensures working == None && committed == old(committed)
    {
      working := None;
    }

    method ApplyMigrations(base: Script, first: Outcome, scripts: seq<Script>, outcomes: seq<Outcome>)
      returns (failure: Option<Failure>)
      requires working == None && |outcomes| == |scripts|
      modifies this
      ensures failure == None ==> working == None
      ensures Migrated(committed, failure) == OpenOf(old(committed), base, first, scripts, outcomes)
    {
      var version := committed.version;
      if version == 0 {
        if base.sql == "" {
          return Some(EmptyBaseline);
        }
        var done := RunInTransaction(base, first);
        if !done {
          return Some(BaselineFailed);
        }
        version := committed.version;
      }
      for n := 0 to |scripts|
        invariant working == None && version == committed.version
        invariant OpenOf(old(committed), base, first, scripts, outcomes)
               == MigrateFrom(committed, scripts[n..], outcomes[n..])
      {
        assert scripts[n..][1..] == scripts[n + 1..] && outcomes[n..][1..] == outcomes[n + 1..];
        var s := scripts[n];
        if s.version <= version {
          continue;
        }
        if s.sql == "" {
          continue;
        }
        var done := RunInTransaction(s, outcomes[n]);
        if done {
          version := s.version;
        } else {
          return Some(MigrationFailed(s.version));
        }
      }
      return None;
    }
  }

  // ---- Histories ---------------------------------------------------------

  ghost predicate HasAscendingVersions(scripts: seq<Script>) {
    forall i, j :: 0 <= i < j < |scripts| ==> scripts[i].version < scripts[j].version
  }

  predicate IsDue(s: Script, low: int, high: int) {
    s.sql != "" && low < s.version <= high
  }

  // The non-empty scripts above one version and up to another, in order.
  function Due(scripts: seq<Script>, low: int, high: int): seq<Script> {
    if scripts == [] then []
    else
      var last := scripts[|scripts| - 1];
      Due(scripts[..|scripts| - 1], low, high) + if IsDue(last, low, high) then [last] else []
  }

  /** The database is new, or the baseline and then exactly the non-empty scripts
      up to its stored version have been applied, once each, in order. */
  predicate IsPrefixApplied(db: Database, base: Script, all: seq<Script>) {
    || db == NEW_DATABASE
    || (db.version >= base.version && db.applied == [base] + Due(all, base.version, db.version))
  }

  lemma {:induction false} DueSplits(a: seq<Script>, b: seq<Script>, low: int, high: int)
    ensures Due(a + b, low, high) == Due(a, low, high) + Due(b, low, high)
  {
    if b == [] {
      assert a + b == a;
    } else {
      var most := b[..|b| - 1];
      assert (a + b)[..|a + b| - 1] == a + most;
      DueSplits(a, most, low, high);
    }
  }

  lemma {:induction false} DueAgrees(scripts: seq<Script>, low: int, high: int, higher: int)
    requires forall i :: 0 <= i < |scripts| ==> (IsDue(scripts[i], low, high) <==> IsDue(scripts[i], low, higher))
    ensures Due(scripts, low, high) == Due(scripts, low, higher)
  {
    if scripts != [] {
      DueAgrees(scripts[..|scripts| - 1], low, high, higher);
    }
  }

  // Applying script k is the next thing that is due.
  lemma DueStep(all: seq<Script>, low: int, version: int, k: nat)
    requires HasAscendingVersions(all) && k < |all|
    requires low <= version < all[k].version && all[k].sql != ""
    requires forall j :: 0 <= j < k && all[j].sql != "" ==> all[j].version <= version
    ensures Due(all, low, all[k].version) == Due(all, low, version) + [all[k]]
  {
    var before, after := all[..k], all[k + 1..];
    assert all == before + [all[k]] + after;
    var v := all[k].version;
    DueSplits(before + [all[k]], after, low, v);
    DueSplits(before + [all[k]], after, low, version);
    DueSplits(before, [all[k]], low, v);
    DueSplits(before, [all[k]], low, version);
    assert forall i :: 0 <= i < |after| ==> after[i].version > v;
    DueAgrees(before, low, version, v);
    DueAgrees(after, low, version, v);
    assert Due([all[k]][..0], low, v) == [] && Due([all[k]][..0], low, version) == [];
    DueNone(after, low, v);
  }

  lemma {:induction false} DueNone(scripts: seq<Script>, low: int, high: int)
    requires forall i :: 0 <= i < |scripts| ==> scripts[i].version > high
    ensures Due(scripts, low, high) == []
  {
    if scripts != [] {
      DueNone(scripts[..|scripts| - 1], low, high);
    }
  }

  // The scripts before k have had their turn.
  ghost predicate IsPast(all: seq<Script>, k: nat, version: int) {
    forall j :: 0 <= j < k && j < |all| && all[j].sql != "" ==> all[j].version <= version
  }

  lemma {:induction false} MigrateKeepsPrefix(db: Database, base: Script, all: seq<Script>, k: nat, n: nat,
                                              outcomes: seq<Outcome>)
    requires HasAscendingVersions(all) && k <= n <= |all| && |outcomes| == n - k
    requires db.version >= base.version && db.applied == [base] + Due(all, base.version, db.version)
    requires IsPast(all, k, db.version)
    ensures var m := MigrateFrom(db, all[k..n], outcomes);
            && m.db.version >= db.version
            && m.db.applied == [base] + Due(all, base.version, m.db.version)
            && (m.failure == None ==> IsPast(all, n, m.db.version))
    decreases n - k
  {
    hide Due;
    if k < n {
      var s := all[k];
      assert all[k..n][1..] == all[k + 1..n] && all[k..n][0] == s;
      if s.version <= db.version || s.sql == "" {
        MigrateKeepsPrefix(db, base, all, k + 1, n, outcomes[1..]);
      } else if outcomes[0].Succeeds? {
        DueStep(all, base.version, db.version, k);
        assert [base] + (Due(all, base.version, db.version) + [s]) == AfterScript(db, s).applied;
        MigrateKeepsPrefix(AfterScript(db, s), base, all, k + 1, n, outcomes[1..]);
      }
    }
  }

  // One opening by a release that ships the first n of all scripts.
  datatype Opening = Opening(n: nat, first: Outcome, outcomes: seq<Outcome>)

  ghost predicate ValidOpening(o: Opening, all: seq<Script>) {
    o.n <= |all| && |o.outcomes| == o.n
  }

  function Open(db: Database, base: Script, all: seq<Script>, o: Opening): Migrated
    requires ValidOpening(o, all)
  {
    OpenOf(db, base, o.first, all[..o.n], o.outcomes)
  }

  lemma DueOfBaseline(all: seq<Script>, version: int)
    ensures Due(all, version, version) == []
  {
  }

  lemma OpenKeepsPrefix(db: Database, base: Script, all: seq<Script>, o: Opening)
    requires HasAscendingVersions(all) && base.version >= 1 && ValidOpening(o, all)
    requires IsPrefixApplied(db, base, all)
    ensures var m := Open(db, base, all, o);
            && IsPrefixApplied(m.db, base, all) && m.db.version >= db.version
            && (m.failure == None ==> m.db.version >= base.version && IsPast(all, o.n, m.db.version))
  {
    hide Due;
    assert all[0..o.n] == all[..o.n];
    if db.version != 0 {
      MigrateKeepsPrefix(db, base, all, 0, o.n, o.outcomes);
    } else if base.sql != "" && o.first.Succeeds? {
      assert db == NEW_DATABASE;
      DueOfBaseline(all, base.version);
      assert [base] + [] == [] + [base];
      MigrateKeepsPrefix(AfterScript(db, base), base, all, 0, o.n, o.outcomes);
    }
  }

  function OpenAll(base: Script, all: seq<Script>, history: seq<Opening>): Database
    requires forall i :: 0 <= i < |history| ==> ValidOpening(history[i], all)
  {
    if history == [] then NEW_DATABASE
    else Open(OpenAll(base, all, history[..|history| - 1]), base, all, history[|history| - 1]).db
  }

  /** After every return or throw of every opening, by releases that ship more or
      fewer of the scripts, in any order and with any failures, the applied scripts
      are the baseline and the non-empty scripts up to the stored version. */
  lemma {:induction false} HistoryAppliesPrefix(base: Script, all: seq<Script>, history: seq<Opening>)
    requires HasAscendingVersions(all) && base.version >= 1
    requires forall i :: 0 <= i < |history| ==> ValidOpening(history[i], all)
    ensures IsPrefixApplied(OpenAll(base, all, history), base, all)
  {
    hide IsPrefixApplied, Open;
    if history == [] {
      assert IsPrefixApplied(NEW_DATABASE, base, all) by {
        NewIsPrefix(base, all);
      }
    } else {
      HistoryAppliesPrefix(base, all, history[..|history| - 1]);
      OpenKeepsPrefix(OpenAll(base, all, history[..|history| - 1]), base, all, history[|history| - 1]);
    }
  }

  lemma NewIsPrefix(base: Script, all: seq<Script>)
    ensures IsPrefixApplied(NEW_DATABASE, base, all)
  {
  }

  lemma {:induction false} NothingLeft(db: Database, scripts: seq<Script>, outcomes: seq<Outcome>)
    requires |outcomes| == |scripts| && IsPast(scripts, |scripts|, db.version)
    ensures MigrateFrom(db, scripts, outcomes) == Migrated(db, None)
    decreases |scripts|
  {
    if scripts != [] {
      assert forall j :: 0 <= j < |scripts[1..]| ==> scripts[1..][j] == scripts[j + 1];
      NothingLeft(db, scripts[1..], outcomes[1..]);
    }
  }

  /** Reopening after a successful opening changes nothing and cannot fail, however
      transactions would go. */
  lemma ReopenChangesNothing(db: Database, base: Script, all: seq<Script>, o: Opening, again: Opening)
    requires HasAscendingVersions(all) && base.version >= 1 && ValidOpening(o, all) && ValidOpening(again, all)
    requires IsPrefixApplied(db, base, all) && Open(db, base, all, o).failure == None && again.n <= o.n
    ensures Open(Open(db, base, all, o).db, base, all, again) == Migrated(Open(db, base, all, o).db, None)
  {
    OpenKeepsPrefix(db, base, all, o);
    NothingLeft(Open(db, base, all, o).db, all[..again.n], again.outcomes);
  }

  // ---- When an opening succeeds ------------------------------------------

  // Script k is tried on a database of that version, and its transaction fails.
  predicate FailsAt(scripts: seq<Script>, outcomes: seq<Outcome>, version: int, k: nat) {
    && k < |scripts| && k < |outcomes|
    && scripts[k].sql != "" && scripts[k].version > version && !outcomes[k].Succeeds?
  }

  ghost predicate IsFirstFailure(scripts: seq<Script>, outcomes: seq<Outcome>, version: int, k: nat) {
    FailsAt(scripts, outcomes, version, k) && forall j: nat :: j < k ==> !FailsAt(scripts, outcomes, version, j)
  }

  lemma {:induction false} MigratesIff(db: Database, scripts: seq<Script>, outcomes: seq<Outcome>)
    requires HasAscendingVersions(scripts) && |outcomes| == |scripts|
    ensures var failure := MigrateFrom(db, scripts, outcomes).failure;
            && (failure == None <==> forall k: nat :: !FailsAt(scripts, outcomes, db.version, k))
            && (failure.Some? ==> failure.value.MigrationFailed?)
            && forall k: nat :: IsFirstFailure(scripts, outcomes, db.version, k) ==>
                 failure == Some(MigrationFailed(scripts[k].version))
    decreases |scripts|
  {
    if scripts != [] {
      var s := scripts[0];
      var tried := s.version > db.version && s.sql != "";
      assert FailsAt(scripts, outcomes, db.version, 0) <==> tried && !outcomes[0].Succeeds?;
      var next := if tried then AfterScript(db, s) else db;
      RestFailsAlike(scripts, outcomes, db.version, next.version);
      MigratesIff(next, scripts[1..], outcomes[1..]);
      hide FailsAt;
      forall k: nat | IsFirstFailure(scripts, outcomes, db.version, k) && k > 0
        ensures IsFirstFailure(scripts[1..], outcomes[1..], next.version, k - 1)
      {
      }
    }
  }

  // Once the first script has had its turn, the same later ones fail.
  lemma RestFailsAlike(scripts: seq<Script>, outcomes: seq<Outcome>, version: int, next: int)
    requires HasAscendingVersions(scripts) && |outcomes| == |scripts| && scripts != []
    requires next == version || (scripts[0].version > version && next == scripts[0].version)
    ensures forall k: nat :: k > 0 ==>
      (FailsAt(scripts, outcomes, version, k) <==> FailsAt(scripts[1..], outcomes[1..], next, k - 1))
    ensures forall k: nat ::
      FailsAt(scripts[1..], outcomes[1..], next, k) <==> FailsAt(scripts, outcomes, version, k + 1)
  {
  }

  // The baseline is in place, or its transaction succeeds.
  predicate HasBaseline(db: Database, base: Script, first: Outcome) {
    db.version != 0 || (base.sql != "" && first.Succeeds?)
  }

  /** An opening throws nothing exactly when the baseline, where it is due, and every
      script above the version it starts from succeed; it then ends at or above the
      version of each.  Else it throws for the baseline, or for the first script that
      fails. */
  lemma OpensIff(db: Database, base: Script, all: seq<Script>, o: Opening)
    requires HasAscendingVersions(all) && base.version >= 1 && ValidOpening(o, all)
    requires IsPrefixApplied(db, base, all)
    ensures var m, start := Open(db, base, all, o), if db.version == 0 then base.version else db.version;
            && (m.failure == None
                <==> HasBaseline(db, base, o.first) && forall k: nat :: !FailsAt(all[..o.n], o.outcomes, start, k))
            && (m.failure == None ==> IsPast(all, o.n, m.db.version))
            && (m.failure == Some(EmptyBaseline) <==> db.version == 0 && base.sql == "")
            && (m.failure == Some(BaselineFailed) <==> db.version == 0 && base.sql != "" && !o.first.Succeeds?)
            && forall k: nat :: HasBaseline(db, base, o.first) && IsFirstFailure(all[..o.n], o.outcomes, start, k) ==>
                 m.failure == Some(MigrationFailed(all[k].version))
  {
    var scripts := all[..o.n];
    assert forall version: int, k: nat :: FailsAt(scripts, o.outcomes, version, k) ==> scripts[k] == all[k];
    hide IsPrefixApplied, FailsAt, MigrateFrom;
    OpenKeepsPrefix(db, base, all, o);
    if db.version != 0 {
      MigratesIff(db, scripts, o.outcomes);
    } else {
      MigratesIff(AfterScript(db, base), scripts, o.outcomes);
    }
  }
}
