/** The migration engine: reads the latest applied version of a migration
    set, runs the pending definitions oldest first, and records each step
    that succeeds, stopping at the first failure. */
module Engine {
  import opened MigratorTypes
  import opened VersionStore
  import opened RunSpec

  /** The world the migration actions act on. Calling an action is its only
      observable effect, so the environment keeps the definitions whose
      actions were called, in order. */
  class Environment {
    var fired: seq<Definition>

    constructor ()
      ensures fired == []
    {
      fired := [];
    }

    /** Calls `d`'s action: the call is logged, and the action's error, if
        it has one, is returned. */
    method Call(d: Definition) returns (failure: Option<string>)
      modifies this
      ensures fired == old(fired) + [d]
      ensures failure == if d.action.FailsWith? then Some(d.action.cause) else None
    {
      fired := fired + [d];
      failure := if d.action.FailsWith? then Some(d.action.cause) else None;
    }
  }

  /** Runs migration definitions against a version table. */
  class Migrator {
    const db: Store
    const tableName: string

    constructor New(db: Store, tableName: string)
      ensures this.db == db && this.tableName == tableName
    {
      this.db := db;
      this.tableName := tableName;
    }

    /** Brings `migrationSet` up to date with `defs` (newest first). What it
        returns, the actions it calls and the records it writes are those of
        `Expected` for the store's state on entry. */
    method Run(migrationSet: string, defs: seq<Definition>, env: Environment) returns (s: Summary, err: Option<Error>)
      modifies db, env
      ensures var t := Expected(migrationSet, old(db.records), db.faults, old(db.requests), defs);
        s == t.summary && err == t.err &&
        env.fired == old(env.fired) + t.invoked &&
        db.records == old(db.records) + t.written &&
        db.requests == t.requests
    {
      var got := db.Get(migrationSet);
      if got.Err? {
        return EmptySummary, Some(StoreFailure(got.error));
      }
      var v := got.value;
      LatestUnique(db.records, migrationSet, v.versionNo, Latest(db.records, migrationSet));
      if |defs| == 0 {
        return EmptySummary, None;
      }
      if |defs| < v.versionNo {
        return EmptySummary, Some(MigrationHole);
      }
      ExpectedApplies(migrationSet, old(db.records), db.faults, old(db.requests), defs, v.versionNo);
      s, err := Reconcile(migrationSet, defs, env, v.versionNo);
    }

    /** The reconciliation loop: runs the definitions pending above the
        latest version `startingVersion`, oldest first, recording each one
        that succeeds under the next version number, and stops at the first
        action or write that fails. */
    method Reconcile(migrationSet: string, defs: seq<Definition>, env: Environment, startingVersion: nat)
      returns (s: Summary, err: Option<Error>)
      requires IsLatest(db.records, migrationSet, startingVersion) && startingVersion <= |defs|
      modifies db, env
      ensures var t := Apply(migrationSet, startingVersion, defs, db.faults, old(db.requests));
        s == t.summary && err == t.err &&
        env.fired == old(env.fired) + t.invoked &&
        db.records == old(db.records) + t.written &&
        db.requests == t.requests
    {
      var currentVersion := startingVersion;
      ghost var v0, faults, base := startingVersion, db.faults, db.requests;
      ghost var done: nat := 0;
      var executions: seq<Execution> := [];
      var stop: Option<Error> := None;
      var i: int := |defs| - currentVersion - 1;
      while i >= 0
        invariant v0 + done <= |defs| && i == |defs| - v0 - 1 - done
        invariant currentVersion == v0 + done
        invariant executions == Executed(defs, v0, done)
        invariant env.fired == old(env.fired) + Ran(defs, v0, done)
        invariant db.records == Extend(old(db.records), migrationSet, defs, v0, done)
        invariant db.requests == base + done
        invariant Clear(defs, v0, faults, base, done) && stop.None?
      {
        var def := defs[i];
        NextKeyFree(old(db.records), migrationSet, defs, v0, done);
        executions, stop := Step(migrationSet, def, currentVersion, env, executions);
        if stop.Some? {
          break;
        }
        ClearOneMore(defs, v0, faults, base, done);
        currentVersion := currentVersion + 1;
        i := i - 1;
        done := done + 1;
      }
      ApplyAfterLoop(old(db.records), migrationSet, v0, defs, faults, base, done, stop);
      return Summary(startingVersion, currentVersion, executions), stop;
    }

    /** One pass of the loop: calls `def`'s action; when it succeeds, reports
        it and then records it as version `currentVersion + 1`. A failed
        action or write stops the run with its error. */
    method Step(migrationSet: string, def: Definition, currentVersion: nat, env: Environment, executions: seq<Execution>)
      returns (executions': seq<Execution>, stop: Option<Error>)
      requires Key(migrationSet, currentVersion + 1) !in db.records
      modifies db, env
      ensures env.fired == old(env.fired) + [def]
      ensures def.action.FailsWith? ==>
        executions' == executions && stop == Some(MigrationFailed(def.name, def.action.cause)) &&
        db.records == old(db.records) && db.requests == old(db.requests)
      ensures def.action.Succeeds? ==>
        executions' == executions + [Execution(def.name)] && db.requests == old(db.requests) + 1 &&
        match Fault(db.faults, old(db.requests))
        case Some(detail) => stop == Some(StoreFailure(Unavailable(detail))) && db.records == old(db.records)
        case None => stop == None && db.records == old(db.records)[Key(migrationSet, currentVersion + 1) := def.name]
    {
      var failure := env.Call(def);
      if failure.Some? {
        return executions, Some(MigrationFailed(def.name, failure.value));
      }
      executions' := executions + [Execution(def.name)];
      var putErr := db.Put(VersionRecord(migrationSet, currentVersion + 1, def.name));
      if putErr.Some? {
        return executions', Some(StoreFailure(putErr.value));
      }
      return executions', None;
    }
  }
}
