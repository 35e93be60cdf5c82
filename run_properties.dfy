/** What a run promises, proved about `Expected`, the closed form that the
    engine's `Run` is proved to follow. */
module RunProperties {
  import opened MigratorTypes
  import opened VersionStore
  import opened RunSpec

  /** The run gets past its read and its two early exits: the read succeeds,
      there is something to run, and no migration has been removed. */
  ghost predicate Reconciles(migrationSet: string, records: map<Key, string>, faults: seq<Option<string>>,
                             requests: nat, defs: seq<Definition>)
  {
    Fault(faults, requests).None? && 0 < |defs| && Latest(records, migrationSet) <= |defs|
  }

  /** A failed read, an empty definition list and a migration hole each end
      the run at once: no action runs, nothing is written, the summary is
      the zero one, and the error says which exit was taken. */
  lemma EarlyExits(migrationSet: string, records: map<Key, string>, faults: seq<Option<string>>,
                   requests: nat, defs: seq<Definition>)
    requires !Reconciles(migrationSet, records, faults, requests, defs)
    ensures var t := Expected(migrationSet, records, faults, requests, defs);
      t.summary == EmptySummary && t.invoked == [] && t.written == map[] && t.requests == requests + 1 &&
      t.err == (if Fault(faults, requests).Some? then Some(StoreFailure(Unavailable(Fault(faults, requests).value)))
                else if |defs| == 0 then None
                else Some(MigrationHole))
  {
  }

  /** The run reports a migration hole exactly when the read succeeds, the
      list is not empty, and the store is ahead of the list. */
  lemma HoleIff(migrationSet: string, records: map<Key, string>, faults: seq<Option<string>>,
                requests: nat, defs: seq<Definition>)
    ensures Expected(migrationSet, records, faults, requests, defs).err == Some(MigrationHole) <==>
      Fault(faults, requests).None? && 0 < |defs| < Latest(records, migrationSet)
  {
    if Fault(faults, requests).None? && 0 < |defs| && Latest(records, migrationSet) <= |defs| {
      var v := Latest(records, migrationSet);
      var k := Halt(defs, v, faults, requests + 1, 0);
      assert Expected(migrationSet, records, faults, requests, defs) == Apply(migrationSet, v, defs, faults, requests + 1);
      if v + k < |defs| {
        assert defs[|defs| - v - 1 - k].action.FailsWith? || Fault(faults, requests + 1 + k).Some?;
      }
    }
  }

  /** The versions a run reports having gone through are exactly the records
      it wrote, numbered from the starting version up; it reports one more
      execution than that only when the last write failed. */
  lemma Accounting(migrationSet: string, records: map<Key, string>, faults: seq<Option<string>>,
                   requests: nat, defs: seq<Definition>)
    ensures var t := Expected(migrationSet, records, faults, requests, defs);
      var start, current := t.summary.startingVersion, t.summary.currentVersion;
      start <= current <= |defs| &&
      (forall k :: k in t.written <==> k.migrationSet == migrationSet && start < k.versionNo <= current) &&
      (|t.summary.executions| == current - start ||
       (|t.summary.executions| == current - start + 1 && t.err.Some? && t.err.value.StoreFailure?))
  {
    if Reconciles(migrationSet, records, faults, requests, defs) {
      var v := Latest(records, migrationSet);
      ApplyAccounting(migrationSet, v, defs, faults, requests + 1);
      var t := Apply(migrationSet, v, defs, faults, requests + 1);
      CommittedKeys(migrationSet, defs, v, t.summary.currentVersion - v);
    }
  }

  /** The reconciliation loop from version v goes through the versions it
      committed, and reports one more execution only after a failed write. */
  lemma ApplyAccounting(migrationSet: string, v: nat, defs: seq<Definition>, faults: seq<Option<string>>, base: nat)
    requires v <= |defs|
    ensures var t := Apply(migrationSet, v, defs, faults, base);
      var current := t.summary.currentVersion;
      t.summary.startingVersion == v && v <= current <= |defs| &&
      t.written == Committed(migrationSet, defs, v, current - v) &&
      (|t.summary.executions| == current - v ||
       (|t.summary.executions| == current - v + 1 && t.err.Some? && t.err.value.StoreFailure?))
  {
  }

  /** A run never overwrites a record: every record it writes lies above
      the latest version it read, and the record for version w carries the
      name of the definition at index |defs| - w. */
  lemma WrittenRecords(migrationSet: string, records: map<Key, string>, faults: seq<Option<string>>,
                       requests: nat, defs: seq<Definition>)
    ensures var t := Expected(migrationSet, records, faults, requests, defs);
      forall k :: k in t.written ==>
        k !in records && 0 < k.versionNo <= |defs| && t.written[k] == defs[|defs| - k.versionNo].name
  {
    if Reconciles(migrationSet, records, faults, requests, defs) {
      var v := Latest(records, migrationSet);
      CommittedKeys(migrationSet, defs, v, Halt(defs, v, faults, requests + 1, 0));
    }
  }

  /** After a run that got past its early exits, the latest version of the
      migration set is the version the run reports having reached, so the
      next run resumes where this one stopped. */
  lemma LatestAfterRun(migrationSet: string, records: map<Key, string>, faults: seq<Option<string>>,
                       requests: nat, defs: seq<Definition>)
    requires Reconciles(migrationSet, records, faults, requests, defs)
    ensures var t := Expected(migrationSet, records, faults, requests, defs);
      t.summary.startingVersion == Latest(records, migrationSet) &&
      IsLatest(records + t.written, migrationSet, t.summary.currentVersion)
  {
    var v := Latest(records, migrationSet);
    var k := Halt(defs, v, faults, requests + 1, 0);
    var t := Expected(migrationSet, records, faults, requests, defs);
    assert t.written == Committed(migrationSet, defs, v, k) && t.summary.currentVersion == v + k;
    CommittedKeys(migrationSet, defs, v, k);
    if k > 0 {
      assert Key(migrationSet, v + k) in t.written;
    }
  }

  /** A run completes without error exactly when none of the pending steps
      stops it; it then reaches version |defs|, has called every pending
      action once, oldest first, and reports one execution for each. */
  lemma CompleteRun(migrationSet: string, records: map<Key, string>, faults: seq<Option<string>>,
                    requests: nat, defs: seq<Definition>)
    requires Reconciles(migrationSet, records, faults, requests, defs)
    ensures var v := Latest(records, migrationSet);
      var t := Expected(migrationSet, records, faults, requests, defs);
      (t.err.None? <==> Clear(defs, v, faults, requests + 1, |defs| - v)) &&
      (t.err.None? ==>
        t.summary.currentVersion == |defs| && t.invoked == Pending(defs, v) &&
        |t.summary.executions| == |t.invoked| &&
        forall j :: 0 <= j < |t.invoked| ==> t.summary.executions[j] == Execution(t.invoked[j].name))
  {
    var v := Latest(records, migrationSet);
    var k := Halt(defs, v, faults, requests + 1, 0);
    if Clear(defs, v, faults, requests + 1, |defs| - v) {
      HaltAt(defs, v, faults, requests + 1, |defs| - v);
    }
    ExecutedAt(defs, v, k);
  }

  /** When an action fails, the run stops at that step: the definition it
      names is the one pending above the version reached, it has run but is
      not reported as an execution, and no record is written for it. */
  lemma ActionFailure(migrationSet: string, records: map<Key, string>, faults: seq<Option<string>>,
                      requests: nat, defs: seq<Definition>)
    ensures var t := Expected(migrationSet, records, faults, requests, defs);
      var start, current := t.summary.startingVersion, t.summary.currentVersion;
      t.err.Some? && t.err.value.MigrationFailed? ==>
        start <= current < |defs| &&
        defs[|defs| - current - 1] == Definition(t.err.value.name, FailsWith(t.err.value.cause)) &&
        |t.summary.executions| == current - start &&
        t.invoked == Ran(defs, start, current - start + 1) &&
        Key(migrationSet, current + 1) !in records + t.written &&
        t.requests == requests + 1 + (current - start)
  {
    if Reconciles(migrationSet, records, faults, requests, defs) {
      var v := Latest(records, migrationSet);
      var k := Halt(defs, v, faults, requests + 1, 0);
      CommittedKeys(migrationSet, defs, v, k);
    }
  }

  /** When a write fails, the run stops at that step with the store's own
      error; the step's execution is still reported, so there is one more
      execution than versions gone through, and no record is written. */
  lemma WriteFailure(migrationSet: string, records: map<Key, string>, faults: seq<Option<string>>,
                     requests: nat, defs: seq<Definition>)
    requires Fault(faults, requests).None?
    ensures var t := Expected(migrationSet, records, faults, requests, defs);
      var start, current := t.summary.startingVersion, t.summary.currentVersion;
      t.err.Some? && t.err.value.StoreFailure? ==>
        start <= current < |defs| &&
        defs[|defs| - current - 1].action.Succeeds? &&
        |t.summary.executions| == current - start + 1 &&
        t.summary.executions[current - start] == Execution(defs[|defs| - current - 1].name) &&
        t.err.value.failure == Unavailable(Fault(faults, requests + 1 + (current - start)).value) &&
        Key(migrationSet, current + 1) !in records + t.written &&
        t.requests == requests + 2 + (current - start)
  {
    if Reconciles(migrationSet, records, faults, requests, defs) {
      var v := Latest(records, migrationSet);
      var k := Halt(defs, v, faults, requests + 1, 0);
      CommittedKeys(migrationSet, defs, v, k);
    }
  }

  /** Only pending actions run, each at most once and oldest first, and the
      executions reported are the first of them, in the same order. */
  lemma InvokesPendingInOrder(migrationSet: string, records: map<Key, string>, faults: seq<Option<string>>,
                              requests: nat, defs: seq<Definition>)
    ensures var t := Expected(migrationSet, records, faults, requests, defs);
      var v := Latest(records, migrationSet);
      (t.invoked == [] || (Reconciles(migrationSet, records, faults, requests, defs) && |t.invoked| <= |defs| - v &&
        forall j :: 0 <= j < |t.invoked| ==> t.invoked[j] == defs[|defs| - v - 1 - j])) &&
      |t.summary.executions| <= |t.invoked| &&
      forall j :: 0 <= j < |t.summary.executions| ==> t.summary.executions[j] == Execution(t.invoked[j].name)
  {
    if Reconciles(migrationSet, records, faults, requests, defs) {
      var v := Latest(records, migrationSet);
      var k := Halt(defs, v, faults, requests + 1, 0);
      var n := if v + k < |defs| then k + 1 else k;
      RanAt(defs, v, n);
      ExecutedAt(defs, v, k);
      if v + k < |defs| {
        ExecutedAt(defs, v, k + 1);
        RanAt(defs, v, k + 1);
      }
      RanAt(defs, v, k);
    }
  }

  /** Running the same list again after a run that completed calls no
      action, writes nothing and reports the list's length as both versions. */
  lemma RerunIsNoop(migrationSet: string, records: map<Key, string>, faults: seq<Option<string>>,
                    requests: nat, defs: seq<Definition>, faults': seq<Option<string>>, requests': nat)
    requires Reconciles(migrationSet, records, faults, requests, defs)
    requires Expected(migrationSet, records, faults, requests, defs).err.None?
    requires Fault(faults', requests').None?
    ensures var t := Expected(migrationSet, records, faults, requests, defs);
      var u := Expected(migrationSet, records + t.written, faults', requests', defs);
      u.err.None? && u.invoked == [] && u.written == map[] &&
      u.summary == Summary(|defs|, |defs|, []) && u.requests == requests' + 1
  {
    var t := Expected(migrationSet, records, faults, requests, defs);
    CompleteRun(migrationSet, records, faults, requests, defs);
    LatestAfterRun(migrationSet, records, faults, requests, defs);
    ExpectedApplies(migrationSet, records + t.written, faults', requests', defs, |defs|);
  }

  /** After a run that stopped part-way, the next run starts from the
      version the first one reached. */
  lemma ResumesWhereItStopped(migrationSet: string, records: map<Key, string>, faults: seq<Option<string>>,
                              requests: nat, defs: seq<Definition>, faults': seq<Option<string>>, requests': nat)
    requires Reconciles(migrationSet, records, faults, requests, defs)
    requires Fault(faults', requests').None?
    ensures var t := Expected(migrationSet, records, faults, requests, defs);
      var u := Expected(migrationSet, records + t.written, faults', requests', defs);
      u.summary.startingVersion == t.summary.currentVersion
  {
    var t := Expected(migrationSet, records, faults, requests, defs);
    LatestAfterRun(migrationSet, records, faults, requests, defs);
    Accounting(migrationSet, records, faults, requests, defs);
    var c := t.summary.currentVersion;
    assert c <= |defs| by {
      var v := Latest(records, migrationSet);
      assert c == v + Halt(defs, v, faults, requests + 1, 0);
    }
    ExpectedApplies(migrationSet, records + t.written, faults', requests', defs, c);
  }

  /** A migration added to the front of a list that has been fully applied
      is the only one the next run calls, and it is recorded as the next
      version. */
  lemma NewMigrationRunsAlone(migrationSet: string, records: map<Key, string>, faults: seq<Option<string>>,
                              requests: nat, defs: seq<Definition>, d: Definition,
                              faults': seq<Option<string>>, requests': nat)
    requires Reconciles(migrationSet, records, faults, requests, defs)
    requires Expected(migrationSet, records, faults, requests, defs).err.None?
    requires d.action.Succeeds? && Fault(faults', requests').None? && Fault(faults', requests' + 1).None?
    ensures var t := Expected(migrationSet, records, faults, requests, defs);
      var u := Expected(migrationSet, records + t.written, faults', requests', [d] + defs);
      u.err.None? && u.invoked == [d] && u.written == map[Key(migrationSet, |defs| + 1) := d.name] &&
      u.summary == Summary(|defs|, |defs| + 1, [Execution(d.name)])
  {
    var t := Expected(migrationSet, records, faults, requests, defs);
    CompleteRun(migrationSet, records, faults, requests, defs);
    LatestAfterRun(migrationSet, records, faults, requests, defs);
    ExpectedApplies(migrationSet, records + t.written, faults', requests', [d] + defs, |defs|);
    var defs' := [d] + defs;
    assert defs'[0] == d;
    HaltAt(defs', |defs|, faults', requests' + 1, 1);
    assert Ran(defs', |defs|, 1) == [d];
    assert Executed(defs', |defs|, 1) == [Execution(d.name)];
    assert Committed(migrationSet, defs', |defs|, 1) == map[Key(migrationSet, |defs| + 1) := d.name];
  }
}
