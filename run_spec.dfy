/** What a run of the migration engine does, stated in closed form: which
    definitions are pending, at which step the run stops, and what it
    reports, invokes and writes. The engine's loop is proved to agree with
    `Expected`, and the properties the engine promises are proved about
    `Expected` in module RunProperties. */
module RunSpec {
  import opened MigratorTypes
  import opened VersionStore

  /** The first `m` definitions still to run when `v` have been applied,
      oldest first. The list is newest first, so the definition that version
      w records is the one at index |defs| - w. */
  function Ran(defs: seq<Definition>, v: nat, m: nat): (r: seq<Definition>)
    requires v + m <= |defs|
    ensures |r| == m
  {
    if m == 0 then [] else Ran(defs, v, m - 1) + [defs[|defs| - v - m]]
  }

  /** Every definition still to run when `v` have been applied, oldest first:
      the walk from index |defs| - v - 1 down to index 0. */
  function Pending(defs: seq<Definition>, v: nat): (p: seq<Definition>)
    requires v <= |defs|
    ensures |p| == |defs| - v
  {
    Ran(defs, v, |defs| - v)
  }

  /** Step j of a run from version v runs the definition at index
      |defs| - v - 1 - j, the one that version v + 1 + j records. */
  lemma {:induction false} RanAt(defs: seq<Definition>, v: nat, m: nat)
    requires v + m <= |defs|
    ensures forall j :: 0 <= j < m ==> Ran(defs, v, m)[j] == defs[|defs| - v - 1 - j]
  {
    if m > 0 {
      RanAt(defs, v, m - 1);
    }
  }

  /** A sequence in reverse order. */
  function Reverse<T>(s: seq<T>): (r: seq<T>)
    ensures |r| == |s|
  {
    if s == [] then [] else Reverse(s[1..]) + [s[0]]
  }

  lemma {:induction false} ReverseAt<T>(s: seq<T>)
    ensures forall j :: 0 <= j < |s| ==> Reverse(s)[j] == s[|s| - 1 - j]
  {
    if s != [] {
      ReverseAt(s[1..]);
    }
  }

  /** The pending definitions are the oldest |defs| - v definitions, in the
      reverse of their list order: the oldest pending one runs first. */
  lemma PendingIsOldestReversed(defs: seq<Definition>, v: nat)
    requires v <= |defs|
    ensures Pending(defs, v) == Reverse(defs[..|defs| - v])
  {
    RanAt(defs, v, |defs| - v);
    ReverseAt(defs[..|defs| - v]);
  }

  /** A new migration is added by prepending it to the list; it then runs
      last, after every older pending one. */
  lemma PrependedRunsLast(defs: seq<Definition>, d: Definition, v: nat)
    requires v <= |defs|
    ensures Pending([d] + defs, v) == Pending(defs, v) + [d]
  {
    var p, q := Pending([d] + defs, v), Pending(defs, v) + [d];
    RanAt([d] + defs, v, |defs| + 1 - v);
    RanAt(defs, v, |defs| - v);
    forall j | 0 <= j < |p|
      ensures p[j] == q[j]
    {
      if j < |defs| - v {
        assert ([d] + defs)[|defs| - v - j] == defs[|defs| - v - 1 - j];
      }
    }
  }

  /** Step j of a run from version v stops it: the action fails, or the
      write that would record it, request number base + j, fails. */
  predicate Stops(defs: seq<Definition>, v: nat, faults: seq<Option<string>>, base: nat, j: nat)
    requires v + j < |defs|
  {
    defs[|defs| - v - 1 - j].action.FailsWith? || Fault(faults, base + j).Some?
  }

  /** No step before step k stops the run. */
  predicate Clear(defs: seq<Definition>, v: nat, faults: seq<Option<string>>, base: nat, k: nat)
    requires v + k <= |defs|
  {
    forall j :: 0 <= j < k ==> !Stops(defs, v, faults, base, j)
  }

  /** The step at which a run from version v stops, scanning from step j,
      or |defs| - v when no step from j on stops. */
  function Halt(defs: seq<Definition>, v: nat, faults: seq<Option<string>>, base: nat, j: nat): (k: nat)
    requires v + j <= |defs|
    requires Clear(defs, v, faults, base, j)
    ensures j <= k && v + k <= |defs|
    ensures Clear(defs, v, faults, base, k)
    ensures v + k < |defs| ==> Stops(defs, v, faults, base, k)
    decreases |defs| - v - j
  {
    if v + j == |defs| then j
    else if Stops(defs, v, faults, base, j) then j
    else Halt(defs, v, faults, base, j + 1)
  }

  /** The stopping step is the only step before which no step stops and at
      which one does. */
  lemma HaltAt(defs: seq<Definition>, v: nat, faults: seq<Option<string>>, base: nat, k: nat)
    requires v + k <= |defs|
    requires Clear(defs, v, faults, base, k)
    requires v + k < |defs| ==> Stops(defs, v, faults, base, k)
    ensures Halt(defs, v, faults, base, 0) == k
  {
  }

  /** A step that does not stop extends the clear prefix by one. */
  lemma ClearOneMore(defs: seq<Definition>, v: nat, faults: seq<Option<string>>, base: nat, k: nat)
    requires v + k < |defs| && Clear(defs, v, faults, base, k) && !Stops(defs, v, faults, base, k)
    ensures Clear(defs, v, faults, base, k + 1)
  {
  }

  /** The executions reported for the first m steps, in the order they ran. */
  function Executed(defs: seq<Definition>, v: nat, m: nat): (e: seq<Execution>)
    requires v + m <= |defs|
    ensures |e| == m
  {
    if m == 0 then [] else Executed(defs, v, m - 1) + [Execution(defs[|defs| - v - m].name)]
  }

  /** Each execution reported carries the name of the step that ran. */
  lemma {:induction false} ExecutedAt(defs: seq<Definition>, v: nat, m: nat)
    requires v + m <= |defs|
    ensures forall j :: 0 <= j < m ==> Executed(defs, v, m)[j] == Execution(Ran(defs, v, m)[j].name)
  {
    if m > 0 {
      ExecutedAt(defs, v, m - 1);
    }
  }

  /** The records that commit the first m steps: step j is recorded under
      version v + 1 + j, with its definition's name. */
  function Committed(migrationSet: string, defs: seq<Definition>, v: nat, m: nat): map<Key, string>
    requires v + m <= |defs|
  {
    if m == 0 then map[]
    else Committed(migrationSet, defs, v, m - 1)[Key(migrationSet, v + m) := defs[|defs| - v - m].name]
  }

  /** The first m steps commit exactly the versions v + 1 through v + m of
      the migration set, and version w records the definition at index
      |defs| - w, so a version number always names the same definition. */
  lemma {:induction false} CommittedKeys(migrationSet: string, defs: seq<Definition>, v: nat, m: nat)
    requires v + m <= |defs|
    ensures forall k :: k in Committed(migrationSet, defs, v, m) <==>
      k.migrationSet == migrationSet && v < k.versionNo <= v + m
    ensures forall k :: k in Committed(migrationSet, defs, v, m) ==>
      Committed(migrationSet, defs, v, m)[k] == defs[|defs| - k.versionNo].name
  {
    if m > 0 {
      CommittedKeys(migrationSet, defs, v, m - 1);
    }
  }

  /** The table after the first m steps have been committed on top of
      `records`, one write at a time. */
  function Extend(records: map<Key, string>, migrationSet: string, defs: seq<Definition>, v: nat, m: nat): map<Key, string>
    requires v + m <= |defs|
  {
    if m == 0 then records
    else Extend(records, migrationSet, defs, v, m - 1)[Key(migrationSet, v + m) := defs[|defs| - v - m].name]
  }

  /** Committing one write at a time adds the committed records to the
      table, whatever was in it before. */
  lemma {:induction false} ExtendMerges(records: map<Key, string>, migrationSet: string, defs: seq<Definition>, v: nat, m: nat)
    requires v + m <= |defs|
    ensures Extend(records, migrationSet, defs, v, m) == records + Committed(migrationSet, defs, v, m)
  {
    if m > 0 {
      ExtendMerges(records, migrationSet, defs, v, m - 1);
    }
  }

  /** The version a step is about to record is still free when the run
      started from the latest version: a run never overwrites a record. */
  lemma NextKeyFree(records: map<Key, string>, migrationSet: string, defs: seq<Definition>, v: nat, m: nat)
    requires IsLatest(records, migrationSet, v) && v + m < |defs|
    ensures Key(migrationSet, v + m + 1) !in Extend(records, migrationSet, defs, v, m)
  {
    CommittedKeys(migrationSet, defs, v, m);
    ExtendMerges(records, migrationSet, defs, v, m);
  }

  /** What a run reports, invokes and writes. */
  datatype Trace = Trace(
    summary: Summary,
    err: Option<Error>,
    /** the definitions whose actions ran, in order */
    invoked: seq<Definition>,
    /** the records written: key and name */
    written: map<Key, string>,
    /** the store's request count afterwards */
    requests: nat)

  /** The reconciliation loop from latest version `v`, when the write for
      step j is request number base + j. */
  function Apply(migrationSet: string, v: nat, defs: seq<Definition>, faults: seq<Option<string>>, base: nat): Trace
    requires v <= |defs|
  {
    var k := Halt(defs, v, faults, base, 0);
    if v + k == |defs| then
      Trace(Summary(v, v + k, Executed(defs, v, k)), None,
            Ran(defs, v, k), Committed(migrationSet, defs, v, k), base + k)
    else
      var d := defs[|defs| - v - 1 - k];
      if d.action.FailsWith? then
        Trace(Summary(v, v + k, Executed(defs, v, k)), Some(MigrationFailed(d.name, d.action.cause)),
              Ran(defs, v, k + 1), Committed(migrationSet, defs, v, k), base + k)
      else
        Trace(Summary(v, v + k, Executed(defs, v, k + 1)), Some(StoreFailure(Unavailable(Fault(faults, base + k).value))),
              Ran(defs, v, k + 1), Committed(migrationSet, defs, v, k), base + k + 1)
  }

  /** Where the reconciliation loop leaves off: after `done` steps that did
      not stop, either no step is left, or step `done` stopped the run on
      its action or on its write, with the error the loop reports. */
  lemma ApplyAfterLoop(records: map<Key, string>, migrationSet: string, v: nat, defs: seq<Definition>,
                       faults: seq<Option<string>>, base: nat, done: nat, stop: Option<Error>)
    requires v + done <= |defs| && Clear(defs, v, faults, base, done)
    requires stop.None? ==> v + done == |defs|
    requires stop.Some? ==> v + done < |defs| && Stops(defs, v, faults, base, done)
    requires stop.Some? ==> stop == (var d := defs[|defs| - v - 1 - done];
      if d.action.FailsWith? then Some(MigrationFailed(d.name, d.action.cause))
      else Some(StoreFailure(Unavailable(Fault(faults, base + done).value))))
    ensures var t := Apply(migrationSet, v, defs, faults, base);
      t.summary == Summary(v, v + done, if stop.Some? && defs[|defs| - v - 1 - done].action.Succeeds? then Executed(defs, v, done + 1) else Executed(defs, v, done)) &&
      t.err == stop &&
      t.invoked == (if stop.Some? then Ran(defs, v, done + 1) else Ran(defs, v, done)) &&
      records + t.written == Extend(records, migrationSet, defs, v, done) &&
      t.requests == (if stop.Some? && defs[|defs| - v - 1 - done].action.Succeeds? then base + done + 1 else base + done)
  {
    HaltAt(defs, v, faults, base, done);
    ExtendMerges(records, migrationSet, defs, v, done);
  }

  /** A whole run against a store holding `records` that has served
      `requests` requests: read the latest version, take the two early
      exits, then reconcile. */
  ghost function Expected(migrationSet: string, records: map<Key, string>, faults: seq<Option<string>>,
                          requests: nat, defs: seq<Definition>): Trace
  {
    match Fault(faults, requests)
    case Some(detail) => Trace(EmptySummary, Some(StoreFailure(Unavailable(detail))), [], map[], requests + 1)
    case None =>
      var v := Latest(records, migrationSet);
      if |defs| == 0 then Trace(EmptySummary, None, [], map[], requests + 1)
      else if |defs| < v then Trace(EmptySummary, Some(MigrationHole), [], map[], requests + 1)
      else Apply(migrationSet, v, defs, faults, requests + 1)
  }

  /** Once the latest version is read and neither early exit applies, a run
      is the reconciliation loop. */
  lemma ExpectedApplies(migrationSet: string, records: map<Key, string>, faults: seq<Option<string>>,
                        requests: nat, defs: seq<Definition>, v: nat)
    requires Fault(faults, requests).None? && IsLatest(records, migrationSet, v)
    requires 0 < |defs| && v <= |defs|
    ensures Expected(migrationSet, records, faults, requests, defs) == Apply(migrationSet, v, defs, faults, requests + 1)
  {
    LatestUnique(records, migrationSet, v, Latest(records, migrationSet));
  }
}
