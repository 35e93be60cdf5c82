# go-aws-migrator: the migration engine, modelled in Dafny

go-aws-migrator applies ordered, named migration steps ("definitions") to a
system and keeps track of which steps have been applied. Applied steps are
recorded in a DynamoDB table, one record per step. Each record is keyed by
the migration set and a version number.

`Migrator.Run` works in four stages:
- It reads the latest applied version `v` of a migration set.
- It returns at once when the definition list is empty.
- It rejects a list shorter than `v` as a migration hole.
- Otherwise it walks the newest-first list backwards from index `len(defs) - v - 1` down to 0. For each step it:
  - calls the step's action;
  - reports the step as an execution;
  - records the step as version `currentVersion + 1` with a conditional insert;
  - moves `currentVersion` on.

The walk stops at the first failing action or write and returns the partial
summary.

The model has five modules:

- `MigratorTypes` (`types.dfy`) holds the package's values.
  - Definitions: an action is either `Succeeds` or `FailsWith(cause)`.
  - `Summary`, `Execution`, the persisted `VersionRecord` and its `Key`.
  - The run's errors, and the text each error reads as.
- `VersionStore` (`version_store.dfy`) holds the version table as a class `Store`.
  - `records` maps each primary key to the record's one non-key attribute, the definition's name. A record therefore always sits under its own key.
  - `faults` is a script of backend failures: request number `c` fails with the text `faults[c]` when one is given there. `requests` counts the requests made.
  - `Put` is the conditional insert. `Get` reads the highest-numbered record of a set, or the zero record when the set has none.
  - `IsLatest`/`Latest` define "latest version", and the lemmas about it live here too.
- `Engine` (`engine.dfy`) holds the class `Migrator` with `Run`, proved against `RunSpec.Expected`.
  - `Reconcile` is the `for` loop of `Run`.
  - `Step` is one pass of the loop body.
  - The class `Environment` stands for the world the actions act on. It logs every action called.
- `RunSpec` (`run_spec.dfy`) states in closed form what a run does.
  - `Ran`/`Pending` give the steps in run order.
  - `Halt` gives the step at which the run stops.
  - `Executed` and `Committed` give what the run reports and writes.
  - `Apply` is the loop. `Expected` is a whole run, as a `Trace` of summary, error, actions called, records written and requests made.
- `RunProperties` and `RunScenarios` hold the lemmas.
  - `RunProperties` (`run_properties.dfy`) states what a run promises, for all inputs.
  - `RunScenarios` (`run_scenarios.dfy`) states the outcomes of the concrete scenarios in the package's test file.

`Run`'s early returns inside the loop become a `break` followed by one
`return` of the same summary. This is because every exit of the Go loop
returns `Summary{v.VersionNo, currentVersion, executions}`.

On a failed write, the just-executed step is already in `Executions`, because
the code appends it before the write (src/migrator/store.go:52-58; the test at
src/migrator/migrator_test.go:59-62 agrees). Such a summary therefore has one
more execution than versions gone through. The model follows the code.

## Model

| member | source | states |
|---|---|---|
| MigratorTypes.FailureMessageParts | src/migrator/store.go:48 | a failed action's error reads `migration '<name>' failure: <cause>`, so both the name and the cause can be read back from it |
| VersionStore.TopKeyExists | src/migrator/store.go:120-132 | a set with records has a highest-numbered one, so the descending, limit-1 query always has an answer |
| VersionStore.LatestUnique | src/migrator/store.go:113-145 | the latest version of a migration set is unique |
| VersionStore.Latest | src/migrator/store.go:113-145 | the latest version: no record of the set is numbered above it, and it is 0 or the number of a stored record |
| VersionStore.LatestAfterNext | src/migrator/store.go:58-73 | the record numbered just above the latest is not yet stored, and inserting it makes it the latest |
| VersionStore.Store.Put | src/migrator/store.go:85-110 | a backend failure returns the backend's error and changes nothing; an existing key returns a conditional-check failure and changes nothing; otherwise the record is inserted and nothing else changes; each call is one request |
| VersionStore.Store.Get | src/migrator/store.go:113-145 | a backend failure returns its error; otherwise the result is the latest version, which is the stored record under that key when the set has records and the zero record when it has none |
| Engine.Environment.Call | src/migrator/store.go:42 | calling an action logs it and returns its error, if it has one |
| Engine.Migrator.New | src/migrator/store.go:16-18 | the migrator keeps the store and table name it is given |
| Engine.Migrator.Run | src/migrator/store.go:21-82 | the summary, error, actions called, records written and requests made are exactly those of `Expected` for the store on entry |
| Engine.Migrator.Reconcile | src/migrator/store.go:36-80 | from latest version `v`, the loop's summary, error, actions called, table afterwards and requests made are those of `Apply` |
| Engine.Migrator.Step | src/migrator/store.go:39-73 | a failed action leaves the executions and the table alone; a succeeding action is reported, and then its record is either inserted as the next version or the write's error is returned unchanged |
| RunSpec.RanAt | src/migrator/store.go:38-39 | step j of a run from version v runs the definition at index len(defs) - v - 1 - j |
| RunSpec.PendingIsOldestReversed | src/migrator/store.go:38-39 | the pending definitions are the oldest len(defs) - v, run in reverse list order, so the oldest pending one runs first |
| RunSpec.PrependedRunsLast | src/migrator/store.go:38-39 | a definition added at the front of the list runs after every older pending one |
| RunSpec.Halt | src/migrator/store.go:38-71 | the stopping step: no earlier step's action or write fails, and at that step one does, unless no pending step is left |
| RunSpec.HaltAt | src/migrator/store.go:38-71 | the stopping step is the only step with that property |
| RunSpec.ExecutedAt | src/migrator/store.go:52-56 | the i-th execution reported names the i-th step run |
| RunSpec.CommittedKeys | src/migrator/store.go:58-73 | the first m steps commit exactly versions v + 1 through v + m of the set, and version w records the definition at index len(defs) - w |
| RunSpec.ExtendMerges | src/migrator/store.go:58-73 | committing one write at a time adds exactly the committed records to the table |
| RunSpec.NextKeyFree | src/migrator/store.go:91-94 | the key a step writes is always free, so the conditional insert never rejects an engine write |
| RunSpec.ApplyAfterLoop | src/migrator/store.go:38-80 | wherever the loop leaves off (list exhausted, failed action or failed write), its summary, error, actions called, table and request count are those of `Apply` |
| RunSpec.ExpectedApplies | src/migrator/store.go:22-34 | once the read has succeeded and neither early exit applies, a run is the reconciliation loop from the latest version |
| RunProperties.EarlyExits | src/migrator/store.go:22-34 | a failed read, an empty list and a migration hole each return the zero summary, call no action and write nothing; the read error comes first, and the empty list is checked before the hole |
| RunProperties.HoleIff | src/migrator/migrator.go:12-15 | a run reports a migration hole if and only if the read succeeds, the list is non-empty and shorter than the latest version |
| RunProperties.Accounting | src/migrator/store.go:36-80 | starting ≤ current ≤ len(defs); the records written are exactly versions starting + 1 through current; the executions number current − starting, or one more after a failed write |
| RunProperties.ApplyAccounting | src/migrator/store.go:36-80 | the same accounting for the loop alone |
| RunProperties.WrittenRecords | src/migrator/migrator.go:19-22 | a run only inserts: every record it writes is new, has version ≥ 1 and ≤ len(defs), and carries the name of the definition at index len(defs) − version |
| RunProperties.LatestAfterRun | src/migrator/store.go:58-73 | after a run past the early exits, the run started at the latest version and the latest version is now the one it reports reaching |
| RunProperties.CompleteRun | src/migrator/store.go:76-80 | a run ends without error if and only if no pending step fails; it then reaches len(defs), has called every pending action once, oldest first, and reports one execution per action in the same order |
| RunProperties.ActionFailure | src/migrator/store.go:42-49 | a failed action names the definition pending above the version reached; it ran, is not reported, and no record is written for it |
| RunProperties.WriteFailure | src/migrator/store.go:58-71 | a failed write returns the store's error unchanged; the step is reported as an execution but the version is not raised and nothing is recorded for it |
| RunProperties.InvokesPendingInOrder | src/migrator/store.go:38-42 | only pending actions are called, each at most once, oldest first; the executions are the first of them, in the same order |
| RunProperties.RerunIsNoop | src/migrator/store.go:38-80 | running the same list again after a complete run calls nothing, writes nothing and reports len(defs) as both versions |
| RunProperties.ResumesWhereItStopped | src/migrator/store.go:22-38 | the next run starts from the version the previous run reached |
| RunProperties.NewMigrationRunsAlone | src/migrator/store.go:38-73 | after a complete run, a definition added at the front is the only one the next run calls, and it is recorded as version len(defs) + 1 |
| RunScenarios.EmptyStoreIsAtZero | src/migrator/store.go:134-136 | an empty table is at version 0 |
| RunScenarios.ReadFailureScenario | src/migrator/migrator_test.go:19-28 | a failed read is reported with the backend's text and the zero summary, even for an empty list |
| RunScenarios.ActionFailureScenario | src/migrator/migrator_test.go:31-43 | a failing action at version 0 returns its wrapped error and the zero summary |
| RunScenarios.ActionFailureText | src/migrator/migrator_test.go:42 | that error reads `migration 'testfunc' failure: boom` |
| RunScenarios.WriteFailureScenario | src/migrator/migrator_test.go:46-62 | a failing write leaves version 0 but reports one execution |
| RunScenarios.HoleScenario | src/migrator/migrator_test.go:65-80 | a table at version 2 and a one-definition list is a migration hole |
| RunScenarios.NoMigrationsScenario | src/migrator/migrator_test.go:86-98 | an empty list succeeds with the zero summary |
| RunScenarios.OneMigrationScenario | src/migrator/migrator_test.go:100-118 | one definition on an empty table runs and is recorded as version 1 |
| RunScenarios.TwoMigrationsScenario | src/migrator/migrator_test.go:120-143 | at version 1 the two newer of three definitions run, oldest first, and are recorded as versions 2 and 3 |

## Left out

- Timestamps: `FiredAt` and `Elapsed` in `Execution` and in the version record come from the clock, so they are not modelled.
- `context.Context` and concurrent runs are not modelled. The conditional write's protection against a racing writer is reduced to its sequential meaning: a taken key is rejected.
- DynamoDB plumbing is not modelled: the expression builders, the marshalling and unmarshalling of records, and the request structures.
  - All backend failures, including those of marshalling, collapse into one `Unavailable(detail)` outcome, driven by the fault script.
  - A `ConditionalCheckFailed` outcome is modelled in `Put`, but the engine provably never meets it (`RunSpec.NextKeyFree`).
- The query's descending order with limit 1 is modelled by its result: the highest-numbered record of the set. The query itself is not modelled.
- `VersionStore.Store.Get`: the Go code builds the zero `version{}` for an empty set. The model returns a zero record (`ZeroVersion`), whose empty migration set differs from the one asked for. The engine uses only its version number.
- Version numbers are `nat`.
  - A negative `version_number` in the table is excluded by the type. Go would start the walk at an index past the end of the list.
  - Go's 64-bit `int` overflow is not modelled.
- Actions are modelled by their outcome only (`Succeeds` or `FailsWith`). Their effects on the world are abstracted as the log kept by `Engine.Environment`, which Go does not have as a parameter.
- `tableName` is kept by `Migrator` but has no effect in the model, because the model has one table.
- The `API` interface is the `Store` class; its generated mock (src/migrator/mock/migrator.go) is not part of this model.
- The provider interface and its options (src/migrator/migrator.go:24-36), and the example programs under src/examples, are not part of this model.
