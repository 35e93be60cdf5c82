/** Values of the migrator package: migration definitions, what a run reports
    (executions and the summary), the persisted version record and its key,
    and the errors a run can end with. */
module MigratorTypes {

  datatype Option<+T> = None | Some(value: T)

  datatype Result<+T, +E> = Ok(value: T) | Err(error: E)

  /** What a definition's zero-argument action does when it is called:
      it returns no error, or it returns an error whose text is `cause`. */
  datatype Action = Succeeds | FailsWith(cause: string)

  /** One named migration step. A migration set is a sequence of these,
      newest first. */
  datatype Definition = Definition(name: string, action: Action)

  /** One action that ran to success during a run. */
  datatype Execution = Execution(name: string)

  /** What a run reports: the version it started from, the version it
      reached, and the actions that ran to success, in the order they ran. */
  datatype Summary = Summary(startingVersion: nat, currentVersion: nat, executions: seq<Execution>)

  /** The zero summary, returned by the early exits of a run. */
  const EmptySummary := Summary(0, 0, [])

  /** Primary key of a persisted record: partition key `migration_set`,
      sort key `version_number`. */
  datatype Key = Key(migrationSet: string, versionNo: nat)

  /** A persisted record of one applied migration step. */
  datatype VersionRecord = VersionRecord(migrationSet: string, versionNo: nat, name: string)
  {
    function KeyOf(): Key { Key(migrationSet, versionNo) }
  }

  /** The zero record, which reading an empty migration set yields. */
  const ZeroVersion := VersionRecord("", 0, "")

  /** Failures of the version store: the backend did not answer (with the
      text it gave), or a conditional write found its key taken. */
  datatype StoreError = Unavailable(detail: string) | ConditionalCheckFailed

  /** The errors a run returns. */
  datatype Error =
    | StoreFailure(failure: StoreError)
    | MigrationHole
    | MigrationFailed(name: string, cause: string)

  /** Text of the migration-hole sentinel. */
  const HoleText := "too few migrations, did you remove any by accident?"

  /** The text an error reads as. A failed action's error wraps its cause
      behind the definition's name. */
  function Message(e: Error): string
  {
    match e
    case StoreFailure(Unavailable(detail)) => detail
    case StoreFailure(ConditionalCheckFailed) => "conditional check failed"
    case MigrationHole => HoleText
    case MigrationFailed(name, cause) => "migration '" + name + "' failure: " + cause
  }

  /** The text of a failed action's error names the definition and ends in
      the cause, so both can be read back from it. */
  lemma FailureMessageParts(name: string, cause: string)
    ensures var m := Message(MigrationFailed(name, cause));
      |m| == |name| + |cause| + 22 &&
      m[..11] == "migration '" &&
      m[11..11 + |name|] == name &&
      m[11 + |name|..22 + |name|] == "' failure: " &&
      m[22 + |name|..] == cause
  {
  }
}
