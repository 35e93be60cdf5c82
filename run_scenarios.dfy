/** The engine's documented scenarios, each stated as the outcome `Expected`
    gives for one concrete store, fault script and definition list. The
    migration set is "test" throughout; request 0 is the read of the latest
    version, and request 1 + j is the write for step j. */
module RunScenarios {
  import opened MigratorTypes
  import opened VersionStore
  import opened RunSpec

  const Succeeding := Definition("testfunc", Succeeds)

  /** With no record stored, the latest version is 0. */
  lemma EmptyStoreIsAtZero()
    ensures Latest(map[], "test") == 0
  {
    LatestUnique(map[], "test", 0, Latest(map[], "test"));
  }

  /** A failed read is reported as the store's own error, before the empty
      definition list is looked at. */
  lemma ReadFailureScenario()
    ensures var t := Expected("test", map[], [Some("random error")], 0, []);
      t.summary == EmptySummary && t.err.Some? && Message(t.err.value) == "random error" && t.invoked == []
  {
  }

  /** A failing action at version 0 wraps its error behind the definition's
      name and leaves the zero summary. */
  lemma ActionFailureScenario()
    ensures var t := Expected("test", map[], [], 0, [Definition("testfunc", FailsWith("boom"))]);
      t.summary == Summary(0, 0, []) && t.written == map[] &&
      t.err == Some(MigrationFailed("testfunc", "boom"))
  {
    var defs := [Definition("testfunc", FailsWith("boom"))];
    EmptyStoreIsAtZero();
    ExpectedApplies("test", map[], [], 0, defs, 0);
    HaltAt(defs, 0, [], 1, 0);
  }

  /** The text of that error. */
  lemma ActionFailureText()
    ensures Message(MigrationFailed("testfunc", "boom")) == "migration 'testfunc' failure: boom"
  {
  }

  /** A failing write leaves the version at 0, yet reports the action that
      ran as an execution. */
  lemma WriteFailureScenario()
    ensures var t := Expected("test", map[], [None, Some("boom")], 0, [Succeeding]);
      t.summary == Summary(0, 0, [Execution("testfunc")]) && t.written == map[] &&
      t.err == Some(StoreFailure(Unavailable("boom")))
  {
    EmptyStoreIsAtZero();
    HaltAt([Succeeding], 0, [None, Some("boom")], 1, 0);
  }

  /** A store at version 2 and a list of one definition is a migration hole. */
  lemma HoleScenario()
    ensures var t := Expected("test", map[Key("test", 2) := ""], [], 0, [Succeeding]);
      t.summary == EmptySummary && t.err == Some(MigrationHole) && t.invoked == [] &&
      Message(t.err.value) == "too few migrations, did you remove any by accident?"
  {
    var records := map[Key("test", 2) := ""];
    assert IsLatest(records, "test", 2);
    LatestUnique(records, "test", 2, Latest(records, "test"));
  }

  /** An empty list is not an error and runs nothing. */
  lemma NoMigrationsScenario()
    ensures var t := Expected("test", map[], [], 0, []);
      t.summary == EmptySummary && t.err == None && t.invoked == [] && t.written == map[]
  {
  }

  /** One definition on an empty store is run and recorded as version 1. */
  lemma OneMigrationScenario()
    ensures var t := Expected("test", map[], [], 0, [Succeeding]);
      t.summary == Summary(0, 1, [Execution("testfunc")]) && t.err == None &&
      t.written == map[Key("test", 1) := "testfunc"]
  {
    EmptyStoreIsAtZero();
    HaltAt([Succeeding], 0, [], 1, 1);
    assert Committed("test", [Succeeding], 0, 1) == map[Key("test", 1) := "testfunc"];
  }

  /** At version 1, of three definitions (newest first) the two newer ones
      run, oldest first, and are recorded as versions 2 and 3. */
  lemma TwoMigrationsScenario()
    ensures var defs := [Definition("testfunc3", Succeeds), Definition("testfunc2", Succeeds), Definition("testfunc1", Succeeds)];
      var t := Expected("test", map[Key("test", 1) := "testfunc1"], [], 0, defs);
      t.summary == Summary(1, 3, [Execution("testfunc2"), Execution("testfunc3")]) && t.err == None &&
      t.written == map[Key("test", 2) := "testfunc2", Key("test", 3) := "testfunc3"]
  {
    var defs := [Definition("testfunc3", Succeeds), Definition("testfunc2", Succeeds), Definition("testfunc1", Succeeds)];
    var records := map[Key("test", 1) := "testfunc1"];
    assert IsLatest(records, "test", 1);
    ExpectedApplies("test", records, [], 0, defs, 1);
    HaltAt(defs, 1, [], 1, 2);
    assert Executed(defs, 1, 2) == [Execution("testfunc2"), Execution("testfunc3")];
    assert Committed("test", defs, 1, 2) == map[Key("test", 2) := "testfunc2", Key("test", 3) := "testfunc3"];
  }
}
