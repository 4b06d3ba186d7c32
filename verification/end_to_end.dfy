/** A build followed by the one required test, traced through both reconcile
    operations: the snapshot the build creates, then the verdict the test writes. */
module EndToEnd {

  import opened Wrappers
  import opened Objects
  import opened SnapshotMatcher
  import opened Conditions
  import opened OutcomeAggregator
  import opened PipelineAdapter

  /** Application app1 has components A and B; a build of A yields a new digest.
      No snapshot exists yet, so one is created with A's new pull spec and B's
      current image. */
  lemma BuildCreatesSnapshot()
    ensures var app := Application("app1", "ns");
            var cs := [Component("A", "r/a@sha1"), Component("B", "r/b@sha2")];
            var ev := BuildEvent(true, "A", Success("r/a:latest"), Success("sha3"));
            var store := BuildStore(Success(cs), Success([]), Success(cs), None, None);
            EnsureSnapshotExists(app, ev, store) == Reconciled(ContinueProcessing, [CreateSnapshot(
              Snapshot("", "app1-", "ns", map[ComponentLabel := "A"], "app1",
                       [SnapshotComponent("A", "r/a@sha3"), SnapshotComponent("B", "r/b@sha2")], []))])
  {
    var app := Application("app1", "ns");
    var cs := [Component("A", "r/a@sha1"), Component("B", "r/b@sha2")];
    var image := "r/a:latest";
    assert NamePart(image) == "r/a" by {
      assert image[3] == ':' && image[..3] == "r/a";
      NamePartUnique(NamePart(image), "r/a", image);
    }
    var pullSpec := ImagePullSpec(Success(image), Success("sha3"));
    assert "r/a" + "@" + "sha3" == "r/a@sha3";
    assert pullSpec == Success("r/a@sha3");
    var comps := [SnapshotComponent("A", "r/a@sha3"), SnapshotComponent("B", "r/b@sha2")];
    var overlaid := Overlay(cs, "A", pullSpec);
    assert overlaid.Success? && |overlaid.value| == 2;
    assert overlaid.value[0] == comps[0] && overlaid.value[1] == comps[1];
    assert overlaid.value == comps;
    var expected := Snapshot("", "app1-", "ns", map[ComponentLabel := "A"], "app1", comps, []);
    assert app.name + "-" == "app1-";
    assert PrepareSnapshot(app, "A", Success(cs), pullSpec) == Success(expected);
    assert FindMatchingSnapshot(app, "A", Success(cs), pullSpec, Success([])) == Success(None);
    var ev := BuildEvent(true, "A", Success(image), Success("sha3"));
    var store := BuildStore(Success(cs), Success([]), Success(cs), None, None);
    assert EnsureSnapshotExists(app, ev, store) == Reconciled(ContinueProcessing, [CreateSnapshot(expected)]);
  }

  /** The test run for the only required scenario S1 reports SUCCESS, so the
      snapshot is marked HACBSTestSucceeded True with reason "Passed". */
  lemma TestMarksSnapshotPassed()
    ensures var snapshot := Snapshot("app1-xyz", "app1-", "ns", map[ComponentLabel := "A"], "app1",
                                     [SnapshotComponent("A", "r/a@sha3"), SnapshotComponent("B", "r/b@sha2")], []);
            var run := PipelineRun("app1-xyz-s1", map[ScenarioLabel := "S1", "test" + SnapshotLabelSuffix := "app1-xyz"],
                                   true, 10, [TaskRun([TaskResult(TestOutputName, Parsed(Some("SUCCESS")))])]);
            var store := TestStore(
              name => if name == "app1-xyz" then Success(snapshot) else Failure("not found"),
              Success([Scenario("S1", map[])]),
              name => Success([]),
              None, None);
            var r := EnsureSnapshotPassedAllTests(TestEvent(true, Success("test"), run), store);
            && r.result == ContinueProcessing
            && |r.writes| == 1
            && r.writes[0].PatchSnapshotStatus?
            && r.writes[0].snapshot.components == snapshot.components
            && FindCondition(r.writes[0].snapshot.conditions, TestSucceededCondition)
                 == Some(Condition(TestSucceededCondition, ConditionTrue, "Passed", PassedMessage))
  {
    var snapshotKey := "test" + SnapshotLabelSuffix;
    assert snapshotKey != ScenarioLabel by {
      assert snapshotKey[29] == 'n' && ScenarioLabel[29] == 'c';
    }
    var output := TaskResult(TestOutputName, Parsed(Some("SUCCESS")));
    var run := PipelineRun("app1-xyz-s1", map[ScenarioLabel := "S1", snapshotKey := "app1-xyz"],
                           true, 10, [TaskRun([output])]);
    var s1 := Scenario("S1", map[]);
    var query: string -> Result<seq<PipelineRun>> := name => Success([]);
    assert RequiredScenarios([s1]) == [s1];
    assert ResolveScenario(s1, run, query) == Success(Some(run));
    ResolveRunsSpec([s1], run, query);
    assert ResolveRuns([s1], run, query).value == [run];
    assert TaskResults(run.taskRuns) == [output];
    assert OutputsOutcome([output]) == Success(true);
    assert AllRunsPassed([run]) == Success(true);
    assert Aggregate([s1], run, query) == Success(AllPassed);
  }
}
