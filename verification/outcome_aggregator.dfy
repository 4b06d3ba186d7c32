/** The outcome aggregator: which scenarios are required, which PipelineRun
    stands for each, and the pass/fail reduction of their task results. */
module OutcomeAggregator {

  import opened Wrappers
  import opened Objects

  // ---------------------------------------------------------------------------
  // Required scenarios
  // ---------------------------------------------------------------------------

  /** A `NotIn` label requirement: the key is absent, or its value is none of `values`. */
  predicate SelectorNotIn(labels: Labels, key: string, values: set<string>)
  {
    key !in labels || labels[key] !in values
  }

  /** The selector `optional NotIn ["false"]` applied to one scenario. */
  function IsRequired(s: Scenario): (r: bool)
    ensures r <==> OptionalLabel !in s.labels || s.labels[OptionalLabel] != "false"
  {
    SelectorNotIn(s.labels, OptionalLabel, {"false"})
  }

  /** The application's scenarios that the selector admits, in list order. */
  function RequiredScenarios(all: seq<Scenario>): (r: seq<Scenario>)
    ensures forall s :: s in r <==> s in all && IsRequired(s)
    ensures |r| <= |all|
    ensures forall s :: multiset(r)[s] == if IsRequired(s) then multiset(all)[s] else 0
  {
    if all == [] then []
    else
      var rest := RequiredScenarios(all[1..]);
      assert forall s :: s in all <==> s == all[0] || s in all[1..];
      assert all == [all[0]] + all[1..];
      assert multiset(all) == multiset{all[0]} + multiset(all[1..]);
      if IsRequired(all[0]) then [all[0]] + rest else rest
  }

  // ---------------------------------------------------------------------------
  // Latest succeeded run of a scenario
  // ---------------------------------------------------------------------------

  ghost predicate NoneSucceeded(runs: seq<PipelineRun>, upto: nat)
    requires upto <= |runs|
  {
    forall i :: 0 <= i < upto ==> !runs[i].succeeded
  }

  /** Among `runs[..upto]`, `k` is a succeeded run completed no earlier than any
      other succeeded run, and strictly later than every succeeded run before it. */
  ghost predicate IsLatestSucceeded(runs: seq<PipelineRun>, k: nat, upto: nat)
    requires upto <= |runs|
  {
    && k < upto
    && runs[k].succeeded
    && (forall i :: 0 <= i < upto && runs[i].succeeded ==> runs[i].completionTime <= runs[k].completionTime)
    && (forall i :: 0 <= i < k && runs[i].succeeded ==> runs[i].completionTime < runs[k].completionTime)
  }

  /** The selection loop from position `i` on, `best` being the run kept so far. */
  function LatestFrom(runs: seq<PipelineRun>, i: nat, best: Option<nat>): (r: Option<nat>)
    requires i <= |runs|
    requires best.None? ==> NoneSucceeded(runs, i)
    requires best.Some? ==> IsLatestSucceeded(runs, best.value, i)
    ensures r.None? ==> NoneSucceeded(runs, |runs|)
    ensures r.Some? ==> IsLatestSucceeded(runs, r.value, |runs|)
    decreases |runs| - i
  {
    if i == |runs| then best
    else if runs[i].succeeded && (best.None? || runs[i].completionTime > runs[best.value].completionTime) then
      LatestFrom(runs, i + 1, Some(i))
    else
      LatestFrom(runs, i + 1, best)
  }

  /** The loop of getLatestPipelineRunForApplicationSnapshotAndScenario, as the
      index of the run it keeps: none iff no run succeeded, else the latest
      succeeded run, the earliest listed one among equal completion times. */
  function LatestSucceeded(runs: seq<PipelineRun>): (r: Option<nat>)
    ensures r.None? <==> forall i :: 0 <= i < |runs| ==> !runs[i].succeeded
    ensures r.Some? ==> IsLatestSucceeded(runs, r.value, |runs|)
  {
    LatestFrom(runs, 0, None)
  }

  // ---------------------------------------------------------------------------
  // Resolving one run per required scenario
  // ---------------------------------------------------------------------------

  /** The run standing for scenario `s`: the triggering run when its scenario
      label names `s`, else the latest succeeded run the store lists for `s`
      (None when there is none yet). `query` is the store's answer to listing
      the test runs of this snapshot labelled with a scenario name. */
  function ResolveScenario(s: Scenario, trigger: PipelineRun, query: string -> Result<seq<PipelineRun>>)
    : (r: Result<Option<PipelineRun>>)
    ensures LabelValue(trigger.labels, ScenarioLabel) == s.name ==> r == Success(Some(trigger))
    ensures r.Failure? ==> query(s.name) == Failure(r.error)
    ensures r == Success(None) ==>
      query(s.name).Success? && forall i :: 0 <= i < |query(s.name).value| ==> !query(s.name).value[i].succeeded
    ensures r.Success? && r.value.Some? && LabelValue(trigger.labels, ScenarioLabel) != s.name ==>
      && query(s.name).Success?
      && exists k: nat :: IsLatestSucceeded(query(s.name).value, k, |query(s.name).value|)
                  && query(s.name).value[k] == r.value.value
  {
    if LabelValue(trigger.labels, ScenarioLabel) == s.name then Success(Some(trigger))
    else
      var listed :- query(s.name);
      match LatestSucceeded(listed)
      case None => Success(None)
      case Some(k) => Success(Some(listed[k]))
  }

  /** getAllPipelineRunsForApplicationSnapshot: the resolved runs in scenario
      order, skipping unresolved scenarios; the first store error aborts. */
  function ResolveRuns(scenarios: seq<Scenario>, trigger: PipelineRun,
                       query: string -> Result<seq<PipelineRun>>): (r: Result<seq<PipelineRun>>)
    ensures r.Success? ==> |r.value| <= |scenarios|
  {
    if scenarios == [] then Success([])
    else
      match ResolveScenario(scenarios[0], trigger, query)
      case Failure(e) => Failure(e)
      case Success(first) =>
        match ResolveRuns(scenarios[1..], trigger, query)
        case Failure(e) => Failure(e)
        case Success(rest) => Success(if first.Some? then [first.value] + rest else rest)
  }

  /** The resolution fails iff some scenario's lookup fails, with the first
      such error. */
  lemma {:induction false} ResolveRunsFailure(scenarios: seq<Scenario>, trigger: PipelineRun,
                                              query: string -> Result<seq<PipelineRun>>)
    ensures var r := ResolveRuns(scenarios, trigger, query);
      r.Failure? <==> exists i :: 0 <= i < |scenarios| && ResolveScenario(scenarios[i], trigger, query).Failure?
    ensures var r := ResolveRuns(scenarios, trigger, query);
      r.Failure? ==>
        exists i :: 0 <= i < |scenarios| && ResolveScenario(scenarios[i], trigger, query) == Failure(r.error)
                 && forall j :: 0 <= j < i ==> ResolveScenario(scenarios[j], trigger, query).Success?
  {
    if scenarios != [] {
      var tail := scenarios[1..];
      ResolveRunsFailure(tail, trigger, query);
      assert forall i :: 1 <= i < |scenarios| ==> scenarios[i] == tail[i - 1];
    }
  }

  /** A successful resolution holds one run per scenario exactly when no
      scenario is unresolved, and then the i-th run is the i-th scenario's. */
  lemma {:induction false} ResolveRunsComplete(scenarios: seq<Scenario>, trigger: PipelineRun,
                                               query: string -> Result<seq<PipelineRun>>)
    ensures var r := ResolveRuns(scenarios, trigger, query);
      r.Success? ==>
        (|r.value| == |scenarios| <==>
           forall i :: 0 <= i < |scenarios| ==> ResolveScenario(scenarios[i], trigger, query) != Success(None))
    ensures var r := ResolveRuns(scenarios, trigger, query);
      r.Success? && |r.value| == |scenarios| ==>
        forall i :: 0 <= i < |scenarios| ==> ResolveScenario(scenarios[i], trigger, query) == Success(Some(r.value[i]))
  {
    if scenarios != [] {
      var tail := scenarios[1..];
      ResolveRunsComplete(tail, trigger, query);
      assert forall i :: 1 <= i < |scenarios| ==> scenarios[i] == tail[i - 1];
      var r := ResolveRuns(scenarios, trigger, query);
      var first := ResolveScenario(scenarios[0], trigger, query);
      var rest := ResolveRuns(tail, trigger, query);
      if first.Success? && rest.Success? {
        if first.value.None? {
          assert |r.value| < |scenarios|;
        } else {
          assert r.value == [first.value.value] + rest.value;
        }
      }
    }
  }

  /** The resolution fails iff some scenario's lookup fails, with the first such
      error; otherwise it holds one run per scenario exactly when no scenario is
      unresolved, and then the i-th run is the i-th scenario's. */
  lemma {:induction false} ResolveRunsSpec(scenarios: seq<Scenario>, trigger: PipelineRun,
                                           query: string -> Result<seq<PipelineRun>>)
    ensures var r := ResolveRuns(scenarios, trigger, query);
      r.Failure? <==> exists i :: 0 <= i < |scenarios| && ResolveScenario(scenarios[i], trigger, query).Failure?
    ensures var r := ResolveRuns(scenarios, trigger, query);
      r.Failure? ==>
        exists i :: 0 <= i < |scenarios| && ResolveScenario(scenarios[i], trigger, query) == Failure(r.error)
                 && forall j :: 0 <= j < i ==> ResolveScenario(scenarios[j], trigger, query).Success?
    ensures var r := ResolveRuns(scenarios, trigger, query);
      r.Success? ==>
        (|r.value| == |scenarios| <==>
           forall i :: 0 <= i < |scenarios| ==> ResolveScenario(scenarios[i], trigger, query) != Success(None))
    ensures var r := ResolveRuns(scenarios, trigger, query);
      r.Success? && |r.value| == |scenarios| ==>
        forall i :: 0 <= i < |scenarios| ==> ResolveScenario(scenarios[i], trigger, query) == Success(Some(r.value[i]))
  {
    ResolveRunsFailure(scenarios, trigger, query);
    ResolveRunsComplete(scenarios, trigger, query);
  }

  // ---------------------------------------------------------------------------
  // Outcome of one run
  // ---------------------------------------------------------------------------

  predicate IsTestOutput(t: TaskResult)
  {
    t.name == TestOutputName
  }

  /** A test output whose `result` field is "SUCCESS" or "SKIPPED". */
  predicate Passes(t: TaskResult)
  {
    t.value.Parsed? && (t.value.result == Some("SUCCESS") || t.value.result == Some("SKIPPED"))
  }

  /** The task results of all task runs, in visiting order. */
  function TaskResults(taskRuns: seq<TaskRun>): (r: seq<TaskResult>)
    ensures forall t :: t in r <==> exists k :: 0 <= k < |taskRuns| && t in taskRuns[k].results
  {
    if taskRuns == [] then []
    else
      var rest := TaskResults(taskRuns[1..]);
      assert forall k :: 1 <= k < |taskRuns| ==> taskRuns[k] == taskRuns[1..][k - 1];
      taskRuns[0].results + rest
  }

  /** A single task run contributes its own results, in their own order. */
  lemma {:induction false} TaskResultsSingle(t: TaskRun)
    ensures TaskResults([t]) == t.results
  {
    assert [t][1..] == [];
  }

  /** The results of consecutive task runs are visited contiguously, each task
      run's results in their own order. */
  lemma {:induction false} TaskResultsAppend(a: seq<TaskRun>, b: seq<TaskRun>)
    ensures TaskResults(a + b) == TaskResults(a) + TaskResults(b)
  {
    if a == [] {
      assert a + b == b;
    } else {
      assert (a + b)[0] == a[0];
      assert (a + b)[1..] == a[1..] + b;
      TaskResultsAppend(a[1..], b);
    }
  }

  /** The scan of calculateIntegrationPipelineRunOutcome: the first test output
      that does not pass decides (a parse error, or false); none decides true. */
  function OutputsOutcome(ts: seq<TaskResult>): (r: Result<bool>)
    ensures (forall i :: 0 <= i < |ts| ==> !IsTestOutput(ts[i])) ==> r == Success(true)
    ensures r.Failure? ==>
      exists i :: 0 <= i < |ts| && IsTestOutput(ts[i]) && ts[i].value == ParseError(r.error)
  {
    if ts == [] then Success(true)
    else
      assert forall i :: 1 <= i < |ts| ==> ts[i] == ts[1..][i - 1];
      if !IsTestOutput(ts[0]) then OutputsOutcome(ts[1..])
      else match ts[0].value
        case ParseError(e) => Failure(e)
        case Parsed(_) => if Passes(ts[0]) then OutputsOutcome(ts[1..]) else Success(false)
  }

  /** `i` is the first test output in `ts` that does not pass. */
  ghost predicate FirstNotPassing(ts: seq<TaskResult>, i: int)
  {
    && 0 <= i < |ts|
    && IsTestOutput(ts[i])
    && !Passes(ts[i])
    && forall j :: 0 <= j < i && IsTestOutput(ts[j]) ==> Passes(ts[j])
  }

  /** What the first non-passing test output makes the scan return. */
  function Settles(t: TaskResult): Result<bool>
  {
    match t.value
    case ParseError(e) => Failure(e)
    case Parsed(_) => Success(false)
  }

  /** The scan returns true iff every test output passes; otherwise the first
      one that does not pass decides, whether it is unparsable or a failure. */
  lemma {:induction false} OutputsOutcomeScan(ts: seq<TaskResult>)
    ensures OutputsOutcome(ts) == Success(true) <==>
      forall i :: 0 <= i < |ts| && IsTestOutput(ts[i]) ==> Passes(ts[i])
    ensures OutputsOutcome(ts) != Success(true) ==> exists i :: FirstNotPassing(ts, i)
    ensures forall i :: FirstNotPassing(ts, i) ==> OutputsOutcome(ts) == Settles(ts[i])
    ensures OutputsOutcome(ts) != Success(true) ==>
      exists i :: FirstNotPassing(ts, i) && OutputsOutcome(ts) == Settles(ts[i])
  {
    if ts != [] {
      var tail := ts[1..];
      OutputsOutcomeScan(tail);
      assert forall i :: 1 <= i < |ts| ==> ts[i] == tail[i - 1];
      if IsTestOutput(ts[0]) && !Passes(ts[0]) {
        assert FirstNotPassing(ts, 0);
        forall i | FirstNotPassing(ts, i) ensures i == 0 { }
      } else {
        if OutputsOutcome(ts) != Success(true) {
          var k :| FirstNotPassing(tail, k);
          assert FirstNotPassing(ts, k + 1);
        }
        forall i | FirstNotPassing(ts, i) ensures OutputsOutcome(ts) == Settles(ts[i]) {
          assert i != 0;
          assert FirstNotPassing(tail, i - 1);
        }
      }
    }
  }

  /** Every HACBS_TEST_OUTPUT result in any of the run's task runs passes. */
  ghost predicate OutputsPass(run: PipelineRun)
  {
    forall k, t :: 0 <= k < |run.taskRuns| && t in run.taskRuns[k].results && IsTestOutput(t) ==> Passes(t)
  }

  /** `r` is what the first test output that does not pass, in visiting
      order, makes the scan return. */
  ghost predicate DecidedByFirstNotPassing(run: PipelineRun, r: Result<bool>)
  {
    var ts := TaskResults(run.taskRuns);
    exists i :: FirstNotPassing(ts, i) && r == Settles(ts[i])
  }

  /** calculateIntegrationPipelineRunOutcome over the run's task results: the
      run passes iff every HACBS_TEST_OUTPUT result in any of its task runs
      passes; otherwise the first one that does not, in visiting order, decides. */
  function RunOutcome(run: PipelineRun): (r: Result<bool>)
    ensures r == Success(true) <==> OutputsPass(run)
    ensures r != Success(true) ==> DecidedByFirstNotPassing(run, r)
  {
    var ts := TaskResults(run.taskRuns);
    OutputsOutcomeScan(ts);
    assert (forall i :: 0 <= i < |ts| && IsTestOutput(ts[i]) ==> Passes(ts[i]))
       <==> (forall t :: t in ts && IsTestOutput(t) ==> Passes(t));
    OutputsOutcome(ts)
  }

  /** Whether a run passes does not depend on the order its task runs are
      visited in (only the choice between an error and false does). */
  lemma RunPassesInAnyOrder(run: PipelineRun, taskRuns: seq<TaskRun>)
    requires multiset(taskRuns) == multiset(run.taskRuns)
    ensures RunOutcome(run) == Success(true) <==> RunOutcome(run.(taskRuns := taskRuns)) == Success(true)
  {
    var ts := TaskResults(run.taskRuns);
    var ts' := TaskResults(taskRuns);
    OutputsOutcomeScan(ts);
    OutputsOutcomeScan(ts');
    forall t ensures t in ts <==> t in ts' {
      if t in ts {
        var k :| 0 <= k < |run.taskRuns| && t in run.taskRuns[k].results;
        assert run.taskRuns[k] in multiset(taskRuns);
        var k' :| 0 <= k' < |taskRuns| && taskRuns[k'] == run.taskRuns[k];
      }
      if t in ts' {
        var k :| 0 <= k < |taskRuns| && t in taskRuns[k].results;
        assert taskRuns[k] in multiset(run.taskRuns);
        var k' :| 0 <= k' < |run.taskRuns| && run.taskRuns[k'] == taskRuns[k];
      }
    }
    assert (forall i :: 0 <= i < |ts| && IsTestOutput(ts[i]) ==> Passes(ts[i]))
       <==> (forall t :: t in ts && IsTestOutput(t) ==> Passes(t));
    assert (forall i :: 0 <= i < |ts'| && IsTestOutput(ts'[i]) ==> Passes(ts'[i]))
       <==> (forall t :: t in ts' && IsTestOutput(t) ==> Passes(t));
  }

  /** With one unparsable and one failing test output in different task runs,
      the visiting order decides between an error and false. */
  lemma RunOutcomeErrorOrFalseDependsOnOrder()
    ensures var bad := TaskRun([TaskResult(TestOutputName, ParseError("invalid character"))]);
            var failing := TaskRun([TaskResult(TestOutputName, Parsed(Some("FAILURE")))]);
            var run := PipelineRun("run", map[], true, 0, [bad, failing]);
            && RunOutcome(run) == Failure("invalid character")
            && RunOutcome(run.(taskRuns := [failing, bad])) == Success(false)
  {
  }

  // ---------------------------------------------------------------------------
  // Aggregation over the resolved runs
  // ---------------------------------------------------------------------------

  /** The loop of determineIfAllIntegrationPipelinesPassed over the runs'
      outcomes in order: true iff every outcome is true; any error is
      returned, even after an earlier false. */
  function AllOutcomesPassed(outcomes: seq<Result<bool>>): (r: Result<bool>)
    ensures r == Success(true) <==> forall i :: 0 <= i < |outcomes| ==> outcomes[i] == Success(true)
    ensures r.Failure? <==> exists i :: 0 <= i < |outcomes| && outcomes[i].Failure?
    ensures r.Failure? ==>
      exists i :: 0 <= i < |outcomes| && outcomes[i] == r
               && forall j :: 0 <= j < i ==> outcomes[j].Success?
  {
    if outcomes == [] then Success(true)
    else
      var tail := outcomes[1..];
      assert forall i :: 1 <= i < |outcomes| ==> outcomes[i] == tail[i - 1];
      match outcomes[0]
      case Failure(e) => Failure(e)
      case Success(first) =>
        match AllOutcomesPassed(tail)
        case Failure(e) => Failure(e)
        case Success(rest) => Success(first && rest)
  }

  /** determineIfAllIntegrationPipelinesPassed: true iff every run passes; any
      run's error is returned, even after an earlier failing run. */
  function AllRunsPassed(runs: seq<PipelineRun>): (r: Result<bool>)
    ensures r == Success(true) <==> forall i :: 0 <= i < |runs| ==> RunOutcome(runs[i]) == Success(true)
    ensures r.Failure? <==> exists i :: 0 <= i < |runs| && RunOutcome(runs[i]).Failure?
    ensures r.Failure? ==>
      exists i :: 0 <= i < |runs| && RunOutcome(runs[i]) == r
               && forall j :: 0 <= j < i ==> RunOutcome(runs[j]).Success?
  {
    var outcomes := seq(|runs|, i requires 0 <= i < |runs| => RunOutcome(runs[i]));
    assert forall i :: 0 <= i < |runs| ==> outcomes[i] == RunOutcome(runs[i]);
    AllOutcomesPassed(outcomes)
  }

  /** What the aggregator reports when it reaches a decision. */
  datatype Verdict = Incomplete | AllPassed | SomeFailed

  /** The run resolved for a scenario fails to produce an outcome. */
  ghost predicate ScenarioErrs(s: Scenario, trigger: PipelineRun, query: string -> Result<seq<PipelineRun>>)
  {
    var res := ResolveScenario(s, trigger, query);
    res.Success? && res.value.Some? && RunOutcome(res.value.value).Failure?
  }

  /** The run resolved for a scenario passes. */
  ghost predicate ScenarioPasses(s: Scenario, trigger: PipelineRun, query: string -> Result<seq<PipelineRun>>)
  {
    var res := ResolveScenario(s, trigger, query);
    res.Success? && res.value.Some? && RunOutcome(res.value.value) == Success(true)
  }

  /** Every scenario's lookup succeeded, and some scenario has no run yet. */
  ghost predicate SomeUnresolved(required: seq<Scenario>, trigger: PipelineRun,
                                 query: string -> Result<seq<PipelineRun>>)
  {
    && (forall i :: 0 <= i < |required| ==> ResolveScenario(required[i], trigger, query).Success?)
    && (exists i :: 0 <= i < |required| && ResolveScenario(required[i], trigger, query) == Success(None))
  }

  /** Every scenario has a run. */
  ghost predicate AllResolved(required: seq<Scenario>, trigger: PipelineRun,
                              query: string -> Result<seq<PipelineRun>>)
  {
    forall i :: 0 <= i < |required| ==>
      ResolveScenario(required[i], trigger, query).Success? &&
      ResolveScenario(required[i], trigger, query) != Success(None)
  }

  /** Every scenario has a run, and it passes. */
  ghost predicate AllPass(required: seq<Scenario>, trigger: PipelineRun,
                          query: string -> Result<seq<PipelineRun>>)
  {
    forall i :: 0 <= i < |required| ==> ScenarioPasses(required[i], trigger, query)
  }

  /** Some scenario's run lookup fails. */
  ghost predicate SomeLookupFails(required: seq<Scenario>, trigger: PipelineRun,
                                  query: string -> Result<seq<PipelineRun>>)
  {
    exists i :: 0 <= i < |required| && ResolveScenario(required[i], trigger, query).Failure?
  }

  /** Some scenario's resolved run fails to produce an outcome. */
  ghost predicate SomeRunErrs(required: seq<Scenario>, trigger: PipelineRun,
                              query: string -> Result<seq<PipelineRun>>)
  {
    exists i :: 0 <= i < |required| && ScenarioErrs(required[i], trigger, query)
  }

  /** Once every scenario resolved to its run, the scenario-level predicates
      are statements about those runs' outcomes. */
  lemma ResolvedRunsOutcomes(required: seq<Scenario>, trigger: PipelineRun,
                             query: string -> Result<seq<PipelineRun>>, runs: seq<PipelineRun>)
    requires |runs| == |required|
    requires forall i :: 0 <= i < |required| ==> ResolveScenario(required[i], trigger, query) == Success(Some(runs[i]))
    ensures AllResolved(required, trigger, query)
    ensures !SomeLookupFails(required, trigger, query)
    ensures !SomeUnresolved(required, trigger, query)
    ensures AllPass(required, trigger, query) <==> forall i :: 0 <= i < |runs| ==> RunOutcome(runs[i]) == Success(true)
    ensures SomeRunErrs(required, trigger, query) <==> exists i :: 0 <= i < |runs| && RunOutcome(runs[i]).Failure?
  {
    assert forall i :: 0 <= i < |required| ==>
      (ScenarioPasses(required[i], trigger, query) <==> RunOutcome(runs[i]) == Success(true));
    assert forall i :: 0 <= i < |required| ==>
      (ScenarioErrs(required[i], trigger, query) <==> RunOutcome(runs[i]).Failure?);
  }

  /** Steps 2 to 5 of the test path: resolve, gate on completeness with `!=`,
      reduce. Both error sources end the same way, so they share one Failure. */
  function Aggregate(required: seq<Scenario>, trigger: PipelineRun,
                     query: string -> Result<seq<PipelineRun>>): (r: Result<Verdict>)
    ensures r == Success(Incomplete) <==> SomeUnresolved(required, trigger, query)
    ensures r == Success(AllPassed) <==> AllPass(required, trigger, query)
    ensures r.Success? && r.value != Incomplete ==> AllResolved(required, trigger, query)
    ensures r.Failure? <==>
      || SomeLookupFails(required, trigger, query)
      || (AllResolved(required, trigger, query) && SomeRunErrs(required, trigger, query))
  {
    ResolveRunsSpec(required, trigger, query);
    var runs :- ResolveRuns(required, trigger, query);
    if |required| != |runs| then Success(Incomplete)
    else
      ResolvedRunsOutcomes(required, trigger, query, runs);
      var passed :- AllRunsPassed(runs);
      Success(if passed then AllPassed else SomeFailed)
  }

  /** With no required scenario the verdict is Passed. */
  lemma NoRequiredScenarioPasses(trigger: PipelineRun, query: string -> Result<seq<PipelineRun>>)
    ensures Aggregate([], trigger, query) == Success(AllPassed)
  {
  }
}
