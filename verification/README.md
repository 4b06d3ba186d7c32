# Integration pipeline adapter: a verified model

This project models the decision logic of the integration service's pipeline
adapter (`controllers/pipeline/pipeline_adapter.go`). That is the reconciler
that reacts when a Tekton PipelineRun completes. Every Kubernetes read or
write becomes an input (the store's response: a value or an error) or an
output (the writes the operation attempts). What is left is four pure cores:

- **Snapshot matcher** (`snapshot_matcher.dfy`). It builds the pull spec of a
  build's output image and overlays it on the application's component list to
  get the desired ApplicationSnapshot. It compares that snapshot's components
  against each existing snapshot's components with the adapter's dedup test
  and returns the first match.
- **Outcome aggregator** (`outcome_aggregator.dfy`). It keeps the
  IntegrationTestScenarios the `optional NotIn ["false"]` selector admits. It
  resolves one run per scenario: either the triggering run, or the latest
  succeeded run. It gates on the counts being equal, reduces each run's
  `HACBS_TEST_OUTPUT` task results to pass/fail/error, and takes the
  conjunction over all runs.
- **Verdict write** (`conditions.dfy`). It sets condition `HACBSTestSucceeded`
  to True/"Passed" or False/"Failed" as an upsert keyed by condition type.
- **Orchestration** (`pipeline_adapter.dfy`). `EnsureApplicationSnapshotExists`
  and `EnsureApplicationSnapshotPassedAllTests` are modelled as pure maps from
  the event and the store's responses to an operation result
  (`ContinueProcessing`, `RequeueWithError`, `RequeueOnErrorOrStop`) and the
  list of writes sent to the store.

`wrappers.dfy` holds `Option`/`Result`. `objects.dfy` holds the data model and
the label keys. `end_to_end.dfy` traces a build and then its one required test
through both operations.

Behaviour worth knowing, as the code has it:

- The dedup comparison is not set equality. It checks that the counts are
  equal and that every *expected* entry occurs in *found*. It ignores order.
  When both lists are duplicate-free it is symmetric and equals set equality
  (`CompareSymmetricWhenDistinct`, `CompareIsSetEqualityWhenDistinct`); with a
  repeated entry it can be asymmetric (`CompareAsymmetricWithDuplicates`).
- The pull spec keeps the part of the output image before its *first* ':'. An
  image whose registry has a port (`host:5000/ns/img:tag`) is therefore cut
  down to `host` before the '@'.
- A scenario labelled `optional=true`, or with any other value except
  `"false"`, is required. The doc comment above the selector names a
  `release.appstudio.openshift.io/optional` label, but the code selects on
  `test.appstudio.openshift.io/optional`. The model follows the code.
- Task runs come from a Go map, so the order in which they are scanned is
  unspecified. The model takes that order as an input. Whether a run passes
  does not depend on that order (`RunPassesInAnyOrder`). When one task run has
  an unparsable output and another has a failing one, the order decides
  between an error and `false` (`RunOutcomeErrorOrFalseDependsOnOrder`).
- A run with no `HACBS_TEST_OUTPUT` result passes. With no required scenarios
  the verdict is Passed.

Other facts about the code that a reader might expect otherwise:

- The condition written is `HACBSTestSucceeded`, not `TestSucceeded`.
- A run without the snapshot label is requeued with an error
  (`RequeueWithError`); it is not dropped as a permanent failure.
- The completeness gate compares counts with `!=`. `ResolveRuns` never
  returns more runs than scenarios, so this is the same as "fewer runs than
  required scenarios".

## Model

| member | source | states |
|---|---|---|
| SnapshotMatcher.Contains | controllers/pipeline/pipeline_adapter.go:219-223 | the inner loop finds `c` exactly when `c` occurs in the found list |
| SnapshotMatcher.AllFound | controllers/pipeline/pipeline_adapter.go:216-228 | the outer loop succeeds exactly when every expected entry occurs in the found list |
| SnapshotMatcher.Compare | controllers/pipeline/pipeline_adapter.go:213-230 | false whenever the counts differ; otherwise true exactly when every expected (name, image) entry occurs in the found list |
| SnapshotMatcher.CompareReflexive | controllers/pipeline/pipeline_adapter.go:213-230 | every component list compares equal to itself |
| SnapshotMatcher.CompareIgnoresOrder | controllers/pipeline/pipeline_adapter.go:213-230 | reordering either list (any permutation) does not change the comparison |
| SnapshotMatcher.CompareIsSetEqualityWhenDistinct | controllers/pipeline/pipeline_adapter.go:213-230 | for duplicate-free lists the comparison holds iff the two sets of (name, image) pairs are equal |
| SnapshotMatcher.CompareSymmetricWhenDistinct | controllers/pipeline/pipeline_adapter.go:213-230 | for duplicate-free lists the comparison is symmetric |
| SnapshotMatcher.CompareAsymmetricWithDuplicates | controllers/pipeline/pipeline_adapter.go:213-230 | there are lists, one with a repeated entry, that compare equal in one direction only |
| SnapshotMatcher.NamePart | controllers/pipeline/pipeline_adapter.go:281 | the result is a prefix of the image with no ':', followed in the image by ':' unless it is the whole image |
| SnapshotMatcher.NamePartUnique | controllers/pipeline/pipeline_adapter.go:281 | that description fixes the name part uniquely |
| SnapshotMatcher.ImagePullSpec | controllers/pipeline/pipeline_adapter.go:271-282 | an output-image error is returned first, then a digest error; a pull spec is produced iff both reads succeed, and it is the image's name part, '@', then the digest, with no ':' before that '@' |
| SnapshotMatcher.PullSpecOfImageWithoutTag | controllers/pipeline/pipeline_adapter.go:281 | an image without ':' is kept whole: the pull spec is image + "@" + digest |
| SnapshotMatcher.Overlay | controllers/pipeline/pipeline_adapter.go:382-396 | fails (with the pull spec's error) iff the pull spec failed and some component has the built name; otherwise same length, same names in order, the built component gets the pull spec and every other keeps its image |
| SnapshotMatcher.PrepareSnapshot | controllers/pipeline/pipeline_adapter.go:376-417 | a component list error becomes the fixed "failed to get all Application Components" error; on success the snapshot holds the overlay, an empty name (the store generates one), label component = built name, GenerateName = app name + "-", Spec.Application = app name, the app's namespace and no conditions |
| SnapshotMatcher.PrepareWithoutBuiltComponent | controllers/pipeline/pipeline_adapter.go:384-396 | when no component has the built name, preparing succeeds even if the pull spec fails, and every image is unchanged |
| SnapshotMatcher.FirstMatch | controllers/pipeline/pipeline_adapter.go:243-249 | returns the first index whose components compare equal, or none iff no snapshot compares equal |
| SnapshotMatcher.FindMatchingSnapshot | controllers/pipeline/pipeline_adapter.go:233-250 | a prepare error, then a list error, is passed on; the search succeeds iff both succeed, and then returns the first listed snapshot that compares equal to the prepared one, or none iff none does |
| Conditions.SetStatusCondition | controllers/pipeline/pipeline_adapter.go:462-467 | the result is the upsert `IsUpsert` describes: the first condition of the type is replaced by the new one in place, or it is appended when there is none; every other position, including later conditions of the same type, keeps its condition |
| Conditions.UpsertUnique | controllers/pipeline/pipeline_adapter.go:462-467 | the upsert description admits exactly one resulting list, so it states the whole effect of the write |
| Conditions.SetStatusConditionOverwrites | controllers/pipeline/pipeline_adapter.go:460-491 | two writes of the same condition type leave exactly the effect of the second (a re-run overwrites a verdict) |
| Conditions.SetStatusConditionIdempotent | controllers/pipeline/pipeline_adapter.go:462-467 | setting the same condition twice equals setting it once |
| Conditions.VerdictCondition | controllers/pipeline/pipeline_adapter.go:460-491 | the condition has type HACBSTestSucceeded, status True and reason "Passed" iff passed, status False and reason "Failed" iff failed, and carries the given message |
| Conditions.WithVerdict | controllers/pipeline/pipeline_adapter.go:460-491 | the snapshot's conditions are the upsert of the verdict condition (same length or one appended, other types and later duplicates kept in place) and nothing but the conditions changes |
| Conditions.WithVerdictIdempotent | controllers/pipeline/pipeline_adapter.go:460-491 | writing the same verdict again leaves the snapshot unchanged |
| Conditions.MarkSnapshotAsPassed | controllers/pipeline/pipeline_adapter.go:460-474 | fails with the patch error iff the patch fails; otherwise the conditions are the upsert of True/"Passed" with the message, and nothing else changes |
| Conditions.MarkSnapshotAsFailed | controllers/pipeline/pipeline_adapter.go:478-491 | fails with the patch error iff the patch fails; otherwise the conditions are the upsert of False/"Failed" with the message, and nothing else changes |
| OutcomeAggregator.IsRequired | controllers/pipeline/pipeline_adapter.go:496-503 | a scenario is required iff its optional label is absent or not exactly "false" |
| OutcomeAggregator.RequiredScenarios | controllers/pipeline/pipeline_adapter.go:496-517 | a scenario is kept iff it is listed and required, each required scenario as many times as it is listed (the count the completeness gate compares); never more scenarios than listed |
| OutcomeAggregator.LatestFrom | controllers/pipeline/pipeline_adapter.go:354-366 | from a state that meets the loop invariant, the loop ends with none iff no run succeeded, else with the latest succeeded run |
| OutcomeAggregator.LatestSucceeded | controllers/pipeline/pipeline_adapter.go:337-372 | none iff no listed run succeeded; otherwise a succeeded run completed no earlier than any succeeded run and strictly later than every earlier-listed succeeded run (ties keep the first) |
| OutcomeAggregator.ResolveScenario | controllers/pipeline/pipeline_adapter.go:310-328 | the triggering run when its scenario label names the scenario; else the list error, none when no listed run succeeded, or the latest succeeded listed run |
| OutcomeAggregator.ResolveRuns | controllers/pipeline/pipeline_adapter.go:308-332 | at most one run per scenario |
| OutcomeAggregator.ResolveRunsSpec | controllers/pipeline/pipeline_adapter.go:308-332 | fails iff some scenario's lookup fails, with the first such error; on success there is one run per scenario iff no scenario is unresolved, and then the i-th run is the i-th scenario's |
| OutcomeAggregator.TaskResults | controllers/pipeline/pipeline_adapter.go:438-439 | a result is scanned iff it belongs to one of the task runs |
| OutcomeAggregator.TaskResultsAppend | controllers/pipeline/pipeline_adapter.go:438-439 | the results of consecutive task runs are scanned contiguously, in task-run order |
| OutcomeAggregator.TaskResultsSingle | controllers/pipeline/pipeline_adapter.go:438-439 | a single task run contributes exactly its own results, in their own order and multiplicity |
| OutcomeAggregator.OutputsOutcome | controllers/pipeline/pipeline_adapter.go:437-456 | with no HACBS_TEST_OUTPUT result the run passes; an error is always the parse error of some HACBS_TEST_OUTPUT result |
| OutcomeAggregator.OutputsOutcomeScan | controllers/pipeline/pipeline_adapter.go:437-456 | true iff every HACBS_TEST_OUTPUT result parses with result SUCCESS or SKIPPED; otherwise the first one that does not decides: a parse error gives that error, anything else (missing result included) gives false |
| OutcomeAggregator.RunOutcome | controllers/pipeline/pipeline_adapter.go:436-456 | a run passes iff every HACBS_TEST_OUTPUT result in any of its task runs has result SUCCESS or SKIPPED; otherwise the first one in visiting order that does not decides: its parse error, or false |
| OutcomeAggregator.RunPassesInAnyOrder | controllers/pipeline/pipeline_adapter.go:438-456 | whether a run passes does not depend on the order its task runs are scanned in |
| OutcomeAggregator.RunOutcomeErrorOrFalseDependsOnOrder | controllers/pipeline/pipeline_adapter.go:438-452 | with an unparsable output in one task run and a failing one in another, the scan order decides between the error and false |
| OutcomeAggregator.AllOutcomesPassed | controllers/pipeline/pipeline_adapter.go:286-303 | over the outcomes in order: true iff every outcome is true; fails iff some outcome is an error, with the first error, even after an earlier false |
| OutcomeAggregator.AllRunsPassed | controllers/pipeline/pipeline_adapter.go:286-303 | true iff every run passes; fails iff some run's outcome fails, with the first such error, even after an earlier failing run |
| OutcomeAggregator.Aggregate | controllers/pipeline/pipeline_adapter.go:127-149 | Incomplete iff all lookups succeed and some required scenario has no run; AllPassed iff every required scenario's run passes; an error iff a lookup fails, or all are resolved and some run's outcome errors |
| OutcomeAggregator.NoRequiredScenarioPasses | controllers/pipeline/pipeline_adapter.go:135-150 | with zero required scenarios the verdict is AllPassed |
| PipelineAdapter.EnsureSnapshotExists | controllers/pipeline/pipeline_adapter.go:66-97 | a non-build run gives Continue with no writes whatever the store says; a prepare or list error gives RequeueWithError and no writes; an equal existing snapshot gives Continue and nothing created; when no listed snapshot compares equal the re-prepared snapshot is created: a failed re-prepare gives RequeueOnErrorOrStop after the PipelineRun status update, a failed create gives the create then RequeueOnErrorOrStop after the status update, a successful create gives Continue; no other case creates anything |
| PipelineAdapter.RedeliveryCreatesNothing | controllers/pipeline/pipeline_adapter.go:66-97 | once the snapshot a build created is listed and the components are unchanged, the same event creates nothing and continues |
| PipelineAdapter.SnapshotFromPipelineRun | controllers/pipeline/pipeline_adapter.go:176-193 | without the `<type>.appstudio.openshift.io/snapshot` label, the "no snapshot associated" error; otherwise the store's answer for the labelled name |
| PipelineAdapter.WriteVerdict | controllers/pipeline/pipeline_adapter.go:150-169 | the first write patches the snapshot with the verdict condition, which reads True iff passed; a successful patch gives Continue with that write alone, a failed one gives RequeueOnErrorOrStop after the PipelineRun status update |
| PipelineAdapter.AfterAggregate | controllers/pipeline/pipeline_adapter.go:127-171 | incomplete gives Continue with no writes; an error gives RequeueOnErrorOrStop after the status update; a Passed or Failed verdict is always patched onto the snapshot (reading Passed iff AllPassed), then Continue or, if the patch fails, RequeueOnErrorOrStop after the status update |
| PipelineAdapter.EnsureSnapshotPassedAllTests | controllers/pipeline/pipeline_adapter.go:101-172 | a non-integration run gives Continue with no writes; a type, snapshot-label, snapshot-get or scenario-list error gives RequeueWithError and no writes; an unresolved required scenario gives Continue with no writes; a run lookup error, or a run outcome error once all are resolved, gives RequeueOnErrorOrStop after the status update; when all are resolved without error the verdict is patched, reading Passed iff every run passes, then Continue or RequeueOnErrorOrStop as the patch goes; a patch happens in no other case |
| PipelineAdapter.VerdictRewriteIsStable | controllers/pipeline/pipeline_adapter.go:150-169 | a decided verdict whose patch succeeds continues with one patch; writing the same verdict again over the patched snapshot patches it with exactly the object it already holds |
| PipelineAdapter.RedeliveryRewritesSameVerdict | controllers/pipeline/pipeline_adapter.go:150-171 | once a verdict patch has landed, the same test event patches the snapshot with exactly the object it already holds |
| EndToEnd.BuildCreatesSnapshot | controllers/pipeline/pipeline_adapter.go:66-97 | a build of component A in app1, with no snapshot listed, creates app1-'s snapshot with A's new pull spec and B's current image |
| EndToEnd.TestMarksSnapshotPassed | controllers/pipeline/pipeline_adapter.go:101-172 | the one required scenario's run reports SUCCESS, so the snapshot is patched to HACBSTestSucceeded True/"Passed" |

## Left out

- Kubernetes client calls (`Get`, `List`, `Create`, `Status().Patch`, `Status().Update`) are not modelled. Each becomes an abstract response: a `Result`, an `Option<Error>`, or a function from a name to a `Result`. Writes are returned as a list, not performed.
- Field and label selector execution is not modelled. The store's scenario list is filtered with `IsRequired`, the predicate the `NotIn` selector expresses. The other lists are taken as already selected.
- `context`, cancellation and the namespaces of lookups are not modelled. The namespace-scoped lookups are the response functions.
- Logging through `logr` is left out. It has no effect on the decisions.
- The tekton helpers (`IsBuildPipelineRun`, `IsIntegrationPipelineRun`, `GetTypeFromPipelineRun`, `GetOutputImage`, `GetOutputImageDigest`) are not part of this model. Their results are fields of the event.
- JSON unmarshalling is not modelled. A task result's value is its parse outcome: a parse error, or the `result` field when it holds a string. A non-string `result` is represented as absent, since it also compares unequal to "SUCCESS" and "SKIPPED".
- `meta.SetStatusCondition` keeps LastTransitionTime and ObservedGeneration up to date. Those fields are not modelled; only type, status, reason and message are.
- `metav1.Time` is an integer timestamp. When two or more listed runs succeeded and one has no completion time, the Go code dereferences nil comparing times; that case is not modelled.
- A task run without a status (a nil map entry or a nil `Status`) would make the Go code dereference nil when reading its results; the model's task runs always carry their results, so that case is not modelled.
- The `results` package internals are left out. `OperationResult` has the three outcomes, and `RequeueOnErrorOrStop` records the status update's outcome.
- `labels.NewRequirement` is called with constant, valid arguments, so its error path cannot be taken and is not modelled.
- `NewAdapter` and the `Adapter` struct only hold the collaborators. They become the parameters of each function.
- The race between concurrent reconciles that both find no match and both create a snapshot is left out. It is a property of the store and of concurrency, not of one reconcile.
