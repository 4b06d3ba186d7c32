/** The two reconcile operations of the pipeline adapter, each a pure map from
    the event and the store's responses to an operation result and the writes
    it attempts. */
module PipelineAdapter {

  import opened Wrappers
  import opened Objects
  import opened SnapshotMatcher
  import opened Conditions
  import opened OutcomeAggregator

  /** What the reconciler does next: continue with the next operation, requeue
      with an error, or (after the PipelineRun status update whose outcome is
      recorded) requeue if that update failed and stop otherwise. The primary
      error is dropped in the last case. */
  datatype OperationResult =
    | ContinueProcessing
    | RequeueWithError(error: Error)
    | RequeueOnErrorOrStop(statusUpdateError: Option<Error>)

  /** A write sent to the store, whether or not the store accepted it. */
  datatype Write =
    | CreateSnapshot(snapshot: Snapshot)
    | PatchSnapshotStatus(snapshot: Snapshot)
    | UpdatePipelineRunStatus

  datatype Reconciled = Reconciled(result: OperationResult, writes: seq<Write>)

  // ---------------------------------------------------------------------------
  // Build path: EnsureApplicationSnapshotExists
  // ---------------------------------------------------------------------------

  /** A completed PipelineRun seen by the build path, with the values the tekton
      helpers read from it: whether it is a build, and its output image and digest. */
  datatype BuildEvent = BuildEvent(
    isBuild: bool,
    component: string,
    outputImage: Result<string>,
    imageDigest: Result<string>)

  /** The store's responses on the build path: the component list read while
      matching, the snapshot list, the component list read again when creating,
      and the outcomes of the create and of the PipelineRun status update. */
  datatype BuildStore = BuildStore(
    components: Result<seq<Component>>,
    snapshots: Result<seq<Snapshot>>,
    componentsOnCreate: Result<seq<Component>>,
    create: Option<Error>,
    statusUpdate: Option<Error>)

  /** The snapshot the build implies, given one reading of the component list. */
  function Desired(app: Application, ev: BuildEvent, components: Result<seq<Component>>): Result<Snapshot>
  {
    PrepareSnapshot(app, ev.component, components, ImagePullSpec(ev.outputImage, ev.imageDigest))
  }

  /** Some listed snapshot compares equal to the desired components. */
  ghost predicate MatchExists(desired: seq<SnapshotComponent>, snapshots: seq<Snapshot>)
  {
    exists j :: 0 <= j < |snapshots| && Compare(desired, snapshots[j].components)
  }

  /** A build whose desired snapshot matches no listed snapshot: the case in
      which a snapshot is created. */
  ghost predicate NoMatch(app: Application, ev: BuildEvent, store: BuildStore)
  {
    && ev.isBuild
    && Desired(app, ev, store.components).Success?
    && store.snapshots.Success?
    && !MatchExists(Desired(app, ev, store.components).value.components, store.snapshots.value)
  }

  /** EnsureApplicationSnapshotExists. */
  function EnsureSnapshotExists(app: Application, ev: BuildEvent, store: BuildStore): (r: Reconciled)
    ensures !ev.isBuild ==> r == Reconciled(ContinueProcessing, [])
    ensures ev.isBuild && Desired(app, ev, store.components).Failure? ==>
      r == Reconciled(RequeueWithError(Desired(app, ev, store.components).error), [])
    ensures ev.isBuild && Desired(app, ev, store.components).Success? && store.snapshots.Failure? ==>
      r == Reconciled(RequeueWithError(store.snapshots.error), [])
    ensures ev.isBuild && Desired(app, ev, store.components).Success? && store.snapshots.Success? &&
            MatchExists(Desired(app, ev, store.components).value.components, store.snapshots.value) ==>
      r == Reconciled(ContinueProcessing, [])
    ensures forall s :: CreateSnapshot(s) in r.writes ==>
      && ev.isBuild
      && Desired(app, ev, store.components).Success?
      && store.snapshots.Success?
      && !MatchExists(Desired(app, ev, store.components).value.components, store.snapshots.value)
      && Desired(app, ev, store.componentsOnCreate) == Success(s)
    ensures r.result.ContinueProcessing? && r.writes != [] ==>
      store.create.None? && |r.writes| == 1 && r.writes[0].CreateSnapshot?
    ensures r.result.RequeueOnErrorOrStop? ==>
      && r.result.statusUpdateError == store.statusUpdate
      && r.writes != [] && r.writes[|r.writes| - 1] == UpdatePipelineRunStatus
      && (store.create.Some? || Desired(app, ev, store.componentsOnCreate).Failure?)
    ensures r.result.RequeueWithError? ==> r.writes == []
    ensures NoMatch(app, ev, store) && Desired(app, ev, store.componentsOnCreate).Failure? ==>
      r == Reconciled(RequeueOnErrorOrStop(store.statusUpdate), [UpdatePipelineRunStatus])
    ensures NoMatch(app, ev, store) && Desired(app, ev, store.componentsOnCreate).Success? && store.create.Some? ==>
      r == Reconciled(RequeueOnErrorOrStop(store.statusUpdate),
                      [CreateSnapshot(Desired(app, ev, store.componentsOnCreate).value), UpdatePipelineRunStatus])
    ensures NoMatch(app, ev, store) && Desired(app, ev, store.componentsOnCreate).Success? && store.create.None? ==>
      r == Reconciled(ContinueProcessing, [CreateSnapshot(Desired(app, ev, store.componentsOnCreate).value)])
  {
    if !ev.isBuild then Reconciled(ContinueProcessing, [])
    else
      var pullSpec := ImagePullSpec(ev.outputImage, ev.imageDigest);
      match FindMatchingSnapshot(app, ev.component, store.components, pullSpec, store.snapshots)
      case Failure(e) => Reconciled(RequeueWithError(e), [])
      case Success(Some(_)) => Reconciled(ContinueProcessing, [])
      case Success(None) =>
        match PrepareSnapshot(app, ev.component, store.componentsOnCreate, pullSpec)
        case Failure(_) => Reconciled(RequeueOnErrorOrStop(store.statusUpdate), [UpdatePipelineRunStatus])
        case Success(s) =>
          if store.create.Some? then
            Reconciled(RequeueOnErrorOrStop(store.statusUpdate), [CreateSnapshot(s), UpdatePipelineRunStatus])
          else
            Reconciled(ContinueProcessing, [CreateSnapshot(s)])
  }

  /** Delivering a build event again, once the snapshot it created is listed and
      the components are unchanged, creates nothing. */
  lemma RedeliveryCreatesNothing(app: Application, ev: BuildEvent, store: BuildStore,
                                 created: Snapshot, store': BuildStore)
    requires EnsureSnapshotExists(app, ev, store) == Reconciled(ContinueProcessing, [CreateSnapshot(created)])
    requires store'.components == store.componentsOnCreate
    requires store'.snapshots.Success?
    requires exists j :: 0 <= j < |store'.snapshots.value| && store'.snapshots.value[j].components == created.components
    ensures EnsureSnapshotExists(app, ev, store') == Reconciled(ContinueProcessing, [])
  {
  }

  // ---------------------------------------------------------------------------
  // Test path: EnsureApplicationSnapshotPassedAllTests
  // ---------------------------------------------------------------------------

  /** A completed PipelineRun seen by the test path, with what the tekton helpers
      read from it: whether it is an integration run, and its pipeline type. */
  datatype TestEvent = TestEvent(isIntegration: bool, pipelineType: Result<string>, run: PipelineRun)

  /** The store's responses on the test path: getting a snapshot by name, listing
      the application's scenarios, listing a scenario's test runs, and the
      outcomes of the snapshot status patch and the PipelineRun status update. */
  datatype TestStore = TestStore(
    snapshotNamed: string -> Result<Snapshot>,
    scenarios: Result<seq<Scenario>>,
    runsFor: string -> Result<seq<PipelineRun>>,
    patch: Option<Error>,
    statusUpdate: Option<Error>)

  const NoSnapshotError := "the pipeline has no snapshot associated with it"

  /** getApplicationSnapshotFromPipelineRun: the snapshot named by the run's
      `<type>.appstudio.openshift.io/snapshot` label, fetched with `get`. */
  function SnapshotFromPipelineRun(run: PipelineRun, pipelineType: string, get: string -> Result<Snapshot>)
    : (r: Result<Snapshot>)
    ensures pipelineType + SnapshotLabelSuffix !in run.labels ==> r == Failure(NoSnapshotError)
    ensures pipelineType + SnapshotLabelSuffix in run.labels ==> r == get(run.labels[pipelineType + SnapshotLabelSuffix])
  {
    var key := pipelineType + SnapshotLabelSuffix;
    if key in run.labels then get(run.labels[key]) else Failure(NoSnapshotError)
  }

  /** The message written with a verdict. */
  function VerdictMessage(passed: bool): string
  {
    if passed then PassedMessage else FailedMessage
  }

  /** The verdict condition of a snapshot reads True. */
  predicate ShowsPassed(s: Snapshot)
  {
    var c := FindCondition(s.conditions, TestSucceededCondition);
    c.Some? && c.value.status == ConditionTrue
  }

  /** markSnapshotAsPassed or markSnapshotAsFailed, then the result mapping. */
  function WriteVerdict(snapshot: Snapshot, passed: bool, store: TestStore): (r: Reconciled)
    ensures |r.writes| >= 1 && r.writes[0] == PatchSnapshotStatus(WithVerdict(snapshot, passed, VerdictMessage(passed)))
    ensures ShowsPassed(r.writes[0].snapshot) <==> passed
    ensures store.patch.None? ==> r == Reconciled(ContinueProcessing, [r.writes[0]])
    ensures store.patch.Some? ==>
      r == Reconciled(RequeueOnErrorOrStop(store.statusUpdate), [r.writes[0], UpdatePipelineRunStatus])
  {
    var marked := if passed then MarkSnapshotAsPassed(snapshot, PassedMessage, store.patch)
                  else MarkSnapshotAsFailed(snapshot, FailedMessage, store.patch);
    var written := WithVerdict(snapshot, passed, VerdictMessage(passed));
    match marked
    case Failure(_) =>
      Reconciled(RequeueOnErrorOrStop(store.statusUpdate), [PatchSnapshotStatus(written), UpdatePipelineRunStatus])
    case Success(_) =>
      Reconciled(ContinueProcessing, [PatchSnapshotStatus(written)])
  }

  /** The application's required scenarios, once the store listed them. */
  function Required(store: TestStore): seq<Scenario>
    requires store.scenarios.Success?
  {
    RequiredScenarios(store.scenarios.value)
  }

  /** The part of the test path after aggregation: nothing while incomplete,
      the PipelineRun status update on an error, else the verdict. */
  function AfterAggregate(snapshot: Snapshot, aggregate: Result<Verdict>, store: TestStore): (r: Reconciled)
    ensures aggregate == Success(Incomplete) ==> r == Reconciled(ContinueProcessing, [])
    ensures aggregate.Failure? ==> r == Reconciled(RequeueOnErrorOrStop(store.statusUpdate), [UpdatePipelineRunStatus])
    ensures forall s :: PatchSnapshotStatus(s) in r.writes ==>
      && aggregate.Success? && aggregate.value != Incomplete
      && s == snapshot.(conditions := s.conditions)
      && (ShowsPassed(s) <==> aggregate.value == AllPassed)
    ensures !r.result.RequeueWithError?
    ensures aggregate.Success? && aggregate.value != Incomplete ==>
      var passed := aggregate.value == AllPassed;
      var w := PatchSnapshotStatus(WithVerdict(snapshot, passed, VerdictMessage(passed)));
      r == if store.patch.None? then Reconciled(ContinueProcessing, [w])
           else Reconciled(RequeueOnErrorOrStop(store.statusUpdate), [w, UpdatePipelineRunStatus])
  {
    match aggregate
    case Failure(_) => Reconciled(RequeueOnErrorOrStop(store.statusUpdate), [UpdatePipelineRunStatus])
    case Success(Incomplete) => Reconciled(ContinueProcessing, [])
    case Success(verdict) => WriteVerdict(snapshot, verdict == AllPassed, store)
  }

  /** An integration run whose type, snapshot and scenario list were all read:
      the case in which the required scenarios are aggregated. */
  ghost predicate ReadyToAggregate(ev: TestEvent, store: TestStore)
  {
    && ev.isIntegration
    && ev.pipelineType.Success?
    && SnapshotFromPipelineRun(ev.run, ev.pipelineType.value, store.snapshotNamed).Success?
    && store.scenarios.Success?
  }

  /** EnsureApplicationSnapshotPassedAllTests. */
  function EnsureSnapshotPassedAllTests(ev: TestEvent, store: TestStore): (r: Reconciled)
    ensures !ev.isIntegration ==> r == Reconciled(ContinueProcessing, [])
    ensures ev.isIntegration && ev.pipelineType.Failure? ==>
      r == Reconciled(RequeueWithError(ev.pipelineType.error), [])
    ensures ev.isIntegration && ev.pipelineType.Success? &&
            ev.pipelineType.value + SnapshotLabelSuffix !in ev.run.labels ==>
      r == Reconciled(RequeueWithError(NoSnapshotError), [])
    ensures ev.isIntegration && ev.pipelineType.Success? &&
            SnapshotFromPipelineRun(ev.run, ev.pipelineType.value, store.snapshotNamed).Failure? ==>
      r == Reconciled(RequeueWithError(SnapshotFromPipelineRun(ev.run, ev.pipelineType.value, store.snapshotNamed).error), [])
    ensures ev.isIntegration && ev.pipelineType.Success? &&
            SnapshotFromPipelineRun(ev.run, ev.pipelineType.value, store.snapshotNamed).Success? &&
            store.scenarios.Failure? ==>
      r == Reconciled(RequeueWithError(store.scenarios.error), [])
    ensures r.result.RequeueWithError? ==> r.writes == []
    ensures ev.isIntegration && ev.pipelineType.Success? &&
            SnapshotFromPipelineRun(ev.run, ev.pipelineType.value, store.snapshotNamed).Success? &&
            store.scenarios.Success? && SomeUnresolved(Required(store), ev.run, store.runsFor) ==>
      r == Reconciled(ContinueProcessing, [])
    ensures forall s :: PatchSnapshotStatus(s) in r.writes ==>
      && ev.isIntegration && ev.pipelineType.Success? && store.scenarios.Success?
      && SnapshotFromPipelineRun(ev.run, ev.pipelineType.value, store.snapshotNamed).Success?
      && s == SnapshotFromPipelineRun(ev.run, ev.pipelineType.value, store.snapshotNamed).value.(conditions := s.conditions)
      && AllResolved(Required(store), ev.run, store.runsFor)
      && (ShowsPassed(s) <==> AllPass(Required(store), ev.run, store.runsFor))
    ensures ReadyToAggregate(ev, store) &&
            (|| SomeLookupFails(Required(store), ev.run, store.runsFor)
             || (AllResolved(Required(store), ev.run, store.runsFor) && SomeRunErrs(Required(store), ev.run, store.runsFor))) ==>
      r == Reconciled(RequeueOnErrorOrStop(store.statusUpdate), [UpdatePipelineRunStatus])
    ensures ReadyToAggregate(ev, store) &&
            AllResolved(Required(store), ev.run, store.runsFor) && !SomeRunErrs(Required(store), ev.run, store.runsFor) ==>
      var passed := AllPass(Required(store), ev.run, store.runsFor);
      var snapshot := SnapshotFromPipelineRun(ev.run, ev.pipelineType.value, store.snapshotNamed).value;
      var w := PatchSnapshotStatus(WithVerdict(snapshot, passed, VerdictMessage(passed)));
      r == if store.patch.None? then Reconciled(ContinueProcessing, [w])
           else Reconciled(RequeueOnErrorOrStop(store.statusUpdate), [w, UpdatePipelineRunStatus])
  {
    if !ev.isIntegration then Reconciled(ContinueProcessing, [])
    else
      match ev.pipelineType
      case Failure(e) => Reconciled(RequeueWithError(e), [])
      case Success(pipelineType) =>
        match SnapshotFromPipelineRun(ev.run, pipelineType, store.snapshotNamed)
        case Failure(e) => Reconciled(RequeueWithError(e), [])
        case Success(snapshot) =>
          match store.scenarios
          case Failure(e) => Reconciled(RequeueWithError(e), [])
          case Success(all) =>
            AfterAggregate(snapshot, Aggregate(RequiredScenarios(all), ev.run, store.runsFor), store)
  }

  /** Once the verdict patch has landed, writing the same verdict over the
      patched snapshot patches it with exactly the object it already holds. */
  lemma VerdictRewriteIsStable(snapshot: Snapshot, verdict: Verdict, store: TestStore)
    requires verdict != Incomplete && store.patch.None?
    ensures var passed := verdict == AllPassed;
            var written := WithVerdict(snapshot, passed, VerdictMessage(passed));
            && AfterAggregate(snapshot, Success(verdict), store) == Reconciled(ContinueProcessing, [PatchSnapshotStatus(written)])
            && AfterAggregate(written, Success(verdict), store) == Reconciled(ContinueProcessing, [PatchSnapshotStatus(written)])
  {
    var passed := verdict == AllPassed;
    WithVerdictIdempotent(snapshot, passed, VerdictMessage(passed));
  }

  /** Delivering a test event again, after its verdict patch landed (so that
      `get'` returns the patched snapshot), patches the snapshot with exactly
      the object it already holds. */
  lemma RedeliveryRewritesSameVerdict(ev: TestEvent, store: TestStore, written: Snapshot,
                                      get': string -> Result<Snapshot>)
    ensures EnsureSnapshotPassedAllTests(ev, store) == Reconciled(ContinueProcessing, [PatchSnapshotStatus(written)]) &&
            ev.pipelineType.Success? &&
            SnapshotFromPipelineRun(ev.run, ev.pipelineType.value, get') == Success(written) ==>
            EnsureSnapshotPassedAllTests(ev, store.(snapshotNamed := get')) ==
            Reconciled(ContinueProcessing, [PatchSnapshotStatus(written)])
  {
    if EnsureSnapshotPassedAllTests(ev, store) == Reconciled(ContinueProcessing, [PatchSnapshotStatus(written)]) &&
       ev.pipelineType.Success? &&
       SnapshotFromPipelineRun(ev.run, ev.pipelineType.value, get') == Success(written) {
      var snapshot := SnapshotFromPipelineRun(ev.run, ev.pipelineType.value, store.snapshotNamed).value;
      var aggregate := Aggregate(Required(store), ev.run, store.runsFor);
      VerdictRewriteIsStable(snapshot, aggregate.value, store);
    }
  }
}
