/** The Kubernetes objects the pipeline adapter reads and writes, reduced to
    the fields its decisions depend on. */
module Objects {

  import opened Wrappers

  /** Label tagging a snapshot with the component whose build created it. */
  const ComponentLabel := "component"
  /** Label whose value "false" excludes an IntegrationTestScenario from the required set. */
  const OptionalLabel := "test.appstudio.openshift.io/optional"
  /** Label naming the scenario a test PipelineRun was started for. */
  const ScenarioLabel := "test.appstudio.openshift.io/scenario"
  /** Suffix of the label naming the snapshot a PipelineRun of a given type belongs to. */
  const SnapshotLabelSuffix := ".appstudio.openshift.io/snapshot"
  /** Name of the task result that carries a test task's JSON outcome. */
  const TestOutputName := "HACBS_TEST_OUTPUT"
  /** Condition type recording a snapshot's aggregate test verdict. */
  const TestSucceededCondition := "HACBSTestSucceeded"

  type Labels = map<string, string>

  /** Value of a label, or "" when the label is absent (Go's read of a missing map key). */
  function LabelValue(labels: Labels, key: string): string
  {
    if key in labels then labels[key] else ""
  }

  datatype Application = Application(name: string, namespace: string)

  /** An application component; `containerImage` is its Status.ContainerImage. */
  datatype Component = Component(name: string, containerImage: string)

  /** One (name, image) entry of a snapshot's Spec.Components. */
  datatype SnapshotComponent = SnapshotComponent(name: string, containerImage: string)

  datatype ConditionStatus = ConditionTrue | ConditionFalse | ConditionUnknown

  /** A status condition; LastTransitionTime and ObservedGeneration are not modelled. */
  datatype Condition = Condition(kind: string, status: ConditionStatus, reason: string, message: string)

  /** An ApplicationSnapshot. `name` is empty until the store assigns one from `generateName`. */
  datatype Snapshot = Snapshot(
    name: string,
    generateName: string,
    namespace: string,
    labels: Labels,
    application: string,
    components: seq<SnapshotComponent>,
    conditions: seq<Condition>)

  /** An IntegrationTestScenario of the application. */
  datatype Scenario = Scenario(name: string, labels: Labels)

  /** The outcome of unmarshalling a task result's value as a JSON object: a parse
      error, or the object's `result` field when it holds a string. */
  datatype TestOutput = ParseError(error: Error) | Parsed(result: Option<string>)

  datatype TaskResult = TaskResult(name: string, value: TestOutput)

  datatype TaskRun = TaskRun(results: seq<TaskResult>)

  /** A PipelineRun: `succeeded` is its Succeeded condition being True, and
      `taskRuns` lists its task runs in the order the outcome scan visits them. */
  datatype PipelineRun = PipelineRun(
    name: string,
    labels: Labels,
    succeeded: bool,
    completionTime: int,
    taskRuns: seq<TaskRun>)
}
