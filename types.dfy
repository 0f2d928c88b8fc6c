/**
 * The records exchanged with the remote test service: test-case payloads and
 * the polled state of a run, with the string enums as datatypes.
 */
module Types {
  import opened Wrappers

  /** Status of a step or a check: "pending" | "passed" | "failed". */
  datatype Status = Pending | Passed | Failed

  datatype Severity = Critical | High | Medium | Low | Cosmetic

  datatype Category = Visual | Functional

  datatype ActionVariant = Load | Click | Hover | Type | Scroll | Wait | Back

  datatype ProblemData = ProblemData(
    title: string,
    severity: Severity,
    category: Category,
    expectedResult: string,
    actualResult: string,
    actionIndex: int,
    isFatal: bool)

  datatype TestAction = TestAction(variant: ActionVariant, description: string, screenshotUrl: string)

  /** A check inside a step result; its `problems` list is optional. */
  datatype CheckResult = CheckResult(
    description: string,
    status: Status,
    lastActionIndex: int,
    problems: Option<seq<ProblemData>>)

  datatype StepResult = StepResult(
    description: string,
    status: Status,
    lastActionIndex: int,
    checks: seq<CheckResult>,
    problems: Option<seq<ProblemData>>)

  /**
   * One polled state of a run. `actions` and `steps` are declared required,
   * but the code guards against their absence, so absence is representable.
   */
  datatype TestRun = TestRun(
    id: string,
    createdAt: string,
    actions: Option<seq<TestAction>>,
    steps: Option<seq<StepResult>>,
    startScreenshotUrl: Option<string>,
    isDone: bool,
    aborted: bool,
    abortedReason: Option<string>)

  /** One entry of a step's test data; the builder always sets `sensitive`. */
  datatype TestDataEntry = TestDataEntry(key: string, value: string, sensitive: bool)

  datatype TestData = TestData(data: seq<TestDataEntry>, other: string)

  /** The serialised form of one test step. */
  datatype StepData = StepData(description: string, checks: seq<string>, testData: TestData)

  /**
   * What the renderer, the viewer and the runner read from a test case through
   * `getId()`, `toData().name` and `getUrl()`.
   */
  datatype CaseInfo = CaseInfo(id: string, name: string, url: string)

  /** A thrown JavaScript error, by kind and message. */
  datatype Error = TypeError(message: string) | Thrown(message: string)

  /** `xs ?? []` for an optional list. */
  function OrEmpty<T>(xs: Option<seq<T>>): seq<T>
  {
    match xs
    case Some(s) => s
    case None => []
  }
}
