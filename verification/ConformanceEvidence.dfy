/** The decoded records that the release gate, the promotion check and the evidence converter share. */
module ConformanceEvidence {
  import opened Lists
  import opened PythonText
  import opened Wrappers

  /** Time stamps and ages count microseconds. */
  const HOUR: int := 3_600_000_000
  const DAY: int := 24 * HOUR

  predicate IsCommit(version: string) {
    |version| == 40 && forall i :: 0 <= i < 40 ==> '0' <= version[i] <= '9' || 'a' <= version[i] <= 'f'
  }

  /** A list member that should be a string. */
  datatype Claim = Text(s: string) | NotText(n: int)

  /** A field that should hold a boolean. */
  datatype Flag = Absent | Is(b: bool) | NotBoolean

  type Variants = map<string, string>

  /** Text fields that are missing or not strings are blank. */
  datatype Test = Test(
    id: string, status: string, required: Flag, waivable: Flag,
    instanceId: string, upstreamStatus: Option<string>, upstreamResult: string,
    cleanup: string, cleanupAttempts: Option<int>, signatureKeyId: string, logUrl: string,
    standard: string, section: string, request: string, expected: string, applicability: string, observed: string)

  datatype Plan = Plan(
    name: string, variants: Variants, runnerRef: string, runnerCommit: string,
    runnerExitCode: Option<int>, exportOrigin: string, signaturesVerified: bool, moduleCount: int)

  datatype Suite = Suite(
    id: string, kind: string, version: string, sourceUrl: string, resultUrl: string,
    metadataAndRuntime: bool, plan: Option<Plan>, standardUrl: string,
    nonCertificationStatement: string, tests: seq<Test>)

  datatype SuitePolicy =
    | OidfPlan(allTestsRequired: bool, planName: string, variants: Variants, runnerRef: string,
               runnerCommit: string, sourceUrl: string, exportOrigin: string)
    | ProjectRegression(allTestsRequired: bool, standardUrl: string, nonCertificationStatement: string,
                        nonWaivableTests: seq<string>)
    | OtherKind(allTestsRequired: bool, kind: string)
  {
    function Kind(): string {
      match this
      case OidfPlan(_, _, _, _, _, _, _) => "oidf-plan"
      case ProjectRegression(_, _, _, _) => "project-regression"
      case OtherKind(_, kind) => kind
    }
  }

  datatype Preflight = Preflight(
    schemaVersion: int, phase: string, status: string, issuer: string,
    expectedDeploymentVersion: string, deploymentVersion: string)

  datatype Waiver = Waiver(
    suiteId: string, testId: string, approvedBy: string, reason: string, issueUrl: string,
    approvedAt: Option<int>, expiresAt: Option<int>)

  datatype Evidence = Evidence(
    schemaVersion: int, generatedAt: Option<int>, requestedClaims: seq<Claim>, suites: seq<Suite>,
    deployment: map<string, string>, preflights: seq<Preflight>, exceptions: seq<Waiver>)

  /** A decoded object keeps its keys in order and has each key once. */
  type SuitePolicies = p: seq<(string, SuitePolicy)> | Distinct(Ids(p)) witness []

  function Ids(p: seq<(string, SuitePolicy)>): seq<string> {
    seq(|p|, i requires 0 <= i < |p| => p[i].0)
  }

  datatype Policy = Policy(
    schemaVersion: int, policyVersion: string, maxEvidenceAgeHours: int, requiredClaims: seq<Claim>,
    allowedClaims: seq<Claim>, explicitNonClaims: seq<Claim>, requiredSuites: SuitePolicies,
    maxExceptionDays: int, exceptionIssueRepository: string)

  /** A file: its bytes and what they decode to. */
  datatype File<T> = File(raw: seq<int>, content: T)

  // ---------- Checks that several scripts make ----------

  /** Non-empty strings, none of them twice. */
  ghost predicate StringArray(claims: seq<Claim>) {
    && (forall i :: 0 <= i < |claims| ==> claims[i].Text? && claims[i].s != "")
    && Distinct(claims)
  }

  /** Both preflights, in order, passed for this issuer and version. */
  ghost predicate PreflightsBind(preflights: seq<Preflight>, issuer: string, version: string) {
    && |preflights| == 2
    && preflights[0] == Preflight(1, "start", "passed", issuer, version, version)
    && preflights[1] == Preflight(1, "end", "passed", issuer, version, version)
  }

  // ---------- The contract of one suite ----------

  ghost predicate CleanupIsValid(t: Test) {
    || (t.cleanup == "passed" && t.cleanupAttempts.Some? && t.cleanupAttempts.value >= 1)
    || (t.cleanup == "not_required" && t.cleanupAttempts == Some(0))
  }

  ghost predicate OidfTestIsValid(t: Test) {
    && !IsBlank(t.instanceId)
    && t.upstreamStatus in {Some("FINISHED"), Some("INTERRUPTED"), Some("CONFIGURED"), Some("WAITING"),
                            Some("RUNNING"), Some("UNKNOWN"), None}
    && !IsBlank(t.upstreamResult)
    && !IsBlank(t.signatureKeyId)
    && CleanupIsValid(t)
    && (t.cleanup == "not_required" ==>
          t.status != "passed" && !(t.upstreamStatus == Some("FINISHED") && t.upstreamResult == "PASSED"))
    && IsHttps(t.logUrl)
    && (t.status == "passed" ==> t.upstreamStatus == Some("FINISHED") && t.upstreamResult == "PASSED")
  }

  ghost predicate RegressionTestIsValid(t: Test) {
    && t.standard == (if t.id == "dynamic-client-cleanup" then "RFC 7592" else "RFC 9700")
    && !IsBlank(t.section) && !IsBlank(t.request) && !IsBlank(t.expected)
    && !IsBlank(t.applicability) && !IsBlank(t.observed)
  }

  ghost predicate IsNonWaivable(tests: seq<Test>, id: string) {
    exists k :: 0 <= k < |tests| && tests[k].id == id && tests[k].waivable == Is(false)
  }

  ghost predicate SuiteMeetsContract(suite: Suite, policy: SuitePolicy) {
    && (policy.allTestsRequired ==> forall i :: 0 <= i < |suite.tests| ==> suite.tests[i].required == Is(true))
    && match policy
       case OidfPlan(_, planName, variants, runnerRef, runnerCommit, sourceUrl, exportOrigin) =>
         && suite.kind == "oidf-plan" && suite.plan.Some?
         && (var plan := suite.plan.value;
             && plan.name == planName && plan.variants == variants
             && plan.runnerRef == runnerRef && plan.runnerCommit == runnerCommit
             && plan.runnerExitCode.Some? && plan.runnerExitCode.value >= 0
             && suite.sourceUrl == sourceUrl && plan.exportOrigin == exportOrigin
             && plan.signaturesVerified && plan.moduleCount == |suite.tests|
             && (forall i :: 0 <= i < |suite.tests| ==> OidfTestIsValid(suite.tests[i]))
             && ((forall i :: 0 <= i < |suite.tests| ==> suite.tests[i].status == "passed") ==>
                   plan.runnerExitCode == Some(0)))
       case ProjectRegression(_, standardUrl, statement, nonWaivable) =>
         && suite.kind == "project-regression" && suite.standardUrl == standardUrl
         && suite.nonCertificationStatement == statement
         && (forall i :: 0 <= i < |suite.tests| ==> RegressionTestIsValid(suite.tests[i]))
         && (forall i :: 0 <= i < |nonWaivable| ==> nonWaivable[i] != "" && IsNonWaivable(suite.tests, nonWaivable[i]))
       case OtherKind(_, _) => false
  }

  /** A commit id is forty lower-case hexadecimal digits. */
  lemma CommitIs(version: string)
    ensures IsCommit(version) <==>
      |version| == 40 && forall i :: 0 <= i < |version| ==>
        version[i] in {'0', '1', '2', '3', '4', '5', '6', '7', '8', '9', 'a', 'b', 'c', 'd', 'e', 'f'}
  {
  }

  lemma HoursAndDays()
    ensures HOUR == 60 * 60 * 1_000_000 && DAY == 24 * 60 * 60 * 1_000_000
  {
  }
}
