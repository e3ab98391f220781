/** What the gate demands of evidence and policy before it decides, and the script's checks of it. */
module ConformanceInput {
  import opened ConformanceEvidence
  import opened Lists
  import opened PythonText
  import opened Wrappers

  datatype Arguments = Arguments(expectedIssuer: string, expectedVersion: string)

  // ---------- Valid input ----------

  ghost predicate TestsAreValid(tests: seq<Test>) {
    && (exists t :: t in tests && t.required == Is(true))
    && (forall t :: t in tests ==>
          && t.id != "" && t.status in {"passed", "failed", "skipped", "error"}
          && t.required.Is? && !t.waivable.NotBoolean?)
    && forall i, j :: 0 <= i < j < |tests| ==> tests[i].id != tests[j].id
  }

  ghost predicate SuiteIsValid(suite: Suite, policy: SuitePolicy) {
    && !IsBlank(suite.version) && IsHttps(suite.sourceUrl) && IsHttps(suite.resultUrl)
    && suite.metadataAndRuntime
    && TestsAreValid(suite.tests)
    && SuiteMeetsContract(suite, policy)
  }

  ghost predicate EachIsRequired(suites: seq<Suite>, policies: SuitePolicies) {
    forall s :: s in suites ==> exists p :: p in policies && p.0 == s.id
  }

  ghost predicate EachIsPresent(suites: seq<Suite>, policies: SuitePolicies) {
    forall p :: p in policies ==> exists s :: s in suites && s.id == p.0
  }

  /** The suites are exactly those the policy requires, each once and valid. */
  ghost predicate SuitesAreValid(suites: seq<Suite>, policies: SuitePolicies) {
    && policies != []
    && (forall s :: s in suites ==> s.id != "")
    && (forall i, j :: 0 <= i < j < |suites| ==> suites[i].id != suites[j].id)
    && EachIsRequired(suites, policies) && EachIsPresent(suites, policies)
    && forall s, p :: s in suites && p in policies && s.id == p.0 ==> SuiteIsValid(s, p.1)
  }

  /** The claims are texts without repetition, include the required ones, and are allowed; no claim
      is one that the policy disclaims. */
  ghost predicate ClaimsAreValid(evidence: Evidence, policy: Policy) {
    && StringArray(evidence.requestedClaims) && StringArray(policy.explicitNonClaims)
    && (forall c :: c in policy.requiredClaims ==> c in evidence.requestedClaims)
    && (forall c :: c in evidence.requestedClaims ==> c in policy.allowedClaims && c !in policy.explicitNonClaims)
  }

  ghost predicate DeploymentIsBound(evidence: Evidence, args: Arguments) {
    var issuer := StripSlashes(args.expectedIssuer);
    && "issuer" in evidence.deployment && evidence.deployment["issuer"] == issuer
    && "version" in evidence.deployment && evidence.deployment["version"] == args.expectedVersion
    && PreflightsBind(evidence.preflights, issuer, args.expectedVersion)
  }

  ghost predicate InputIsValid(evidence: Evidence, policy: Policy, args: Arguments, now: int) {
    && policy.schemaVersion == 1 && !IsBlank(policy.policyVersion) && evidence.schemaVersion == 1
    && evidence.generatedAt.Some?
    && evidence.generatedAt.value <= now <= evidence.generatedAt.value + policy.maxEvidenceAgeHours * HOUR
    && ClaimsAreValid(evidence, policy)
    && SuitesAreValid(evidence.suites, policy.requiredSuites)
    && DeploymentIsBound(evidence, args)
  }

  // ---------- Checking lists of texts ----------

  method AreNonEmptyTexts(claims: seq<Claim>) returns (ok: bool)
    ensures ok <==> forall c :: c in claims ==> c.Text? && c.s != ""
  {
    for i := 0 to |claims|
      invariant forall c :: c in claims[..i] ==> c.Text? && c.s != ""
    {
      if !claims[i].Text? || claims[i].s == "" {
        return false;
      }
      assert claims[..i + 1] == claims[..i] + [claims[i]];
    }
    assert claims[..|claims|] == claims;
    ok := true;
  }

  lemma StringArrayIs(claims: seq<Claim>)
    ensures StringArray(claims) <==>
      (forall c :: c in claims ==> c.Text? && c.s != "") && |SetOf(claims)| == |claims|
  {
    DistinctIffCounted(claims);
    assert forall i :: 0 <= i < |claims| ==> claims[i] in claims;
  }

  method ValidateClaims(claims: seq<Claim>, policy: Policy) returns (ok: bool)
    ensures ok <==>
      && StringArray(claims) && StringArray(policy.explicitNonClaims)
      && (forall c :: c in policy.requiredClaims ==> c in claims)
      && (forall c :: c in claims ==> c in policy.allowedClaims && c !in policy.explicitNonClaims)
  {
    StringArrayIs(claims);
    StringArrayIs(policy.explicitNonClaims);
    var claimsAreTexts := AreNonEmptyTexts(claims);
    if !claimsAreTexts {
      return false;
    }
    var required, allowed, claimSet := SetOf(policy.requiredClaims), SetOf(policy.allowedClaims), SetOf(claims);
    SetsCompare(policy.requiredClaims, claims);
    SetsCompare(claims, policy.allowedClaims);
    if |claims| != |claimSet| || !(required <= claimSet) || !(claimSet <= allowed) {
      return false;
    }
    var disclaimedAreTexts := AreNonEmptyTexts(policy.explicitNonClaims);
    var disclaimed := SetOf(policy.explicitNonClaims);
    SetsCompare(claims, policy.explicitNonClaims);
    if !disclaimedAreTexts || |policy.explicitNonClaims| != |disclaimed| {
      return false;
    }
    ok := claimSet !! disclaimed;
  }

  // ---------- Checking one suite ----------

  /** The checks of one test of an official plan, in the script's order. */
  method ValidateOidfTest(t: Test) returns (ok: bool)
    ensures ok <==> OidfTestIsValid(t)
  {
    if IsBlank(t.instanceId) {
      return false;
    }
    if t.upstreamStatus.Some?
       && t.upstreamStatus.value !in ["FINISHED", "INTERRUPTED", "CONFIGURED", "WAITING", "RUNNING", "UNKNOWN"] {
      return false;
    }
    if IsBlank(t.upstreamResult) || IsBlank(t.signatureKeyId) {
      return false;
    }
    var validCleanup := t.cleanupAttempts.Some?
      && ((t.cleanup == "passed" && t.cleanupAttempts.value >= 1) || (t.cleanup == "not_required" && t.cleanupAttempts.value == 0));
    if !validCleanup {
      return false;
    }
    var passedUpstream := t.upstreamStatus == Some("FINISHED") && t.upstreamResult == "PASSED";
    if t.cleanup == "not_required" {
      if t.status == "passed" {
        return false;
      }
      if passedUpstream {
        return false;
      }
    }
    if !IsHttps(t.logUrl) {
      return false;
    }
    if t.status == "passed" && !passedUpstream {
      return false;
    }
    ok := true;
  }

  method ValidateOidfPlan(suite: Suite, policy: SuitePolicy) returns (ok: bool)
    requires policy.OidfPlan? && suite.kind == policy.Kind()
    requires policy.allTestsRequired ==> forall i :: 0 <= i < |suite.tests| ==> suite.tests[i].required == Is(true)
    ensures ok <==> SuiteMeetsContract(suite, policy)
  {
    if suite.plan.None? {
      return false;
    }
    var plan := suite.plan.value;
    if plan.name != policy.planName || plan.variants != policy.variants {
      return false;
    }
    if plan.runnerRef != policy.runnerRef || plan.runnerCommit != policy.runnerCommit {
      return false;
    }
    if plan.runnerExitCode.None? || plan.runnerExitCode.value < 0 {
      return false;
    }
    if suite.sourceUrl != policy.sourceUrl || plan.exportOrigin != policy.exportOrigin {
      return false;
    }
    if !plan.signaturesVerified || plan.moduleCount != |suite.tests| {
      return false;
    }
    var allPassed := true;
    for i := 0 to |suite.tests|
      invariant forall k :: 0 <= k < i ==> OidfTestIsValid(suite.tests[k])
      invariant allPassed <==> forall k :: 0 <= k < i ==> suite.tests[k].status == "passed"
    {
      var valid := ValidateOidfTest(suite.tests[i]);
      if !valid {
        return false;
      }
      allPassed := allPassed && suite.tests[i].status == "passed";
    }
    ok := !allPassed || plan.runnerExitCode.value == 0;
  }

  method IsExplicitlyNonWaivable(tests: seq<Test>, id: string) returns (ok: bool)
    ensures ok <==> IsNonWaivable(tests, id)
  {
    for i := 0 to |tests|
      invariant forall k :: 0 <= k < i ==> !(tests[k].id == id && tests[k].waivable == Is(false))
    {
      if tests[i].id == id && tests[i].waivable == Is(false) {
        return true;
      }
    }
    ok := false;
  }

  method ValidateNonWaivable(tests: seq<Test>, ids: seq<string>) returns (ok: bool)
    ensures ok <==> forall i :: 0 <= i < |ids| ==> ids[i] != "" && IsNonWaivable(tests, ids[i])
  {
    for i := 0 to |ids|
      invariant forall k :: 0 <= k < i ==> ids[k] != "" && IsNonWaivable(tests, ids[k])
    {
      var nonWaivable := IsExplicitlyNonWaivable(tests, ids[i]);
      if ids[i] == "" || !nonWaivable {
        return false;
      }
    }
    ok := true;
  }

  method ValidateRegressionTests(tests: seq<Test>) returns (ok: bool)
    ensures ok <==> forall i :: 0 <= i < |tests| ==> RegressionTestIsValid(tests[i])
  {
    for i := 0 to |tests|
      invariant forall k :: 0 <= k < i ==> RegressionTestIsValid(tests[k])
    {
      var t := tests[i];
      var standard := "RFC 9700";
      if t.id == "dynamic-client-cleanup" {
        standard := "RFC 7592";
      }
      if t.standard != standard || IsBlank(t.section) || IsBlank(t.request) || IsBlank(t.expected)
         || IsBlank(t.applicability) || IsBlank(t.observed) {
        return false;
      }
    }
    ok := true;
  }

  method ValidateRegression(suite: Suite, policy: SuitePolicy) returns (ok: bool)
    requires policy.ProjectRegression? && suite.kind == policy.Kind()
    requires policy.allTestsRequired ==> forall i :: 0 <= i < |suite.tests| ==> suite.tests[i].required == Is(true)
    ensures ok <==> SuiteMeetsContract(suite, policy)
  {
    if suite.standardUrl != policy.standardUrl || suite.nonCertificationStatement != policy.nonCertificationStatement {
      return false;
    }
    var tests := ValidateRegressionTests(suite.tests);
    if !tests {
      return false;
    }
    ok := ValidateNonWaivable(suite.tests, policy.nonWaivableTests);
  }

  method ValidateSuiteContract(suite: Suite, policy: SuitePolicy) returns (ok: bool)
    ensures ok <==> SuiteMeetsContract(suite, policy)
  {
    if suite.kind != policy.Kind() {
      return false;
    }
    if policy.allTestsRequired {
      for i := 0 to |suite.tests|
        invariant forall k :: 0 <= k < i ==> suite.tests[k].required == Is(true)
      {
        if suite.tests[i].required != Is(true) {
          return false;
        }
      }
    }
    match policy
    case OidfPlan(_, _, _, _, _, _, _) => ok := ValidateOidfPlan(suite, policy);
    case ProjectRegression(_, _, _, _) => ok := ValidateRegression(suite, policy);
    case OtherKind(_, _) => ok := false;
  }

  function TestIds(tests: seq<Test>): seq<string> {
    seq(|tests|, i requires 0 <= i < |tests| => tests[i].id)
  }

  method ValidateTests(tests: seq<Test>) returns (ok: bool)
    ensures ok <==> TestsAreValid(tests)
  {
    var ids := TestIds(tests);
    var anyRequired := false;
    for i := 0 to |tests|
      invariant anyRequired <==> exists t :: t in tests[..i] && t.required == Is(true)
      invariant forall t :: t in tests[..i] ==> t.id != ""
    {
      assert tests[..i + 1] == tests[..i] + [tests[i]];
      anyRequired := anyRequired || tests[i].required == Is(true);
      if tests[i].id == "" {
        assert tests[i] in tests;
        return false;
      }
    }
    assert tests[..|tests|] == tests;
    DistinctIffCounted(ids);
    assert forall i :: 0 <= i < |tests| ==> ids[i] == tests[i].id;
    if !anyRequired || |SetOf(ids)| != |ids| {
      return false;
    }
    for i := 0 to |tests|
      invariant forall t :: t in tests[..i] ==>
        t.status in {"passed", "failed", "skipped", "error"} && t.required.Is? && !t.waivable.NotBoolean?
    {
      assert tests[..i + 1] == tests[..i] + [tests[i]];
      if tests[i].status !in ["passed", "failed", "skipped", "error"] || !tests[i].required.Is? || tests[i].waivable.NotBoolean? {
        assert tests[i] in tests;
        return false;
      }
    }
    ok := true;
  }

  method ValidateSuite(suite: Suite, policy: SuitePolicy) returns (ok: bool)
    ensures ok <==> SuiteIsValid(suite, policy)
  {
    if IsBlank(suite.version) {
      return false;
    }
    if !IsHttps(suite.sourceUrl) || !IsHttps(suite.resultUrl) || !suite.metadataAndRuntime {
      return false;
    }
    var testsAreValid := ValidateTests(suite.tests);
    if !testsAreValid {
      return false;
    }
    ok := ValidateSuiteContract(suite, policy);
  }

  // ---------- Checking all suites ----------

  function SuiteIds(suites: seq<Suite>): seq<string> {
    seq(|suites|, i requires 0 <= i < |suites| => suites[i].id)
  }

  lemma SuiteIdsAre(suites: seq<Suite>)
    ensures forall id :: id in SuiteIds(suites) <==> exists s :: s in suites && s.id == id
    ensures Distinct(SuiteIds(suites)) <==> forall i, j :: 0 <= i < j < |suites| ==> suites[i].id != suites[j].id
  {
    var ids := SuiteIds(suites);
    assert forall i :: 0 <= i < |suites| ==> ids[i] == suites[i].id && suites[i] in suites;
  }

  lemma PolicyIdsAre(policies: SuitePolicies)
    ensures forall id :: id in Ids(policies) <==> exists p :: p in policies && p.0 == id
  {
    var ids := Ids(policies);
    assert forall i :: 0 <= i < |policies| ==> ids[i] == policies[i].0 && policies[i] in policies;
  }

  method ValidateSuites(suites: seq<Suite>, policies: SuitePolicies) returns (ok: bool)
    ensures ok <==> SuitesAreValid(suites, policies)
  {
    var ids := SuiteIds(suites);
    SuiteIdsAre(suites);
    DistinctIffCounted(ids);
    SameIds(suites, policies);
    if policies == [] || "" in ids || |SetOf(ids)| != |ids| {
      return false;
    }
    if SetOf(ids) != SetOf(Ids(policies)) {
      return false;
    }
    ok := ValidateEachSuite(suites, policies);
  }

  method ValidateEachSuite(suites: seq<Suite>, policies: SuitePolicies) returns (ok: bool)
    requires EachIsPresent(suites, policies)
    requires forall i, j :: 0 <= i < j < |suites| ==> suites[i].id != suites[j].id
    ensures ok <==> forall s, p :: s in suites && p in policies && s.id == p.0 ==> SuiteIsValid(s, p.1)
  {
    for i := 0 to |policies|
      invariant forall s, p :: s in suites && p in policies[..i] && s.id == p.0 ==> SuiteIsValid(s, p.1)
    {
      assert policies[..i + 1] == policies[..i] + [policies[i]];
      var k := IndexOf(suites, policies[i].0);
      OneSuitePerId(suites, k);
      var valid := ValidateSuite(suites[k], policies[i].1);
      if !valid {
        assert suites[k] in suites && policies[i] in policies;
        return false;
      }
    }
    assert policies[..|policies|] == policies;
    ok := true;
  }

  lemma IdsMatch(suites: seq<Suite>, policies: SuitePolicies)
    requires forall id :: id in SuiteIds(suites) <==> id in Ids(policies)
    ensures EachIsRequired(suites, policies) && EachIsPresent(suites, policies)
  {
    SuiteIdsAre(suites);
    PolicyIdsAre(policies);
    forall s | s in suites
      ensures exists p :: p in policies && p.0 == s.id
    {
      assert s.id in SuiteIds(suites);
    }
    forall p | p in policies
      ensures exists s :: s in suites && s.id == p.0
    {
      assert p.0 in Ids(policies);
    }
  }

  lemma MatchedIds(suites: seq<Suite>, policies: SuitePolicies)
    requires EachIsRequired(suites, policies) && EachIsPresent(suites, policies)
    ensures forall id :: id in SuiteIds(suites) <==> id in Ids(policies)
  {
    SuiteIdsAre(suites);
    PolicyIdsAre(policies);
  }

  lemma SameIds(suites: seq<Suite>, policies: SuitePolicies)
    ensures (SetOf(SuiteIds(suites)) == SetOf(Ids(policies))) == (EachIsRequired(suites, policies) && EachIsPresent(suites, policies))
  {
    SetsCompare(SuiteIds(suites), Ids(policies));
    if forall id :: id in SuiteIds(suites) <==> id in Ids(policies) {
      IdsMatch(suites, policies);
    }
    if EachIsRequired(suites, policies) && EachIsPresent(suites, policies) {
      MatchedIds(suites, policies);
    }
  }

  method IndexOf(suites: seq<Suite>, id: string) returns (k: nat)
    requires exists s :: s in suites && s.id == id
    ensures k < |suites| && suites[k].id == id
  {
    k := 0;
    while suites[k].id != id
      invariant k < |suites| && forall i :: 0 <= i < k ==> suites[i].id != id
      decreases |suites| - k
    {
      k := k + 1;
    }
  }

  lemma OneSuitePerId(suites: seq<Suite>, k: nat)
    requires k < |suites| && forall i, j :: 0 <= i < j < |suites| ==> suites[i].id != suites[j].id
    ensures forall s :: s in suites && s.id == suites[k].id ==> s == suites[k]
  {
  }

  // ---------- Checking the deployment ----------

  method ValidatePreflights(preflights: seq<Preflight>, issuer: string, version: string) returns (ok: bool)
    ensures ok <==> PreflightsBind(preflights, issuer, version)
  {
    if |preflights| != 2 {
      return false;
    }
    var phases := ["start", "end"];
    for index := 0 to 2
      invariant forall k :: 0 <= k < index ==> preflights[k] == Preflight(1, phases[k], "passed", issuer, version, version)
    {
      var p := preflights[index];
      if p.schemaVersion != 1 || p.phase != phases[index] || p.status != "passed" || p.issuer != issuer
         || p.expectedDeploymentVersion != version || p.deploymentVersion != version {
        return false;
      }
    }
    ok := true;
  }

  method ValidateInput(evidence: Evidence, policy: Policy, args: Arguments, now: int) returns (ok: bool)
    ensures ok <==> InputIsValid(evidence, policy, args, now)
  {
    if policy.schemaVersion != 1 || IsBlank(policy.policyVersion) || evidence.schemaVersion != 1 {
      return false;
    }
    if evidence.generatedAt.None? {
      return false;
    }
    var generatedAt, maxAge := evidence.generatedAt.value, policy.maxEvidenceAgeHours * HOUR;
    if generatedAt > now || now - generatedAt > maxAge {
      return false;
    }
    var claims := ValidateClaims(evidence.requestedClaims, policy);
    if !claims {
      return false;
    }
    var suites := ValidateSuites(evidence.suites, policy.requiredSuites);
    if !suites {
      return false;
    }
    var issuer := StripSlashes(args.expectedIssuer);
    if "issuer" !in evidence.deployment || evidence.deployment["issuer"] != issuer {
      return false;
    }
    if "version" !in evidence.deployment || evidence.deployment["version"] != args.expectedVersion {
      return false;
    }
    ok := ValidatePreflights(evidence.preflights, issuer, args.expectedVersion);
  }
}
