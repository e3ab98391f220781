/** The release gate: from an evidence file and a policy file to an exit code and, on success only,
    an approved-claims file. */
module ConformanceGate {
  import opened ConformanceEvidence
  import opened ConformanceInput
  import opened Decimals
  import opened Lists
  import opened PythonText
  import opened Wrappers

  type Key = (string, string)

  /** A test together with the id of its suite. */
  type Required = (string, Test)

  function KeyOf(t: Required): Key {
    (t.0, t.1.id)
  }

  function KeyOfWaiver(w: Waiver): Key {
    (w.suiteId, w.testId)
  }

  // ---------- The required tests ----------

  function SuiteById(suites: seq<Suite>, id: string): (r: Option<Suite>)
    ensures r.Some? ==> r.value in suites && r.value.id == id
    ensures r.None? ==> forall s :: s in suites ==> s.id != id
  {
    if suites == [] then None
    else if suites[|suites| - 1].id == id then Some(suites[|suites| - 1])
    else SuiteById(suites[..|suites| - 1], id)
  }

  function RequiredIn(id: string, tests: seq<Test>): (r: seq<Required>)
    ensures forall t :: t in r <==> t.0 == id && t.1 in tests && t.1.required == Is(true)
  {
    if tests == [] then []
    else (if tests[0].required == Is(true) then [(id, tests[0])] else []) + RequiredIn(id, tests[1..])
  }

  function RequiredTests(policies: seq<(string, SuitePolicy)>, suites: seq<Suite>): seq<Required> {
    if policies == [] then []
    else
      var suite := SuiteById(suites, policies[0].0);
      (if suite.Some? then RequiredIn(policies[0].0, suite.value.tests) else [])
      + RequiredTests(policies[1..], suites)
  }

  ghost predicate DistinctKeys(ts: seq<Required>) {
    forall i, j :: 0 <= i < j < |ts| ==> KeyOf(ts[i]) != KeyOf(ts[j])
  }

  lemma {:induction false} RequiredInIsDistinct(id: string, tests: seq<Test>)
    requires forall i, j :: 0 <= i < j < |tests| ==> tests[i].id != tests[j].id
    ensures DistinctKeys(RequiredIn(id, tests))
  {
    if tests == [] {
    } else {
      RequiredInIsDistinct(id, tests[1..]);
      var rest := RequiredIn(id, tests[1..]);
      assert forall k :: 0 <= k < |rest| ==> rest[k] in rest;
    }
  }

  lemma {:induction false} RequiredTestsAreDistinct(policies: seq<(string, SuitePolicy)>, suites: seq<Suite>)
    requires Distinct(Ids(policies))
    requires forall s :: s in suites ==> forall i, j :: 0 <= i < j < |s.tests| ==> s.tests[i].id != s.tests[j].id
    ensures DistinctKeys(RequiredTests(policies, suites))
    ensures forall t :: t in RequiredTests(policies, suites) ==> t.0 in Ids(policies)
  {
    if policies == [] {
    } else {
      var tail, id := policies[1..], policies[0].0;
      IdsOfTail(policies);
      RequiredTestsAreDistinct(tail, suites);
      var suite := SuiteById(suites, id);
      var first := if suite.Some? then RequiredIn(id, suite.value.tests) else [];
      if suite.Some? {
        RequiredInIsDistinct(id, suite.value.tests);
      }
      DistinctKeysConcat(first, RequiredTests(tail, suites), id);
    }
  }

  lemma IdsOfTail(policies: seq<(string, SuitePolicy)>)
    requires policies != [] && Distinct(Ids(policies))
    ensures Distinct(Ids(policies[1..])) && policies[0].0 !in Ids(policies[1..])
    ensures forall id :: id in Ids(policies) <==> id == policies[0].0 || id in Ids(policies[1..])
  {
    assert Ids(policies) == [policies[0].0] + Ids(policies[1..]);
    DistinctCons(policies[0].0, Ids(policies[1..]));
  }

  lemma DistinctKeysConcat(a: seq<Required>, b: seq<Required>, id: string)
    requires DistinctKeys(a) && DistinctKeys(b)
    requires forall t :: t in a ==> t.0 == id
    requires forall t :: t in b ==> t.0 != id
    ensures DistinctKeys(a + b)
  {
    assert forall i :: 0 <= i < |a| ==> a[i] in a;
    assert forall i :: 0 <= i < |b| ==> b[i] in b;
  }

  // ---------- Waivers ----------

  predicate Passed(t: Required) {
    t.1.status == "passed"
  }

  predicate Waivable(t: Required) {
    t.1.status == "failed" && (t.1.waivable.Absent? || t.1.waivable == Is(true))
  }

  function FailedTests(required: seq<Required>): seq<Required> {
    Filter(required, (t: Required) => !Passed(t))
  }

  function PassedTests(required: seq<Required>): seq<Required> {
    Filter(required, (t: Required) => Passed(t))
  }

  predicate IsIssueNumber(s: string) {
    s != "" && '1' <= s[0] <= '9' && forall i :: 0 <= i < |s| ==> '0' <= s[i] <= '9'
  }

  /** An issue of the policy's repository. */
  predicate IsIssueUrl(repository: string, url: string) {
    var prefix := "https://github.com/" + repository + "/issues/";
    prefix <= url && IsIssueNumber(url[|prefix|..])
  }

  ghost predicate Targets(w: Waiver, required: seq<Required>) {
    exists t :: t in required && KeyOf(t) == KeyOfWaiver(w) && Waivable(t)
  }

  ghost predicate IsApproved(w: Waiver, policy: Policy, now: int) {
    && !IsBlank(w.approvedBy) && !IsBlank(w.reason) && !IsBlank(policy.exceptionIssueRepository)
    && IsIssueUrl(policy.exceptionIssueRepository, w.issueUrl)
    && w.approvedAt.Some? && w.expiresAt.Some?
    && w.approvedAt.value <= now < w.expiresAt.value
    && w.expiresAt.value - w.approvedAt.value <= policy.maxExceptionDays * DAY
  }

  function WaiverKeys(waivers: seq<Waiver>): seq<Key> {
    seq(|waivers|, i requires 0 <= i < |waivers| => KeyOfWaiver(waivers[i]))
  }

  /** No two waivers share a target; each targets a waivable failed required test and is in force. */
  ghost predicate WaiversAreValid(waivers: seq<Waiver>, required: seq<Required>, policy: Policy, now: int) {
    && Distinct(WaiverKeys(waivers))
    && (forall w :: w in waivers ==> Targets(w, required))
    && forall w :: w in waivers ==> IsApproved(w, policy, now)
  }

  datatype Waived = Waived(test: Required, waiver: Waiver)

  datatype Decision = Decision(waived: seq<Waived>, failures: seq<Required>)

  ghost function TestKeys(waived: seq<Waived>): seq<Key> {
    seq(|waived|, i requires 0 <= i < |waived| => KeyOf(waived[i].test))
  }

  ghost predicate HasWaiver(t: Required, waivers: seq<Waiver>) {
    exists w :: w in waivers && KeyOfWaiver(w) == KeyOf(t)
  }

  /** Waivers and waived tests correspond one to one; every other failed test is a failure. */
  ghost predicate Decided(required: seq<Required>, waivers: seq<Waiver>, d: Decision) {
    && (forall x :: x in d.waived ==>
          x.test in required && Waivable(x.test) && x.waiver in waivers && KeyOfWaiver(x.waiver) == KeyOf(x.test))
    && Distinct(TestKeys(d.waived))
    && (forall w :: w in waivers ==> exists x :: x in d.waived && x.waiver == w)
    && |d.waived| == |waivers|
    && (forall t :: t in d.failures <==> t in required && !Passed(t) && !HasWaiver(t, waivers))
    && |d.waived| + |d.failures| == |FailedTests(required)|
  }

  function WaiverFor(key: Key, waivers: seq<Waiver>): (r: Option<Waiver>)
    ensures r.Some? ==> r.value in waivers && KeyOfWaiver(r.value) == key
    ensures r.None? ==> forall w :: w in waivers ==> KeyOfWaiver(w) != key
  {
    if waivers == [] then None
    else if KeyOfWaiver(waivers[|waivers| - 1]) == key then Some(waivers[|waivers| - 1])
    else WaiverFor(key, waivers[..|waivers| - 1])
  }

  method Decide(required: seq<Required>, waivers: seq<Waiver>, policy: Policy, now: int) returns (r: Option<Decision>)
    requires DistinctKeys(required)
    ensures r.Some? <==> WaiversAreValid(waivers, required, policy, now)
    ensures r.Some? ==> Decided(required, waivers, r.value)
  {
    var failed := FailedTests(required);
    var valid := CheckWaivers(required, failed, waivers, policy, now);
    if !valid {
      return None;
    }
    FilterKeepsDistinctKeys(required, failed);
    var waived, failures := [], [];
    for i := 0 to |failed|
      invariant SplitSoFar(failed, waivers, i, waived, failures)
    {
      var t := failed[i];
      var waiver := WaiverFor(KeyOf(t), waivers);
      if Waivable(t) && waiver.Some? && waiver.value.expiresAt.Some? && waiver.value.expiresAt.value > now {
        TakeWaived(failed, waivers, i, waived, failures, waiver.value);
        waived := waived + [Waived(t, waiver.value)];
      } else {
        TakeFailure(failed, waivers, i, waived, failures);
        failures := failures + [t];
      }
    }
    SplitIsDecided(required, failed, waivers, waived, failures);
    r := Some(Decision(waived, failures));
  }

  method CheckWaivers(required: seq<Required>, failed: seq<Required>, waivers: seq<Waiver>, policy: Policy, now: int)
    returns (valid: bool)
    requires failed == FailedTests(required)
    ensures valid <==> WaiversAreValid(waivers, required, policy, now)
  {
    var waivableKeys := set t | t in failed && t.1.status == "failed" && t.1.waivable in {Absent, Is(true)} :: (t.0, t.1.id);
    var keys := WaiverKeys(waivers);
    DistinctIffCounted(keys);
    if |keys| != |SetOf(keys)| {
      return false;
    }
    for i := 0 to |waivers|
      invariant forall k :: 0 <= k < i ==> Targets(waivers[k], required) && IsApproved(waivers[k], policy, now)
    {
      var w := waivers[i];
      assert w in waivers && keys[i] == (w.suiteId, w.testId);
      if keys[i] !in waivableKeys {
        return false;
      }
      if IsBlank(w.approvedBy) || IsBlank(w.reason) || IsBlank(policy.exceptionIssueRepository) {
        return false;
      }
      if !IsIssueUrl(policy.exceptionIssueRepository, w.issueUrl) || w.approvedAt.None? || w.expiresAt.None? {
        return false;
      }
      if w.approvedAt.value > now || w.expiresAt.value <= now {
        return false;
      }
      if w.expiresAt.value - w.approvedAt.value > policy.maxExceptionDays * DAY {
        return false;
      }
    }
    return true;
  }

  /** The first `i` failed tests are sorted into waived ones and failures. */
  ghost predicate SplitSoFar(failed: seq<Required>, waivers: seq<Waiver>, i: nat,
                             waived: seq<Waived>, failures: seq<Required>)
    requires i <= |failed|
  {
    && |waived| + |failures| == i
    && Distinct(TestKeys(waived))
    && (forall x :: x in waived ==>
          x.test in failed[..i] && Waivable(x.test) && WaiverFor(KeyOf(x.test), waivers) == Some(x.waiver))
    && (forall t :: t in failures ==> t in failed[..i] && !(Waivable(t) && HasWaiver(t, waivers)))
    && (forall t :: t in failed[..i] ==> t in failures || exists x :: x in waived && x.test == t)
  }

  lemma FilterKeepsDistinctKeys(required: seq<Required>, failed: seq<Required>)
    requires DistinctKeys(required) && failed == FailedTests(required)
    ensures DistinctKeys(failed)
  {
    if required != [] {
      var tail := required[1..];
      FilterKeepsDistinctKeys(tail, FailedTests(tail));
      assert forall i :: 0 <= i < |FailedTests(tail)| ==> FailedTests(tail)[i] in FailedTests(tail);
      assert forall t :: t in tail ==> KeyOf(t) != KeyOf(required[0]);
    }
  }

  lemma TakeWaived(failed: seq<Required>, waivers: seq<Waiver>, i: nat,
                   waived: seq<Waived>, failures: seq<Required>, w: Waiver)
    requires i < |failed| && DistinctKeys(failed) && SplitSoFar(failed, waivers, i, waived, failures)
    requires Waivable(failed[i]) && WaiverFor(KeyOf(failed[i]), waivers) == Some(w)
    ensures SplitSoFar(failed, waivers, i + 1, waived + [Waived(failed[i], w)], failures)
  {
    var more := waived + [Waived(failed[i], w)];
    assert failed[..i + 1] == failed[..i] + [failed[i]];
    assert TestKeys(more) == TestKeys(waived) + [KeyOf(failed[i])];
    forall k | 0 <= k < |waived|
      ensures TestKeys(waived)[k] != KeyOf(failed[i])
    {
      assert waived[k] in waived;
      var j :| 0 <= j < i && failed[j] == waived[k].test;
    }
    DistinctConcat(TestKeys(waived), [KeyOf(failed[i])]);
    assert Waived(failed[i], w) in more;
    assert forall x :: x in waived ==> x in more;
  }

  lemma TakeFailure(failed: seq<Required>, waivers: seq<Waiver>, i: nat, waived: seq<Waived>, failures: seq<Required>)
    requires i < |failed| && SplitSoFar(failed, waivers, i, waived, failures)
    requires !(Waivable(failed[i]) && HasWaiver(failed[i], waivers))
    ensures SplitSoFar(failed, waivers, i + 1, waived, failures + [failed[i]])
  {
    assert failed[..i + 1] == failed[..i] + [failed[i]];
  }

  lemma SplitIsDecided(required: seq<Required>, failed: seq<Required>, waivers: seq<Waiver>,
                       waived: seq<Waived>, failures: seq<Required>)
    requires failed == FailedTests(required) && SplitSoFar(failed, waivers, |failed|, waived, failures)
    requires Distinct(WaiverKeys(waivers)) && forall w :: w in waivers ==> Targets(w, required)
    requires DistinctKeys(required)
    ensures Decided(required, waivers, Decision(waived, failures))
  {
    assert failed[..|failed|] == failed;
    forall w | w in waivers
      ensures exists x :: x in waived && x.waiver == w
    {
      var t :| t in required && KeyOf(t) == KeyOfWaiver(w) && Waivable(t);
      assert t in failed && HasWaiver(t, waivers);
      var x :| x in waived && x.test == t;
      UniqueWaiver(waivers, w, x.waiver);
    }
    forall t | t in failures
      ensures !HasWaiver(t, waivers)
    {
      if w :| w in waivers && KeyOfWaiver(w) == KeyOf(t) {
        var target :| target in required && KeyOf(target) == KeyOfWaiver(w) && Waivable(target);
        assert target == t;
      }
    }
    OnePerWaiver(waivers, waived);
  }

  lemma UniqueWaiver(waivers: seq<Waiver>, v: Waiver, w: Waiver)
    requires Distinct(WaiverKeys(waivers)) && v in waivers && w in waivers && KeyOfWaiver(v) == KeyOfWaiver(w)
    ensures v == w
  {
    var i :| 0 <= i < |waivers| && waivers[i] == v;
    var j :| 0 <= j < |waivers| && waivers[j] == w;
    assert WaiverKeys(waivers)[i] == WaiverKeys(waivers)[j];
  }

  lemma OnePerWaiver(waivers: seq<Waiver>, waived: seq<Waived>)
    requires Distinct(WaiverKeys(waivers)) && Distinct(TestKeys(waived))
    requires forall x :: x in waived ==> x.waiver in waivers && KeyOfWaiver(x.waiver) == KeyOf(x.test)
    requires forall w :: w in waivers ==> exists x :: x in waived && x.waiver == w
    ensures |waived| == |waivers|
  {
    forall key
      ensures key in TestKeys(waived) <==> key in WaiverKeys(waivers)
    {
      if i :| 0 <= i < |waived| && TestKeys(waived)[i] == key {
        assert waived[i] in waived;
        var j :| 0 <= j < |waivers| && waivers[j] == waived[i].waiver;
        assert WaiverKeys(waivers)[j] == key;
      }
      if j :| 0 <= j < |waivers| && WaiverKeys(waivers)[j] == key {
        assert waivers[j] in waivers;
        var x :| x in waived && x.waiver == waivers[j];
        var i :| 0 <= i < |waived| && waived[i] == x;
        assert TestKeys(waived)[i] == key;
      }
    }
    SameMembersSameLength(TestKeys(waived), WaiverKeys(waivers));
  }

  // ---------- The program ----------

  datatype ApprovedClaims = ApprovedClaims(
    schemaVersion: int, approvedAt: int, validUntil: int, deployment: map<string, string>,
    approvedProfileClaims: seq<Claim>, explicitNonClaims: seq<Claim>,
    evidenceSha256: string, policyVersion: string, policySha256: string)

  datatype Summary =
    | PassSummary(passed: nat, waived: nat)
    | FailSummary(failures: seq<Required>)
    | InvalidSummary

  /** The document a passing gate writes. */
  function Document(evidence: File<Evidence>, policy: File<Policy>, now: int, sha256: seq<int> -> string): ApprovedClaims
    requires evidence.content.generatedAt.Some?
  {
    ApprovedClaims(
      2, now, evidence.content.generatedAt.value + policy.content.maxEvidenceAgeHours * HOUR,
      evidence.content.deployment, evidence.content.requestedClaims, policy.content.explicitNonClaims,
      sha256(evidence.raw), policy.content.policyVersion, sha256(policy.raw))
  }

  /** A required test of the evidence, with the id of its suite. */
  ghost predicate IsRequired(evidence: Evidence, t: Required) {
    exists s :: s in evidence.suites && s.id == t.0 && t.1 in s.tests && t.1.required == Is(true)
  }

  ghost predicate IsExcepted(evidence: Evidence, t: Required) {
    exists w :: w in evidence.exceptions && w.suiteId == t.0 && w.testId == t.1.id
  }

  /** The exception is for a required test that failed and may be waived. */
  ghost predicate MayExcept(evidence: Evidence, w: Waiver) {
    exists t :: IsRequired(evidence, t) && w.suiteId == t.0 && w.testId == t.1.id
                && t.1.status == "failed" && (t.1.waivable == Absent || t.1.waivable == Is(true))
  }

  ghost predicate NoneTwice(waivers: seq<Waiver>) {
    forall i, j :: 0 <= i < j < |waivers| ==> !(waivers[i].suiteId == waivers[j].suiteId && waivers[i].testId == waivers[j].testId)
  }

  /** Each exception is approved and in force, for a required test that failed and may be waived, and
      no two are for the same test. */
  ghost predicate ExceptionsAreValid(evidence: Evidence, policy: Policy, now: int) {
    && NoneTwice(evidence.exceptions)
    && (forall w :: w in evidence.exceptions ==> MayExcept(evidence, w))
    && forall w :: w in evidence.exceptions ==> IsApproved(w, policy, now)
  }

  /** The gate should pass: the input is valid, and every required test passed or has an exception
      that is valid. */
  ghost predicate ShouldPass(evidence: Evidence, policy: Policy, args: Arguments, now: int) {
    && InputIsValid(evidence, policy, args, now)
    && ExceptionsAreValid(evidence, policy, now)
    && forall t :: IsRequired(evidence, t) ==> t.1.status == "passed" || IsExcepted(evidence, t)
  }

  lemma {:induction false} RequiredInPolicies(policies: seq<(string, SuitePolicy)>, suites: seq<Suite>, t: Required)
    ensures t in RequiredTests(policies, suites) <==>
      exists p :: p in policies && p.0 == t.0 && SuiteById(suites, p.0).Some? && t.1 in SuiteById(suites, p.0).value.tests
                  && t.1.required == Is(true)
  {
    if policies == [] {
    } else {
      RequiredInPolicies(policies[1..], suites, t);
      assert forall p :: p in policies <==> p == policies[0] || p in policies[1..];
    }
  }

  /** The required tests are exactly those of the suites of the evidence. */
  lemma RequiredTestsAre(evidence: Evidence, policy: Policy, t: Required)
    requires SuitesAreValid(evidence.suites, policy.requiredSuites)
    ensures t in RequiredTests(policy.requiredSuites, evidence.suites) <==> IsRequired(evidence, t)
  {
    var suites, policies := evidence.suites, policy.requiredSuites;
    RequiredInPolicies(policies, suites, t);
    if s :| s in suites && s.id == t.0 && t.1 in s.tests && t.1.required == Is(true) {
      SuiteIsFound(suites, s);
      var p :| p in policies && p.0 == s.id;
    }
  }

  lemma SuiteIsFound(suites: seq<Suite>, s: Suite)
    requires s in suites && forall i, j :: 0 <= i < j < |suites| ==> suites[i].id != suites[j].id
    ensures SuiteById(suites, s.id) == Some(s)
  {
    var k :| 0 <= k < |suites| && suites[k] == s;
    var found := SuiteById(suites, s.id).value;
    var m :| 0 <= m < |suites| && suites[m] == found;
  }

  lemma RequiredOfValidInput(evidence: Evidence, policy: Policy, args: Arguments, now: int)
    requires InputIsValid(evidence, policy, args, now)
    ensures DistinctKeys(RequiredTests(policy.requiredSuites, evidence.suites))
  {
    var suites, policies := evidence.suites, policy.requiredSuites;
    forall s | s in suites
      ensures forall i, j :: 0 <= i < j < |s.tests| ==> s.tests[i].id != s.tests[j].id
    {
      var p :| p in policies && p.0 == s.id;
      assert TestsAreValid(s.tests);
    }
    RequiredTestsAreDistinct(policies, suites);
  }

  lemma RequiredAre(evidence: Evidence, policy: Policy, required: seq<Required>)
    requires SuitesAreValid(evidence.suites, policy.requiredSuites)
    requires required == RequiredTests(policy.requiredSuites, evidence.suites)
    ensures forall t :: t in required <==> IsRequired(evidence, t)
  {
    forall t
      ensures t in required <==> IsRequired(evidence, t)
    {
      RequiredTestsAre(evidence, policy, t);
    }
  }

  lemma WaiverMeans(evidence: Evidence, t: Required)
    ensures HasWaiver(t, evidence.exceptions) <==> IsExcepted(evidence, t)
  {
  }

  lemma AllTarget(evidence: Evidence, required: seq<Required>)
    requires forall t :: t in required <==> IsRequired(evidence, t)
    ensures (forall w :: w in evidence.exceptions ==> Targets(w, required)) <==>
      forall w :: w in evidence.exceptions ==> MayExcept(evidence, w)
  {
    forall w
      ensures Targets(w, required) == MayExcept(evidence, w)
    {
      TargetsIs(evidence, required, w);
    }
  }

  /** What is decided on the list of required tests is what holds of the evidence. */
  lemma ExceptionsAreWaivers(evidence: Evidence, policy: Policy, now: int, required: seq<Required>)
    requires forall t :: t in required <==> IsRequired(evidence, t)
    ensures WaiversAreValid(evidence.exceptions, required, policy, now) == ExceptionsAreValid(evidence, policy, now)
  {
    KeysAreDistinct(evidence.exceptions);
    AllTarget(evidence, required);
  }

  lemma KeysAreDistinct(waivers: seq<Waiver>)
    ensures Distinct(WaiverKeys(waivers)) == NoneTwice(waivers)
  {
    var keys := WaiverKeys(waivers);
    assert forall i :: 0 <= i < |keys| ==> keys[i] == (waivers[i].suiteId, waivers[i].testId);
  }

  lemma TargetsIs(evidence: Evidence, required: seq<Required>, w: Waiver)
    requires forall t :: t in required <==> IsRequired(evidence, t)
    ensures Targets(w, required) <==> MayExcept(evidence, w)
  {
    if t :| t in required && KeyOf(t) == KeyOfWaiver(w) && Waivable(t) {
      assert IsRequired(evidence, t);
    }
    if t :| IsRequired(evidence, t) && w.suiteId == t.0 && w.testId == t.1.id
            && t.1.status == "failed" && (t.1.waivable == Absent || t.1.waivable == Is(true)) {
      assert t in required && KeyOf(t) == KeyOfWaiver(w);
    }
  }

  /** The decision has no failures exactly when the gate should pass, and then passed tests and
      exceptions together are the required tests. */
  lemma DecisionTells(evidence: Evidence, policy: Policy, args: Arguments, now: int, required: seq<Required>, d: Decision)
    requires required == RequiredTests(policy.requiredSuites, evidence.suites)
    requires InputIsValid(evidence, policy, args, now) && ExceptionsAreValid(evidence, policy, now)
    requires Decided(required, evidence.exceptions, d)
    ensures d.failures == [] <==> ShouldPass(evidence, policy, args, now)
    ensures forall t :: t in d.failures <==> IsRequired(evidence, t) && t.1.status != "passed" && !IsExcepted(evidence, t)
    ensures |required| - |FailedTests(required)| == |PassedTests(required)|
  {
    RequiredAre(evidence, policy, required);
    forall t
      ensures HasWaiver(t, evidence.exceptions) <==> IsExcepted(evidence, t)
    {
      WaiverMeans(evidence, t);
    }
    NoMembers(d.failures);
    PassedAndFailed(required);
  }

  method Judge(evidence: Evidence, policy: Policy, args: Arguments, now: int) returns (verdict: Summary)
    ensures verdict.PassSummary? <==> ShouldPass(evidence, policy, args, now)
    ensures verdict.PassSummary? ==>
      var required := RequiredTests(policy.requiredSuites, evidence.suites);
      verdict == PassSummary(|PassedTests(required)|, |evidence.exceptions|)
    ensures verdict.FailSummary? ==>
      forall t :: t in verdict.failures <==> IsRequired(evidence, t) && t.1.status != "passed" && !IsExcepted(evidence, t)
  {
    var valid := ValidateInput(evidence, policy, args, now);
    if !valid {
      return InvalidSummary;
    }
    RequiredOfValidInput(evidence, policy, args, now);
    var required := RequiredTests(policy.requiredSuites, evidence.suites);
    RequiredAre(evidence, policy, required);
    ExceptionsAreWaivers(evidence, policy, now, required);
    var decision := Decide(required, evidence.exceptions, policy, now);
    if decision.None? {
      return InvalidSummary;
    }
    DecisionTells(evidence, policy, args, now, required, decision.value);
    if decision.value.failures != [] {
      return FailSummary(decision.value.failures);
    }
    return PassSummary(|required| - |FailedTests(required)|, |decision.value.waived|);
  }

  /** What the run finds on the disk, and which of its later steps there succeed. */
  datatype Disk = Disk(evidence: Option<File<Evidence>>, policy: Option<File<Policy>>, summaryIsWritten: bool,
                       filesAreHashed: bool, temporaryIsWritten: bool, temporaryIsMoved: bool)

  predicate Works(disk: Disk) {
    disk.summaryIsWritten && disk.filesAreHashed && disk.temporaryIsWritten && disk.temporaryIsMoved
  }

  /** The files a run leaves behind. */
  class Outputs {
    var approvedClaims: Option<ApprovedClaims>
    var temporary: Option<ApprovedClaims>
    var summary: Option<Summary>

    /** Whatever files an earlier run left, an approved-claims file exists afterwards exactly when
        the exit code is 0, which is exactly when the gate should pass and every step on the disk
        succeeded; no temporary file is ever left. */
    method RunGate(disk: Disk, args: Arguments, now: int, sha256: seq<int> -> string) returns (exitCode: int)
      modifies this
      ensures exitCode == 0 || exitCode == 1
      ensures exitCode == 0 <==> approvedClaims.Some?
      ensures exitCode == 0 <==>
        && disk.evidence.Some? && disk.policy.Some? && Works(disk)
        && ShouldPass(disk.evidence.value.content, disk.policy.value.content, args, now)
      ensures exitCode == 0 ==>
        approvedClaims == Some(Document(disk.evidence.value, disk.policy.value, now, sha256))
      ensures exitCode == 0 ==>
        var evidence, policy := disk.evidence.value.content, disk.policy.value.content;
        summary == Some(PassSummary(|PassedTests(RequiredTests(policy.requiredSuites, evidence.suites))|, |evidence.exceptions|))
      ensures exitCode == 1 ==> summary.Some? && !summary.value.PassSummary?
      ensures temporary.None?
    {
      approvedClaims, temporary := None, None;
      if disk.evidence.None? || disk.policy.None? {
        exitCode := Refuse();
        return;
      }
      var evidence, policy := disk.evidence.value, disk.policy.value;
      var verdict := Judge(evidence.content, policy.content, args, now);
      if verdict.InvalidSummary? || !disk.summaryIsWritten {
        exitCode := Refuse();
        return;
      }
      summary := Some(verdict);
      if verdict.FailSummary? {
        return 1;
      }
      if !disk.filesAreHashed {
        exitCode := Refuse();
        return;
      }
      temporary := Some(Document(evidence, policy, now, sha256));
      if !disk.temporaryIsWritten || !disk.temporaryIsMoved {
        exitCode := Refuse();
        return;
      }
      approvedClaims, temporary := temporary, None;
      return 0;
    }

    /** What an error anywhere in the run ends in. */
    method Refuse() returns (exitCode: int)
      modifies this
      ensures exitCode == 1 && approvedClaims.None? && temporary.None? && summary == Some(InvalidSummary)
    {
      approvedClaims, temporary := None, None;
      summary := Some(InvalidSummary);
      return 1;
    }
  }

  lemma {:induction false} PassedAndFailed(required: seq<Required>)
    ensures |PassedTests(required)| + |FailedTests(required)| == |required|
  {
    if required == [] {
    } else {
      PassedAndFailed(required[1..]);
    }
  }

  /** A pass conserves the required tests: passed plus waived is all of them, one exception each. */
  lemma PassConserves(evidence: Evidence, policy: Policy, args: Arguments, now: int, d: Decision)
    requires ShouldPass(evidence, policy, args, now)
    requires Decided(RequiredTests(policy.requiredSuites, evidence.suites), evidence.exceptions, d)
    ensures var required := RequiredTests(policy.requiredSuites, evidence.suites);
      && d.failures == []
      && |evidence.exceptions| == |FailedTests(required)|
      && |PassedTests(required)| + |evidence.exceptions| == |required|
  {
    var required := RequiredTests(policy.requiredSuites, evidence.suites);
    DecisionTells(evidence, policy, args, now, required, d);
    PassedAndFailed(required);
  }

  // ---------- Issue addresses ----------

  lemma NumeralSnoc(m: nat, c: char)
    requires m > 0 && IsDigit(c)
    ensures Numeral(10 * m + (c as nat - '0' as nat)) == Numeral(m) + [c]
  {
    var d := c as nat - '0' as nat;
    assert (10 * m + d) / 10 == m && (10 * m + d) % 10 == d;
  }

  lemma {:induction false} NumberDigits(s: string)
    requires IsIssueNumber(s)
    ensures IsNumeral(s) && Denotes(s) > 0 && Numeral(Denotes(s)) == s
    decreases |s|
  {
    var front, c := s[..|s| - 1], s[|s| - 1];
    SplitLast(s);
    DenotesSnoc(front, c);
    if front == "" {
      assert Denotes(front) == 0 && s == [c];
    } else {
      NumberDigits(front);
      NumeralSnoc(Denotes(front), c);
    }
  }

  lemma {:induction false} NumeralsAreNumbers(n: nat)
    requires n > 0
    ensures IsIssueNumber(Numeral(n))
  {
    if n < 10 {
    } else {
      NumeralsAreNumbers(n / 10);
    }
  }

  /** Exceptions link to an issue by its number. */
  lemma IssueUrlsAre(repository: string, url: string)
    ensures IsIssueUrl(repository, url) <==>
      exists n: nat :: n > 0 && url == "https://github.com/" + repository + "/issues/" + Numeral(n)
  {
    var prefix := "https://github.com/" + repository + "/issues/";
    if IsIssueUrl(repository, url) {
      NumberDigits(url[|prefix|..]);
      assert url == prefix + url[|prefix|..];
    }
    if n: nat :| n > 0 && url == "https://github.com/" + repository + "/issues/" + Numeral(n) {
      NumeralsAreNumbers(n);
      assert url[|prefix|..] == Numeral(n);
    }
  }
}
