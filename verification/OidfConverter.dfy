/** From an official plan export to suite evidence, and what the gate makes of that evidence. */
module OidfConverter {
  import opened ConformanceEvidence
  import opened Lists
  import opened PythonText
  import opened Wrappers
  import ConformanceInput

  const EXPECTED_PLAN: string := "oidcc-basic-certification-test-plan"
  const EXPECTED_VARIANTS: Variants := map["server_metadata" := "discovery", "client_registration" := "dynamic_client"]
  const CLEANUP_CONDITION: string := "UnregisterDynamicallyRegisteredClient"
  const REGISTRATION_CALL_CONDITION: string := "CallDynamicRegistrationEndpoint"
  const CLEANUP_NOT_REQUIRED_MESSAGE: string := "Skipped evaluation due to missing required object: client"

  // ---------- Cleanup evidence in one export ----------

  /** The "result" of a log entry. */
  datatype Outcome = Missing | Null | Boolean | Text(s: string) | Number | Array | Object | Unknown

  datatype Mapped = Unmapped | MappedToNull | MappedTo

  datatype Entry = Entry(src: string, outcome: Outcome, msg: string, expected: string, mapped: Mapped)

  /** Only a missing result or a non-empty string is well-formed. */
  predicate IsWellFormed(o: Outcome) {
    o.Missing? || (o.Text? && o.s != "")
  }

  function CleanupEntries(results: seq<Entry>): seq<Entry> {
    Filter(results, (e: Entry) => e.src == CLEANUP_CONDITION)
  }

  function Reported(entries: seq<Entry>): seq<Entry> {
    Filter(entries, (e: Entry) => e.outcome.Text? && e.outcome.s != "")
  }

  predicate CleanupNotRequired(results: seq<Entry>) {
    var cleanup := CleanupEntries(results);
    && |cleanup| == 1
    && cleanup[0].outcome == Outcome.Text("INFO")
    && cleanup[0].msg == CLEANUP_NOT_REQUIRED_MESSAGE
    && cleanup[0].expected == "client"
    && cleanup[0].mapped.MappedToNull?
    && forall i :: 0 <= i < |results| ==> results[i].src != REGISTRATION_CALL_CONDITION
  }

  /** The cleanup status and the number of reported attempts; malformed evidence is refused. */
  function DynamicClientCleanup(results: Option<seq<Option<Entry>>>): Option<(string, nat)> {
    if results.None? || None in results.value then None
    else
      var entries := Objects(results.value);
      var cleanup := CleanupEntries(entries);
      if cleanup == [] || (exists i :: 0 <= i < |cleanup| && !IsWellFormed(cleanup[i].outcome)) then None
      else if CleanupNotRequired(entries) then Some(("not_required", 0))
      else
        var reported := Reported(cleanup);
        if reported != [] && (forall i :: 0 <= i < |reported| ==> reported[i].outcome == Outcome.Text("SUCCESS"))
        then Some(("passed", |reported|))
        else Some(("failed", |reported|))
  }

  // ---------- What cleanup evidence means ----------

  ghost predicate IsCleanup(e: Entry) {
    e.src == "UnregisterDynamicallyRegisteredClient"
  }

  ghost predicate IsReported(e: Entry) {
    IsCleanup(e) && e.outcome.Text? && e.outcome.s != ""
  }

  ghost predicate OnlyCleanup(entries: seq<Entry>, k: nat)
    requires k < |entries|
  {
    IsCleanup(entries[k]) && forall i :: 0 <= i < |entries| && IsCleanup(entries[i]) ==> i == k
  }

  /** Cleanup was skipped because no client was registered. */
  ghost predicate NothingToCleanUp(entries: seq<Entry>) {
    && (exists k :: 0 <= k < |entries| && OnlyCleanup(entries, k) && SkippedForMissingClient(entries[k]))
    && forall e :: e in entries ==> e.src != "CallDynamicRegistrationEndpoint"
  }

  ghost predicate SkippedForMissingClient(e: Entry) {
    && e.outcome == Outcome.Text("INFO") && e.expected == "client" && e.mapped == MappedToNull
    && e.msg == "Skipped evaluation due to missing required object: client"
  }

  ghost function ReportedCount(entries: seq<Entry>): nat {
    if entries == [] then 0
    else ReportedCount(entries[..|entries| - 1]) + if IsReported(entries[|entries| - 1]) then 1 else 0
  }

  /** The cleanup status that well-formed evidence stands for, and the number of reported attempts. */
  ghost predicate CleanupMeans(results: Option<seq<Option<Entry>>>, status: string, attempts: nat) {
    && results.Some? && (forall r :: r in results.value ==> r.Some?)
    && var entries := Objects(results.value);
    && (exists e :: e in entries && IsCleanup(e))
    && (forall e :: e in entries && IsCleanup(e) ==> e.outcome == Missing || IsReported(e))
    && if NothingToCleanUp(entries) then status == "not_required" && attempts == 0
       else
         && attempts == ReportedCount(entries)
         && status == if (exists e :: e in entries && IsReported(e))
                         && forall e :: e in entries && IsReported(e) ==> e.outcome.s == "SUCCESS"
                      then "passed" else "failed"
  }

  lemma {:induction false} ReportedAreCounted(entries: seq<Entry>)
    ensures |Reported(CleanupEntries(entries))| == ReportedCount(entries)
  {
    if entries == [] {
    } else {
      var front, e := entries[..|entries| - 1], entries[|entries| - 1];
      SplitLast(entries);
      ReportedAreCounted(front);
      FilterSnoc(front, e, (x: Entry) => x.src == CLEANUP_CONDITION);
      var more := if e.src == CLEANUP_CONDITION then [e] else [];
      assert CleanupEntries(entries) == CleanupEntries(front) + more;
      if e.src == CLEANUP_CONDITION {
        FilterSnoc(CleanupEntries(front), e, (x: Entry) => x.outcome.Text? && x.outcome.s != "");
      } else {
        assert CleanupEntries(front) + [] == CleanupEntries(front);
      }
    }
  }

  lemma CleanupsAre(entries: seq<Entry>)
    ensures forall e :: e in CleanupEntries(entries) <==> e in entries && IsCleanup(e)
    ensures forall e :: e in Reported(CleanupEntries(entries)) <==> e in entries && IsReported(e)
  {
  }

  lemma NothingToCleanUpIs(entries: seq<Entry>)
    ensures CleanupNotRequired(entries) <==> NothingToCleanUp(entries)
  {
    var p := (e: Entry) => e.src == CLEANUP_CONDITION;
    assert forall i :: 0 <= i < |entries| ==> entries[i] in entries && p(entries[i]) == IsCleanup(entries[i]);
    if |CleanupEntries(entries)| == 1 {
      var k := FindOnly(entries, p);
      assert OnlyCleanup(entries, k);
    }
    if k :| 0 <= k < |entries| && OnlyCleanup(entries, k) && SkippedForMissingClient(entries[k]) {
      OnlyIsFound(entries, p, k);
    }
  }

  lemma ReportedStatus(entries: seq<Entry>)
    ensures var reported := Reported(CleanupEntries(entries));
      (reported != [] && forall i :: 0 <= i < |reported| ==> reported[i].outcome == Outcome.Text("SUCCESS")) <==>
      (exists e :: e in entries && IsReported(e)) && forall e :: e in entries && IsReported(e) ==> e.outcome.s == "SUCCESS"
  {
    var reported := Reported(CleanupEntries(entries));
    CleanupsAre(entries);
    NoMembers(reported);
    assert forall i :: 0 <= i < |reported| ==> reported[i] in reported;
  }

  lemma EvidenceIsFormed(entries: seq<Entry>)
    ensures var cleanup := CleanupEntries(entries);
      (cleanup != [] && !exists i :: 0 <= i < |cleanup| && !IsWellFormed(cleanup[i].outcome)) <==>
      && (exists e :: e in entries && IsCleanup(e))
      && forall e :: e in entries && IsCleanup(e) ==> e.outcome == Missing || IsReported(e)
  {
    var cleanup := CleanupEntries(entries);
    CleanupsAre(entries);
    NoMembers(cleanup);
    assert forall i :: 0 <= i < |cleanup| ==> cleanup[i] in cleanup;
  }

  /** The converter reads exactly what the evidence means, and refuses what means nothing. */
  lemma CleanupIs(results: Option<seq<Option<Entry>>>, status: string, attempts: nat)
    ensures DynamicClientCleanup(results) == Some((status, attempts)) <==> CleanupMeans(results, status, attempts)
  {
    if results.Some? && None !in results.value {
      var entries := Objects(results.value);
      EvidenceIsFormed(entries);
      NothingToCleanUpIs(entries);
      ReportedAreCounted(entries);
      ReportedStatus(entries);
    }
  }

  // ---------- The plan and its exports ----------

  /** Ids and names that are missing or not strings are empty; a variant that is not a map of strings
      is `None`. */
  datatype Module = Module(name: string, instances: seq<string>, variant: Option<Variants>)

  datatype PlanInfo = PlanInfo(name: string, id: string, variant: Option<Variants>, modules: seq<Module>)

  datatype Export = Export(
    instanceId: string, planId: string, testName: string, variant: Option<Variants>,
    status: Option<string>, result: string, version: string, origin: string,
    results: Option<seq<Option<Entry>>>, signatureKeyId: string)

  datatype Arguments = Arguments(
    expectedOrigin: string, runnerRef: string, runnerCommit: string, runnerExitCode: int, sourceUrl: string)

  /** The latest instance is the one that counts. */
  function InstanceOf(m: Module): string {
    if m.instances == [] then "" else m.instances[|m.instances| - 1]
  }

  function Instances(modules: seq<Module>): seq<string> {
    seq(|modules|, i requires 0 <= i < |modules| => InstanceOf(modules[i]))
  }

  /** Every module ran, and no two modules share their latest instance. */
  ghost predicate ModulesAreValid(modules: seq<Module>) {
    && (forall i :: 0 <= i < |modules| ==>
          modules[i].name != "" && InstanceOf(modules[i]) != "" && modules[i].variant.Some?)
    && Distinct(Instances(modules))
  }

  ghost predicate PlanIsValid(plan: PlanInfo) {
    && plan.name == "oidcc-basic-certification-test-plan" && plan.id != ""
    && plan.variant == Some(map["server_metadata" := "discovery", "client_registration" := "dynamic_client"])
    && plan.modules != [] && ModulesAreValid(plan.modules)
  }

  function ExportIds(exports: seq<Export>): seq<string> {
    seq(|exports|, i requires 0 <= i < |exports| => exports[i].instanceId)
  }

  /** One suite version, one origin, each instance exported once. `baseUrl` stands for the URL
      library: the HTTPS origin of an address, if it has one. */
  ghost predicate ExportsAreValid(exports: seq<Export>, version: string, origin: Option<string>,
                                  baseUrl: string -> Option<string>) {
    && origin.Some?
    && (forall i :: 0 <= i < |exports| ==>
          && exports[i].instanceId != "" && exports[i].version != "" && exports[i].origin != ""
          && exports[i].version == version && baseUrl(exports[i].origin) == origin)
    && Distinct(ExportIds(exports))
  }

  predicate RanVariants(ran: Variants, wanted: Variants) {
    forall k :: k in wanted ==> k in ran && ran[k] == wanted[k]
  }

  function UpstreamResult(x: Export): string {
    if x.result == "" then "UNKNOWN" else x.result
  }

  predicate PassedUpstream(x: Export) {
    x.status == Some("FINISHED") && UpstreamResult(x) == "PASSED"
  }

  function StatusOf(x: Export, cleanup: string): string {
    var status :=
      if PassedUpstream(x) then "passed"
      else if x.status == Some("FINISHED") && UpstreamResult(x) in {"FAILED", "REVIEW", "WARNING", "SKIPPED"} then "failed"
      else "error";
    if cleanup != "passed" && status == "passed" then "failed" else status
  }

  /** `suffix` stands for the printed variant: its keys in order, each with its value. */
  function TestId(m: Module, suffix: Variants -> string): string {
    m.name + suffix(if m.variant.Some? then m.variant.value else map[])
  }

  // ---------- What an export means ----------

  /** The test ran with the module's variants, and with the plan's where the module has none. */
  ghost predicate RanAsAsked(ran: Variants, asked: Variants) {
    && (forall k :: k in asked ==> k in ran && ran[k] == asked[k])
    && ("server_metadata" !in asked ==> "server_metadata" in ran && ran["server_metadata"] == "discovery")
    && ("client_registration" !in asked ==> "client_registration" in ran && ran["client_registration"] == "dynamic_client")
  }

  ghost predicate FinishedWith(x: Export, result: string) {
    x.status == Some("FINISHED") && x.result == result
  }

  /** The export is one of this module, run as asked, with cleanup evidence that means something and
      is there if the run passed. */
  ghost predicate ExportMatches(plan: PlanInfo, m: Module, x: Export) {
    && x.planId == plan.id && x.testName == m.name
    && x.variant.Some? && m.variant.Some? && RanAsAsked(x.variant.value, m.variant.value)
    && var cleanup := DynamicClientCleanup(x.results);
    && cleanup.Some? && !(cleanup.value.0 == "not_required" && FinishedWith(x, "PASSED"))
  }

  /** What the converted test says of the export. */
  ghost predicate Says(test: Test, m: Module, x: Export, origin: string, suffix: Variants -> string) {
    && m.variant.Some? && test.id == m.name + suffix(m.variant.value)
    && m.instances != [] && test.instanceId == m.instances[|m.instances| - 1]
    && test.logUrl == origin + "log-detail.html?log=" + test.instanceId
    && test.upstreamStatus == x.status && test.upstreamResult == (if x.result == "" then "UNKNOWN" else x.result)
    && test.signatureKeyId == x.signatureKeyId
    && test.cleanupAttempts.Some? && test.cleanupAttempts.value >= 0
    && DynamicClientCleanup(x.results) == Some((test.cleanup, test.cleanupAttempts.value))
    && test.required == Is(true) && test.waivable == (if test.cleanup == "failed" then Is(false) else Absent)
    && (test.status == "passed" <==> FinishedWith(x, "PASSED") && test.cleanup == "passed")
    && (test.status == "failed" <==>
          || FinishedWith(x, "FAILED") || FinishedWith(x, "REVIEW") || FinishedWith(x, "WARNING") || FinishedWith(x, "SKIPPED")
          || (FinishedWith(x, "PASSED") && test.cleanup != "passed"))
    && test.status in {"passed", "failed", "error"}
  }

  /** A plan and its exports can be converted: both are valid, they name the same instances, and
      every export is the one its module asked for. */
  ghost predicate Convertible(plan: PlanInfo, exports: seq<Export>, args: Arguments, baseUrl: string -> Option<string>) {
    && PlanIsValid(plan)
    && exports != [] && ExportsAreValid(exports, exports[0].version, baseUrl(args.expectedOrigin), baseUrl)
    && (forall id :: id in Instances(plan.modules) <==> id in ExportIds(exports))
    && forall i, x :: 0 <= i < |plan.modules| && x in exports && x.instanceId == InstanceOf(plan.modules[i]) ==>
         ExportMatches(plan, plan.modules[i], x)
  }

  /** `test` is made from the export of the latest instance of module `m`. */
  ghost predicate IsTestOf(plan: PlanInfo, exports: seq<Export>, m: Module, test: Test, origin: string, suffix: Variants -> string) {
    exists x :: x in exports && x.instanceId == InstanceOf(m) && ExportMatches(plan, m, x) && Says(test, m, x, origin, suffix)
  }

  /** The suite has one test for each module, in order. */
  ghost predicate Converts(plan: PlanInfo, exports: seq<Export>, args: Arguments, suite: Suite,
                           baseUrl: string -> Option<string>, suffix: Variants -> string) {
    && PlanIsValid(plan) && baseUrl(args.expectedOrigin).Some?
    && var origin := baseUrl(args.expectedOrigin).value;
    && exports != [] && suite.version == exports[0].version
    && suite.id == "oidf-basic-op-code" && suite.kind == "oidf-plan" && suite.metadataAndRuntime
    && suite.sourceUrl == args.sourceUrl && suite.resultUrl == origin + ("plan-detail.html?plan=" + plan.id)
    && suite.plan == Some(Plan(plan.name, plan.variant.value, args.runnerRef, args.runnerCommit,
                               Some(args.runnerExitCode), origin, true, |plan.modules|))
    && |suite.tests| == |plan.modules|
    && forall i :: 0 <= i < |plan.modules| ==> MadeAt(plan, exports, i, suite.tests[i], origin, suffix)
  }

  // ---------- The loops ----------

  method CollectInstances(modules: seq<Module>) returns (r: Option<set<string>>)
    ensures r.Some? <==> ModulesAreValid(modules)
    ensures r.Some? ==> forall id :: id in r.value <==> id in Instances(modules)
  {
    var expected := {};
    for i := 0 to |modules|
      invariant ModulesAreValid(modules[..i])
      invariant forall id :: id in expected <==> id in Instances(modules[..i])
    {
      var m := modules[i];
      ModulesGrow(modules, i);
      if m.name == "" || InstanceOf(m) == "" || m.variant.None? || InstanceOf(m) in expected {
        return None;
      }
      expected := expected + {InstanceOf(m)};
    }
    assert modules[..|modules|] == modules;
    r := Some(expected);
  }

  lemma ModulesGrow(modules: seq<Module>, i: nat)
    requires i < |modules|
    ensures Instances(modules[..i + 1]) == Instances(modules[..i]) + [InstanceOf(modules[i])]
    ensures ModulesAreValid(modules[..i + 1]) <==>
      && ModulesAreValid(modules[..i])
      && modules[i].name != "" && InstanceOf(modules[i]) != "" && modules[i].variant.Some?
      && InstanceOf(modules[i]) !in Instances(modules[..i])
    ensures ModulesAreValid(modules) ==> ModulesAreValid(modules[..i + 1])
  {
    var before, after, all := Instances(modules[..i]), Instances(modules[..i + 1]), Instances(modules);
    assert after == before + [InstanceOf(modules[i])];
    DistinctSnoc(before, InstanceOf(modules[i]));
    assert forall k :: 0 <= k <= i ==> modules[..i + 1][k] == modules[k] && after[k] == all[k];
    assert forall k :: 0 <= k < i ==> modules[..i][k] == modules[..i + 1][k];
    assert modules[..i + 1][i] == modules[i];
  }

  method IndexExports(exports: seq<Export>, origin: Option<string>, baseUrl: string -> Option<string>)
    returns (r: Option<map<string, Export>>)
    requires exports != []
    ensures r.Some? <==> ExportsAreValid(exports, exports[0].version, origin, baseUrl)
    ensures r.Some? ==> forall id :: id in r.value <==> id in ExportIds(exports)
    ensures r.Some? ==> forall id :: id in r.value ==> r.value[id] in exports && r.value[id].instanceId == id
  {
    if origin.None? {
      return None;
    }
    var byInstance: map<string, Export> := map[];
    var version := exports[0].version;
    for i := 0 to |exports|
      invariant ExportsAreValid(exports[..i], version, origin, baseUrl)
      invariant forall id :: id in byInstance <==> id in ExportIds(exports[..i])
      invariant forall id :: id in byInstance ==> byInstance[id] in exports && byInstance[id].instanceId == id
    {
      var x := exports[i];
      ExportsGrow(exports, i, version, origin, baseUrl);
      if x.instanceId == "" || x.instanceId in byInstance || x.version == "" || x.origin == ""
         || x.version != version || baseUrl(x.origin) != origin {
        return None;
      }
      byInstance := byInstance[x.instanceId := x];
    }
    assert exports[..|exports|] == exports;
    r := Some(byInstance);
  }

  lemma ExportsGrow(exports: seq<Export>, i: nat, version: string, origin: Option<string>, baseUrl: string -> Option<string>)
    requires i < |exports| && origin.Some?
    ensures ExportIds(exports[..i + 1]) == ExportIds(exports[..i]) + [exports[i].instanceId]
    ensures ExportsAreValid(exports[..i + 1], version, origin, baseUrl) <==>
      && ExportsAreValid(exports[..i], version, origin, baseUrl)
      && exports[i].instanceId != "" && exports[i].version != "" && exports[i].origin != ""
      && exports[i].version == version && baseUrl(exports[i].origin) == origin
      && exports[i].instanceId !in ExportIds(exports[..i])
    ensures ExportsAreValid(exports, version, origin, baseUrl) ==>
      ExportsAreValid(exports[..i + 1], version, origin, baseUrl)
  {
    var before, after, all := ExportIds(exports[..i]), ExportIds(exports[..i + 1]), ExportIds(exports);
    assert after == before + [exports[i].instanceId];
    DistinctSnoc(before, exports[i].instanceId);
    assert forall k :: 0 <= k <= i ==> exports[..i + 1][k] == exports[k] && after[k] == all[k];
    assert forall k :: 0 <= k < i ==> exports[..i][k] == exports[..i + 1][k];
    assert exports[..i + 1][i] == exports[i];
  }

  lemma RanVariantsIs(ran: Variants, asked: Variants)
    ensures RanVariants(ran, EXPECTED_VARIANTS + asked) <==> RanAsAsked(ran, asked)
  {
    var wanted := EXPECTED_VARIANTS + asked;
    assert forall k :: k in wanted <==> k in asked || k == "server_metadata" || k == "client_registration";
  }

  /** The checks on one export and the test made from it. */
  method ConvertOne(plan: PlanInfo, m: Module, x: Export, origin: string, suffix: Variants -> string) returns (r: Option<Test>)
    requires m.instances != []
    ensures r.Some? <==> ExportMatches(plan, m, x)
    ensures r.Some? ==> Says(r.value, m, x, origin, suffix)
  {
    if x.planId != plan.id || x.testName != m.name || x.variant.None? || m.variant.None? {
      return None;
    }
    RanVariantsIs(x.variant.value, m.variant.value);
    if !RanVariants(x.variant.value, EXPECTED_VARIANTS + m.variant.value) {
      return None;
    }
    var cleanup := DynamicClientCleanup(x.results);
    if cleanup.None? || (cleanup.value.0 == "not_required" && PassedUpstream(x)) {
      return None;
    }
    var (status, attempts) := cleanup.value;
    StatusIs(x, status);
    r := Some(Test(
      TestId(m, suffix), StatusOf(x, status), Is(true), if status == "failed" then Is(false) else Absent,
      InstanceOf(m), x.status, UpstreamResult(x), status, Some(attempts), x.signatureKeyId,
      origin + "log-detail.html?log=" + InstanceOf(m), "", "", "", "", "", ""));
  }

  /** A test is passed only with a pass and a cleanup, failed if it finished otherwise with a known
      result, and an error in all other cases. */
  lemma StatusIs(x: Export, cleanup: string)
    ensures var status := StatusOf(x, cleanup);
      && (status == "passed" <==> FinishedWith(x, "PASSED") && cleanup == "passed")
      && (status == "failed" <==>
            || FinishedWith(x, "FAILED") || FinishedWith(x, "REVIEW") || FinishedWith(x, "WARNING") || FinishedWith(x, "SKIPPED")
            || (FinishedWith(x, "PASSED") && cleanup != "passed"))
      && status in {"passed", "failed", "error"}
  {
  }

  lemma MadeFrom(plan: PlanInfo, exports: seq<Export>, m: Module, x: Export, test: Test, origin: string, suffix: Variants -> string)
    requires x in exports && x.instanceId == InstanceOf(m) && ExportMatches(plan, m, x) && Says(test, m, x, origin, suffix)
    ensures IsTestOf(plan, exports, m, test, origin, suffix)
  {
  }

  /** The export that stands for the module, in its latest instance, matches it. */
  ghost predicate MatchesAt(plan: PlanInfo, byInstance: map<string, Export>, k: nat) {
    && k < |plan.modules| && InstanceOf(plan.modules[k]) in byInstance
    && ExportMatches(plan, plan.modules[k], byInstance[InstanceOf(plan.modules[k])])
  }

  ghost predicate MadeAt(plan: PlanInfo, exports: seq<Export>, k: nat, test: Test, origin: string, suffix: Variants -> string) {
    k < |plan.modules| && IsTestOf(plan, exports, plan.modules[k], test, origin, suffix)
  }

  /** The conversion of the module at one position. */
  method ConvertAt(plan: PlanInfo, exports: seq<Export>, byInstance: map<string, Export>, k: nat, origin: string,
                   suffix: Variants -> string)
    returns (r: Option<Test>)
    requires k < |plan.modules| && plan.modules[k].instances != [] && InstanceOf(plan.modules[k]) in byInstance
    requires forall id :: id in byInstance ==> byInstance[id] in exports && byInstance[id].instanceId == id
    ensures r.Some? <==> MatchesAt(plan, byInstance, k)
    ensures r.Some? ==> MadeAt(plan, exports, k, r.value, origin, suffix)
  {
    var m := plan.modules[k];
    var x := byInstance[InstanceOf(m)];
    r := ConvertOne(plan, m, x, origin, suffix);
    if r.Some? {
      MadeFrom(plan, exports, m, x, r.value, origin, suffix);
    }
  }

  method ConvertTests(plan: PlanInfo, exports: seq<Export>, byInstance: map<string, Export>, origin: string,
                      suffix: Variants -> string)
    returns (r: Option<seq<Test>>)
    requires forall i :: 0 <= i < |plan.modules| ==> plan.modules[i].instances != [] && InstanceOf(plan.modules[i]) in byInstance
    requires forall id :: id in byInstance ==> byInstance[id] in exports && byInstance[id].instanceId == id
    ensures r.Some? <==> forall i :: 0 <= i < |plan.modules| ==> MatchesAt(plan, byInstance, i)
    ensures r.Some? ==> |r.value| == |plan.modules|
    ensures r.Some? ==> forall i :: 0 <= i < |plan.modules| ==> MadeAt(plan, exports, i, r.value[i], origin, suffix)
  {
    var tests := [];
    for i := 0 to |plan.modules|
      invariant |tests| == i
      invariant forall k :: 0 <= k < i ==> MatchesAt(plan, byInstance, k) && MadeAt(plan, exports, k, tests[k], origin, suffix)
    {
      var test := ConvertAt(plan, exports, byInstance, i, origin, suffix);
      if test.None? {
        return None;
      }
      tests := tests + [test.value];
    }
    r := Some(tests);
  }

  method Convert(plan: PlanInfo, exports: seq<Export>, args: Arguments,
                 baseUrl: string -> Option<string>, suffix: Variants -> string)
    returns (r: Option<Suite>)
    ensures r.Some? <==> Convertible(plan, exports, args, baseUrl)
    ensures r.Some? ==> Converts(plan, exports, args, r.value, baseUrl, suffix)
  {
    if plan.name != EXPECTED_PLAN || plan.id == "" || plan.variant != Some(EXPECTED_VARIANTS)
       || plan.modules == [] || exports == [] {
      return None;
    }
    var expected := CollectInstances(plan.modules);
    var byInstance := IndexExports(exports, baseUrl(args.expectedOrigin), baseUrl);
    if expected.None? || byInstance.None? {
      return None;
    }
    SameIdsSameSets(expected.value, byInstance.value, Instances(plan.modules), ExportIds(exports));
    if expected.value != byInstance.value.Keys {
      return None;
    }
    SameIds(plan, exports, expected.value, byInstance.value);
    ConvertibleIffMatching(plan, exports, args, byInstance.value, baseUrl);
    var origin := baseUrl(args.expectedOrigin).value;
    var tests := ConvertTests(plan, exports, byInstance.value, origin, suffix);
    if tests.None? {
      return None;
    }
    r := Some(Suite(
      "oidf-basic-op-code", "oidf-plan", exports[0].version, args.sourceUrl,
      origin + ("plan-detail.html?plan=" + plan.id), true,
      Some(Plan(EXPECTED_PLAN, EXPECTED_VARIANTS, args.runnerRef, args.runnerCommit, Some(args.runnerExitCode),
                origin, true, |plan.modules|)),
      "", "", tests.value));
  }

  lemma SameIdsSameSets(expected: set<string>, byInstance: map<string, Export>, wanted: seq<string>, found: seq<string>)
    requires forall id :: id in expected <==> id in wanted
    requires forall id :: id in byInstance <==> id in found
    ensures (forall id :: id in wanted <==> id in found) ==> expected == byInstance.Keys
  {
    if forall id :: id in wanted <==> id in found {
      assert forall id :: id in expected <==> id in byInstance.Keys;
    }
  }

  lemma SameIds(plan: PlanInfo, exports: seq<Export>, expected: set<string>, byInstance: map<string, Export>)
    requires forall id :: id in expected <==> id in Instances(plan.modules)
    requires forall id :: id in byInstance <==> id in ExportIds(exports)
    requires forall id :: id in byInstance ==> byInstance[id] in exports && byInstance[id].instanceId == id
    requires expected == byInstance.Keys && Distinct(ExportIds(exports))
    ensures forall id :: id in Instances(plan.modules) <==> id in ExportIds(exports)
    ensures forall i :: 0 <= i < |plan.modules| ==> InstanceOf(plan.modules[i]) in byInstance
    ensures forall x :: x in exports ==> x.instanceId in byInstance && byInstance[x.instanceId] == x
  {
    forall i | 0 <= i < |plan.modules|
      ensures InstanceOf(plan.modules[i]) in byInstance
    {
      assert Instances(plan.modules)[i] == InstanceOf(plan.modules[i]);
      assert InstanceOf(plan.modules[i]) in expected;
    }
    forall x | x in exports
      ensures x.instanceId in byInstance && byInstance[x.instanceId] == x
    {
      var i :| 0 <= i < |exports| && exports[i] == x;
      assert ExportIds(exports)[i] == x.instanceId;
      assert x.instanceId in ExportIds(exports);
      var j :| 0 <= j < |exports| && exports[j] == byInstance[x.instanceId];
      assert ExportIds(exports)[j] == x.instanceId;
    }
  }

  lemma ConvertibleIffMatching(plan: PlanInfo, exports: seq<Export>, args: Arguments, byInstance: map<string, Export>,
                               baseUrl: string -> Option<string>)
    requires PlanIsValid(plan) && exports != []
    requires ExportsAreValid(exports, exports[0].version, baseUrl(args.expectedOrigin), baseUrl)
    requires forall id :: id in Instances(plan.modules) <==> id in ExportIds(exports)
    requires forall i :: 0 <= i < |plan.modules| ==> InstanceOf(plan.modules[i]) in byInstance
    requires forall id :: id in byInstance ==> byInstance[id] in exports && byInstance[id].instanceId == id
    requires forall x :: x in exports ==> x.instanceId in byInstance && byInstance[x.instanceId] == x
    ensures Convertible(plan, exports, args, baseUrl) <==> forall i :: 0 <= i < |plan.modules| ==> MatchesAt(plan, byInstance, i)
  {
    if Convertible(plan, exports, args, baseUrl) {
      forall i | 0 <= i < |plan.modules|
        ensures MatchesAt(plan, byInstance, i)
      {
        var x := byInstance[InstanceOf(plan.modules[i])];
        assert x in exports && x.instanceId == InstanceOf(plan.modules[i]);
      }
    }
    if forall i :: 0 <= i < |plan.modules| ==> MatchesAt(plan, byInstance, i) {
      forall i, x | 0 <= i < |plan.modules| && x in exports && x.instanceId == InstanceOf(plan.modules[i])
        ensures ExportMatches(plan, plan.modules[i], x)
      {
        assert MatchesAt(plan, byInstance, i) && byInstance[x.instanceId] == x;
      }
    }
  }

  // ---------- What the gate makes of a converted suite ----------

  /** A test marked as passed ran to a pass upstream and cleaned up, successfully each time. */
  lemma PassedTestsArePassed(plan: PlanInfo, exports: seq<Export>, m: Module, test: Test, origin: string, suffix: Variants -> string)
    requires IsTestOf(plan, exports, m, test, origin, suffix) && test.status == "passed"
    ensures exists x :: x in exports && x.instanceId == InstanceOf(m) && FinishedWith(x, "PASSED") && CleanedUp(x.results)
  {
    var x :| x in exports && x.instanceId == InstanceOf(m) && ExportMatches(plan, m, x) && Says(test, m, x, origin, suffix);
    PassedMeansCleanedUp(x.results);
  }

  /** At least one cleanup reported a result, and every reported result is a success. */
  ghost predicate CleanedUp(results: Option<seq<Option<Entry>>>) {
    && results.Some?
    && var entries := Objects(results.value);
    && (exists e :: e in entries && IsCleanup(e) && e.outcome == Outcome.Text("SUCCESS"))
    && forall e :: e in entries && IsCleanup(e) ==> e.outcome == Missing || e.outcome == Outcome.Text("SUCCESS")
  }

  lemma PassedMeansCleanedUp(results: Option<seq<Option<Entry>>>)
    requires DynamicClientCleanup(results).Some?
    ensures DynamicClientCleanup(results).value.0 == "passed" <==> CleanedUp(results)
  {
    var (status, attempts) := DynamicClientCleanup(results).value;
    CleanupIs(results, status, attempts);
    var entries := Objects(results.value);
    if CleanedUp(results) {
      var e :| e in entries && IsCleanup(e) && e.outcome == Outcome.Text("SUCCESS");
      assert IsReported(e);
      assert forall i :: 0 <= i < |entries| ==> entries[i] in entries;
    }
  }

  /** The policy pins what the converter was told. */
  ghost predicate Pins(policy: SuitePolicy, args: Arguments, origin: string) {
    && policy.OidfPlan?
    && policy.planName == "oidcc-basic-certification-test-plan"
    && policy.variants == map["server_metadata" := "discovery", "client_registration" := "dynamic_client"]
    && policy.runnerRef == args.runnerRef && policy.runnerCommit == args.runnerCommit
    && policy.sourceUrl == args.sourceUrl && policy.exportOrigin == origin
  }

  /** The texts the upstream suite controls and the converter passes on unchecked. */
  predicate TextsAreKnown(t: Test) {
    && !IsBlank(t.instanceId) && !IsBlank(t.upstreamResult) && !IsBlank(t.signatureKeyId)
    && t.upstreamStatus in {Some("FINISHED"), Some("INTERRUPTED"), Some("CONFIGURED"), Some("WAITING"),
                            Some("RUNNING"), Some("UNKNOWN"), None}
  }

  lemma {:induction false} SomeReported(entries: seq<Entry>)
    ensures ReportedCount(entries) > 0 <==> exists e :: e in entries && IsReported(e)
  {
    if entries == [] {
    } else {
      SplitLast(entries);
      SomeReported(entries[..|entries| - 1]);
    }
  }

  lemma CleanupFacts(results: Option<seq<Option<Entry>>>, status: string, attempts: nat)
    requires DynamicClientCleanup(results) == Some((status, attempts))
    ensures status in {"passed", "failed", "not_required"}
    ensures status == "passed" ==> attempts >= 1
    ensures status == "not_required" ==> attempts == 0
  {
    CleanupIs(results, status, attempts);
    SomeReported(Objects(results.value));
  }

  lemma CleanupContract(test: Test, m: Module, x: Export, origin: string, suffix: Variants -> string)
    requires Says(test, m, x, origin, suffix)
    ensures CleanupIsValid(test) <==> test.cleanup != "failed"
  {
    CleanupFacts(x.results, test.cleanup, test.cleanupAttempts.value);
  }

  lemma UpstreamContract(plan: PlanInfo, test: Test, m: Module, x: Export, origin: string, suffix: Variants -> string)
    requires ExportMatches(plan, m, x) && Says(test, m, x, origin, suffix) && IsHttps(origin)
    ensures var passedUpstream := test.upstreamStatus == Some("FINISHED") && test.upstreamResult == "PASSED";
      && (test.cleanup == "not_required" ==> test.status != "passed" && !passedUpstream)
      && (test.status == "passed" ==> passedUpstream)
    ensures IsHttps(test.logUrl)
  {
    assert test.logUrl[..8] == origin[..8];
  }

  lemma TestContract(plan: PlanInfo, exports: seq<Export>, m: Module, test: Test, origin: string, suffix: Variants -> string)
    requires IsTestOf(plan, exports, m, test, origin, suffix) && IsHttps(origin)
    ensures OidfTestIsValid(test) <==> TextsAreKnown(test) && test.cleanup != "failed"
    ensures test.required == Is(true)
    ensures test.cleanup == "failed" <==> test.waivable == Is(false)
  {
    var x :| x in exports && x.instanceId == InstanceOf(m) && ExportMatches(plan, m, x) && Says(test, m, x, origin, suffix);
    CleanupContract(test, m, x, origin, suffix);
    UpstreamContract(plan, test, m, x, origin, suffix);
  }

  /** A converted suite satisfies the gate's contract exactly when the policy pins the same run, no
      cleanup failed, the upstream texts are known, and the runner exited with 0 if all tests passed. */
  lemma ConverterAndGateAgree(plan: PlanInfo, exports: seq<Export>, args: Arguments, suite: Suite,
                              baseUrl: string -> Option<string>, suffix: Variants -> string, policy: SuitePolicy)
    requires Converts(plan, exports, args, suite, baseUrl, suffix)
    requires policy.OidfPlan? && IsHttps(baseUrl(args.expectedOrigin).value)
    ensures SuiteMeetsContract(suite, policy) <==>
      && Pins(policy, args, baseUrl(args.expectedOrigin).value)
      && (forall i :: 0 <= i < |suite.tests| ==> suite.tests[i].cleanup != "failed" && TextsAreKnown(suite.tests[i]))
      && args.runnerExitCode >= 0
      && ((forall i :: 0 <= i < |suite.tests| ==> suite.tests[i].status == "passed") ==> args.runnerExitCode == 0)
  {
    forall i | 0 <= i < |suite.tests|
      ensures OidfTestIsValid(suite.tests[i]) <==> TextsAreKnown(suite.tests[i]) && suite.tests[i].cleanup != "failed"
      ensures suite.tests[i].required == Is(true)
    {
      TestContract(plan, exports, plan.modules[i], suite.tests[i], baseUrl(args.expectedOrigin).value, suffix);
    }
  }

  /** A converted suite passes the whole of the gate's validation exactly when, beyond the contract,
      its version is not blank, its source is an HTTPS address and no two modules print alike. */
  lemma ConvertedSuiteIsValidIff(plan: PlanInfo, exports: seq<Export>, args: Arguments, suite: Suite,
                                 baseUrl: string -> Option<string>, suffix: Variants -> string, policy: SuitePolicy)
    requires Converts(plan, exports, args, suite, baseUrl, suffix)
    requires IsHttps(baseUrl(args.expectedOrigin).value)
    ensures ConformanceInput.SuiteIsValid(suite, policy) <==>
      && SuiteMeetsContract(suite, policy)
      && !IsBlank(exports[0].version) && IsHttps(args.sourceUrl)
      && forall i, j :: 0 <= i < j < |plan.modules| ==> TestId(plan.modules[i], suffix) != TestId(plan.modules[j], suffix)
  {
    ConvertedShapes(plan, exports, args, suite, baseUrl, suffix);
    ConvertedTestsAreValidIff(suite.tests);
    StartsHttps(baseUrl(args.expectedOrigin).value, "plan-detail.html?plan=" + plan.id);
  }

  lemma StartsHttps(origin: string, rest: string)
    requires IsHttps(origin)
    ensures forall s :: s == origin + rest ==> IsHttps(s)
  {
    assert (origin + rest)[..8] == origin[..8];
  }

  lemma ConvertedShapes(plan: PlanInfo, exports: seq<Export>, args: Arguments, suite: Suite,
                        baseUrl: string -> Option<string>, suffix: Variants -> string)
    requires Converts(plan, exports, args, suite, baseUrl, suffix)
    ensures forall i :: 0 <= i < |suite.tests| ==>
      && suite.tests[i].id == TestId(plan.modules[i], suffix) && suite.tests[i].id != ""
      && suite.tests[i].required == Is(true) && !suite.tests[i].waivable.NotBoolean?
      && suite.tests[i].status in {"passed", "failed", "error"}
  {
    forall i | 0 <= i < |suite.tests|
      ensures suite.tests[i].id == TestId(plan.modules[i], suffix) && suite.tests[i].id != ""
      ensures suite.tests[i].required == Is(true) && !suite.tests[i].waivable.NotBoolean?
      ensures suite.tests[i].status in {"passed", "failed", "error"}
    {
      TestShape(plan, exports, plan.modules[i], suite.tests[i], baseUrl(args.expectedOrigin).value, suffix);
    }
  }

  lemma ConvertedTestsAreValidIff(tests: seq<Test>)
    requires tests != []
    requires forall i :: 0 <= i < |tests| ==>
      && tests[i].id != "" && tests[i].required == Is(true) && !tests[i].waivable.NotBoolean?
      && tests[i].status in {"passed", "failed", "error"}
    ensures ConformanceInput.TestsAreValid(tests) <==> forall i, j :: 0 <= i < j < |tests| ==> tests[i].id != tests[j].id
  {
    assert tests[0] in tests && tests[0].required == Is(true);
  }

  lemma TestShape(plan: PlanInfo, exports: seq<Export>, m: Module, test: Test, origin: string, suffix: Variants -> string)
    requires IsTestOf(plan, exports, m, test, origin, suffix) && m.name != ""
    ensures test.id == TestId(m, suffix) && test.id != ""
    ensures test.required == Is(true) && !test.waivable.NotBoolean?
    ensures test.status in {"passed", "failed", "error"}
  {
  }
}
