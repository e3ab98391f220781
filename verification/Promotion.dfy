/** The check before a promotion, and its agreement with the gate that wrote the approved claims. */
module Promotion {
  import opened ConformanceEvidence
  import opened ConformanceGate
  import opened ConformanceInput
  import opened Lists
  import opened PythonText
  import opened Wrappers

  datatype Request = Request(expectedIssuer: string, expectedVersion: string, requiredClaims: set<Claim>)

  // ---------- What may be promoted ----------

  /** What promotion demands of the files and the request. `isHttpsIssuer` stands for the URL
      library's verdict. */
  ghost predicate FilesFit(evidence: Evidence, policy: Policy, request: Request, isHttpsIssuer: string -> bool) {
    var issuer := StripSlashes(request.expectedIssuer);
    && policy.schemaVersion == 1 && evidence.schemaVersion == 1
    && isHttpsIssuer(request.expectedIssuer) && IsCommit(request.expectedVersion)
    && evidence.deployment == map["issuer" := issuer, "version" := request.expectedVersion]
    && PreflightsBind(evidence.preflights, issuer, request.expectedVersion)
    && StringArray(evidence.requestedClaims) && StringArray(policy.allowedClaims)
    && StringArray(policy.requiredClaims) && StringArray(policy.explicitNonClaims)
    && (forall c :: c in policy.requiredClaims || c in request.requiredClaims ==> c in evidence.requestedClaims)
    && (forall c :: c in evidence.requestedClaims ==> c in policy.allowedClaims && c !in policy.explicitNonClaims)
  }

  /** The document is the very one a passing gate writes for these two files, the evidence is not too
      old, and the files fit the request. */
  ghost predicate MayBePromoted(approved: ApprovedClaims, evidence: File<Evidence>, policy: File<Policy>,
                                request: Request, now: int,
                                sha256: seq<int> -> string, isHttpsIssuer: string -> bool) {
    && evidence.content.generatedAt.Some?
    && approved == Document(evidence, policy, approved.approvedAt, sha256)
    && evidence.content.generatedAt.value <= approved.approvedAt <= now
    && now < evidence.content.generatedAt.value + policy.content.maxEvidenceAgeHours * HOUR
    && FilesFit(evidence.content, policy.content, request, isHttpsIssuer)
  }

  method RequireStringArray(value: seq<Claim>) returns (ok: bool)
    ensures ok <==> StringArray(value)
  {
    StringArrayIs(value);
    var texts := AreNonEmptyTexts(value);
    ok := texts && |value| == |SetOf(value)|;
  }

  method RequireStringArrays(values: seq<seq<Claim>>) returns (ok: bool)
    ensures ok <==> forall i :: 0 <= i < |values| ==> StringArray(values[i])
  {
    for i := 0 to |values|
      invariant forall k :: 0 <= k < i ==> StringArray(values[k])
    {
      var valid := RequireStringArray(values[i]);
      if !valid {
        return false;
      }
    }
    ok := true;
  }

  /** The claims part of the checks. */
  method ValidateClaimLists(approved: ApprovedClaims, e: Evidence, p: Policy, request: Request) returns (ok: bool)
    ensures ok <==>
      && approved.approvedProfileClaims == e.requestedClaims && approved.explicitNonClaims == p.explicitNonClaims
      && StringArray(e.requestedClaims) && StringArray(p.allowedClaims)
      && StringArray(p.requiredClaims) && StringArray(p.explicitNonClaims)
      && (forall c :: c in p.requiredClaims || c in request.requiredClaims ==> c in e.requestedClaims)
      && (forall c :: c in e.requestedClaims ==> c in p.allowedClaims && c !in p.explicitNonClaims)
  {
    var lists := [approved.approvedProfileClaims, e.requestedClaims, p.allowedClaims, p.requiredClaims];
    var valid := RequireStringArrays(lists);
    assert valid ==> StringArray(lists[0]) && StringArray(lists[1]) && StringArray(lists[2]) && StringArray(lists[3]);
    if !valid {
      return false;
    }
    if approved.approvedProfileClaims != e.requestedClaims {
      return false;
    }
    var profiles := SetOf(approved.approvedProfileClaims);
    SetsCompare(p.requiredClaims, e.requestedClaims);
    SetsCompare(e.requestedClaims, p.allowedClaims);
    if !(SetOf(p.requiredClaims) <= profiles <= SetOf(p.allowedClaims)) {
      return false;
    }
    if !(request.requiredClaims <= profiles) {
      return false;
    }
    var disclaimed := [approved.explicitNonClaims, p.explicitNonClaims];
    valid := RequireStringArrays(disclaimed);
    assert valid ==> StringArray(disclaimed[0]) && StringArray(disclaimed[1]);
    if !valid || approved.explicitNonClaims != p.explicitNonClaims {
      return false;
    }
    SetsCompare(e.requestedClaims, p.explicitNonClaims);
    ok := profiles !! SetOf(approved.explicitNonClaims);
  }

  /** The checks in the script's order. */
  method ValidatePromotion(approved: ApprovedClaims, evidence: File<Evidence>, policy: File<Policy>, request: Request,
                           now: int, sha256: seq<int> -> string, isHttpsIssuer: string -> bool)
    returns (ok: bool)
    ensures ok <==> MayBePromoted(approved, evidence, policy, request, now, sha256, isHttpsIssuer)
  {
    var e, p := evidence.content, policy.content;
    if approved.schemaVersion != 2 || p.schemaVersion != 1 || e.schemaVersion != 1 {
      return false;
    }
    if approved.policyVersion != p.policyVersion || approved.policySha256 != sha256(policy.raw) {
      return false;
    }
    if !isHttpsIssuer(request.expectedIssuer) || !IsCommit(request.expectedVersion) {
      return false;
    }
    var issuer := StripSlashes(request.expectedIssuer);
    if approved.evidenceSha256 != sha256(evidence.raw) {
      return false;
    }
    if approved.deployment.Keys != {"issuer", "version"} || e.deployment != approved.deployment {
      return false;
    }
    if approved.deployment["issuer"] != issuer || approved.deployment["version"] != request.expectedVersion {
      return false;
    }
    assert e.deployment == map["issuer" := issuer, "version" := request.expectedVersion];
    var bound := ValidatePreflights(e.preflights, issuer, request.expectedVersion);
    if !bound || e.generatedAt.None? {
      return false;
    }
    if e.generatedAt.value > approved.approvedAt || approved.approvedAt > now || now >= approved.validUntil {
      return false;
    }
    if approved.validUntil != e.generatedAt.value + p.maxEvidenceAgeHours * HOUR {
      return false;
    }
    ok := ValidateClaimLists(approved, e, p, request);
  }

  // ---------- Gate and promotion ----------

  /** What promotion demands of policy, deployment and request beyond what the gate checked. */
  ghost predicate Promotable(evidence: Evidence, policy: Policy, args: Arguments, request: Request,
                             isHttpsIssuer: string -> bool) {
    && StringArray(policy.allowedClaims) && StringArray(policy.requiredClaims)
    && evidence.deployment.Keys == {"issuer", "version"}
    && isHttpsIssuer(request.expectedIssuer) && IsCommit(request.expectedVersion)
    && StripSlashes(request.expectedIssuer) == StripSlashes(args.expectedIssuer)
    && request.expectedVersion == args.expectedVersion
    && forall c :: c in request.requiredClaims ==> c in evidence.requestedClaims
  }

  /** The document a passing gate wrote at `approvedAt` is accepted, with the same two files, at
      exactly the times from then until the evidence is too old. */
  lemma GateAndPromotionAgree(evidence: File<Evidence>, policy: File<Policy>, args: Arguments, approvedAt: int,
                              request: Request, now: int, sha256: seq<int> -> string, isHttpsIssuer: string -> bool)
    requires ShouldPass(evidence.content, policy.content, args, approvedAt)
    ensures MayBePromoted(Document(evidence, policy, approvedAt, sha256), evidence, policy, request, now, sha256, isHttpsIssuer)
      <==>
      && Promotable(evidence.content, policy.content, args, request, isHttpsIssuer)
      && approvedAt <= now < evidence.content.generatedAt.value + policy.content.maxEvidenceAgeHours * HOUR
  {
    var deployment := evidence.content.deployment;
    if deployment.Keys == {"issuer", "version"} {
      assert deployment == map["issuer" := deployment["issuer"], "version" := deployment["version"]];
    }
    if Promotable(evidence.content, policy.content, args, request, isHttpsIssuer) {
      assert deployment == map["issuer" := StripSlashes(request.expectedIssuer), "version" := request.expectedVersion];
    }
  }

  /** With a digest that has no collisions, an approval accepted for one pair of files is accepted
      for no other evidence bytes and no other policy bytes. */
  lemma ApprovalBindsTheFiles(approved: ApprovedClaims, e1: File<Evidence>, p1: File<Policy>,
                              e2: File<Evidence>, p2: File<Policy>, request: Request, now: int,
                              sha256: seq<int> -> string, isHttpsIssuer: string -> bool)
    requires forall x, y :: sha256(x) == sha256(y) ==> x == y
    requires MayBePromoted(approved, e1, p1, request, now, sha256, isHttpsIssuer)
    requires MayBePromoted(approved, e2, p2, request, now, sha256, isHttpsIssuer)
    ensures e1.raw == e2.raw && p1.raw == p2.raw
  {
    assert sha256(e1.raw) == sha256(e2.raw) && sha256(p1.raw) == sha256(p2.raw);
  }
}
