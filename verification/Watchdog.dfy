/** The watchdog over the scheduled conformance gate. */
module Watchdog {
  import opened ConformanceEvidence
  import opened Lists
  import opened Wrappers

  const SCHEDULE_MAX_INTERVAL_HOURS: int := 30
  const RUNNER_STALL_HOURS: int := 3
  const EXTERNAL_JOB_NAME: string := "OIDC Basic OP and selected RFC 9700"

  /** A time stamp that is missing or malformed is `None`. */
  datatype Run = Run(event: string, id: Option<int>, status: string, conclusion: string,
                     createdAt: Option<int>, updatedAt: Option<int>)

  datatype Job = Job(name: string, status: string, conclusion: string)

  /** List entries that are not objects are `None`. */
  datatype Input = Input(runs: seq<Option<Run>>, jobs: seq<Option<Job>>, version: string, maxAgeHours: int)

  datatype Finding =
    | InvalidVersion
    | NoScheduledRun
    | NoRecentSchedule
    | JobMissing
    | JobSkipped
    | RunnerStalled
    | NoEvidence
    | StaleEvidence

  datatype Failure = BadPolicy | BadTimestamp | ScheduleInFuture | SuccessInFuture

  predicate IsActive(status: string) {
    status in {"queued", "in_progress", "waiting", "pending", "requested"}
  }

  function Scheduled(runs: seq<Option<Run>>): seq<Run> {
    Filter(Objects(runs), (r: Run) => r.event == "schedule")
  }

  predicate AllCreated(runs: seq<Run>) {
    forall i :: 0 <= i < |runs| ==> runs[i].createdAt.Some?
  }

  predicate AllUpdated(runs: seq<Run>) {
    forall i :: 0 <= i < |runs| ==> runs[i].updatedAt.Some?
  }

  /** The first run with the greatest creation time. */
  function LatestCreated(runs: seq<Run>): (r: Run)
    requires runs != [] && AllCreated(runs)
    ensures r in runs && r.createdAt.Some?
    ensures forall x :: x in runs ==> x.createdAt.value <= r.createdAt.value
  {
    var last := runs[|runs| - 1];
    if |runs| == 1 then last
    else
      var r := LatestCreated(runs[..|runs| - 1]);
      if last.createdAt.value > r.createdAt.value then last else r
  }

  /** The greatest update time. */
  function LatestUpdate(runs: seq<Run>): (t: int)
    requires runs != [] && AllUpdated(runs)
    ensures exists x :: x in runs && x.updatedAt.value == t
    ensures forall x :: x in runs ==> x.updatedAt.value <= t
  {
    var times := seq(|runs|, i requires 0 <= i < |runs| => runs[i].updatedAt.value);
    var k := ArgMax(times);
    assert runs[k] in runs && forall i :: 0 <= i < |runs| ==> runs[i].updatedAt.value == times[i];
    times[k]
  }

  /** The one job of the required name, if there is exactly one. */
  function ExpectedJob(jobs: seq<Option<Job>>): Option<Job> {
    var named := Filter(Objects(jobs), (j: Job) => j.name == EXTERNAL_JOB_NAME);
    if |named| == 1 then Some(named[0]) else None
  }

  // ---------- What each finding means ----------

  predicate Stalled(latest: Run, job: Option<Job>, now: int)
    requires latest.createdAt.Some?
  {
    && (IsActive(latest.status) || (job.Some? && IsActive(job.value.status)))
    && now - latest.createdAt.value >= RUNNER_STALL_HOURS * HOUR
  }

  /** Even if marked successful, the latest run is no evidence. */
  predicate Excluded(latest: Run, job: Option<Job>, now: int)
    requires latest.createdAt.Some?
  {
    || (latest.status == "completed" && (job.None? || job.value.conclusion != "success"))
    || Stalled(latest, job, now)
  }

  /** The scheduled runs that count as evidence. */
  function SuccessfulRuns(scheduled: seq<Run>, excluded: bool, latestId: Option<int>): seq<Run> {
    Filter(scheduled, (r: Run) =>
      r.status == "completed" && r.conclusion == "success" && !(excluded && r.id == latestId))
  }

  ghost predicate LatestHolds(f: Finding, latest: Run, job: Option<Job>, now: int)
    requires latest.createdAt.Some?
  {
    match f
    case NoRecentSchedule => now - latest.createdAt.value >= SCHEDULE_MAX_INTERVAL_HOURS * HOUR
    case JobMissing => latest.status == "completed" && job.None?
    case JobSkipped => latest.status == "completed" && job.Some? && job.value.conclusion == "skipped"
    case RunnerStalled => Stalled(latest, job, now)
    case _ => false
  }

  ghost predicate Holds(f: Finding, input: Input, now: int)
    requires AllCreated(Scheduled(input.runs))
  {
    var scheduled := Scheduled(input.runs);
    if f.InvalidVersion? then !IsCommit(input.version)
    else if f.NoScheduledRun? then scheduled == []
    else if scheduled == [] then f.NoEvidence?
    else
      var latest, job := LatestCreated(scheduled), ExpectedJob(input.jobs);
      var evidence := SuccessfulRuns(scheduled, Excluded(latest, job, now), latest.id);
      match f
      case NoEvidence => evidence == []
      case StaleEvidence =>
        evidence != [] && AllUpdated(evidence) && now - LatestUpdate(evidence) >= input.maxAgeHours * HOUR
      case _ => LatestHolds(f, latest, job, now)
  }

  /** The inputs the watchdog refuses to judge at time `now`. */
  ghost predicate Fails(input: Input, now: int) {
    || input.maxAgeHours <= 0
    || (var scheduled := Scheduled(input.runs);
        scheduled != []
        && (!AllCreated(scheduled)
            || (var latest := LatestCreated(scheduled);
                var evidence := SuccessfulRuns(scheduled, Excluded(latest, ExpectedJob(input.jobs), now), latest.id);
                || latest.createdAt.value > now
                || (evidence != [] && (!AllUpdated(evidence) || LatestUpdate(evidence) > now)))))
  }

  /** What a report promises: it fails on exactly those inputs, and otherwise lists exactly the
      findings that hold, each once. */
  ghost predicate Reports(input: Input, now: int, r: Result<seq<Finding>, Failure>) {
    && (r.Err? <==> Fails(input, now))
    && (r.Ok? ==>
          && AllCreated(Scheduled(input.runs))
          && Distinct(r.value)
          && forall f :: f in r.value <==> Holds(f, input, now))
  }

  method ContinuousGateFindings(input: Input, now: int) returns (r: Result<seq<Finding>, Failure>)
    ensures Reports(input, now, r)
  {
    if input.maxAgeHours <= 0 {
      return Err(BadPolicy);
    }
    var findings := [];
    if !IsCommit(input.version) {
      findings := findings + [InvalidVersion];
    }
    var scheduled := Scheduled(input.runs);
    if scheduled == [] {
      return Ok(findings + [NoScheduledRun, NoEvidence]);
    }
    if !AllCreated(scheduled) {
      return Err(BadTimestamp);
    }
    var latest := LatestCreated(scheduled);
    if latest.createdAt.value > now {
      return Err(ScheduleInFuture);
    }
    var latestFindings, excludeLatestSuccess := JudgeLatest(latest, ExpectedJob(input.jobs), now);
    var successful := SuccessfulRuns(scheduled, excludeLatestSuccess, latest.id);
    var evidenceFindings := JudgeEvidence(successful, input.maxAgeHours, now);
    if evidenceFindings.Err? {
      return Err(evidenceFindings.error);
    }
    EvidenceIsListed(input, now, evidenceFindings.value);
    ListsWhatHolds(input, now, findings, latestFindings, evidenceFindings.value);
    return Ok(findings + latestFindings + evidenceFindings.value);
  }

  /** The part of the judgement that looks at the successful runs. */
  method JudgeEvidence(successful: seq<Run>, maxAgeHours: int, now: int) returns (r: Result<seq<Finding>, Failure>)
    ensures r.Err? <==> successful != [] && (!AllUpdated(successful) || LatestUpdate(successful) > now)
    ensures r.Ok? && successful == [] ==> r.value == [NoEvidence]
    ensures r.Ok? && successful != [] ==>
      r.value == if now - LatestUpdate(successful) >= maxAgeHours * HOUR then [StaleEvidence] else []
  {
    if successful == [] {
      return Ok([NoEvidence]);
    }
    if !AllUpdated(successful) {
      return Err(BadTimestamp);
    }
    var latest := LatestUpdate(successful);
    if latest > now {
      return Err(SuccessInFuture);
    }
    return Ok(if now - latest >= maxAgeHours * HOUR then [StaleEvidence] else []);
  }

  lemma EvidenceIsListed(input: Input, now: int, evidence: seq<Finding>)
    requires !Fails(input, now) && Scheduled(input.runs) != []
    requires var scheduled := Scheduled(input.runs);
      var latest := LatestCreated(scheduled);
      var successful := SuccessfulRuns(scheduled, Excluded(latest, ExpectedJob(input.jobs), now), latest.id);
      evidence == if successful == [] then [NoEvidence]
                  else if now - LatestUpdate(successful) >= input.maxAgeHours * HOUR then [StaleEvidence] else []
    ensures Distinct(evidence)
    ensures forall f :: f in evidence <==> (f.NoEvidence? || f.StaleEvidence?) && Holds(f, input, now)
  {
    var missing, stale := Holds(NoEvidence, input, now), Holds(StaleEvidence, input, now);
    assert evidence == if missing then [NoEvidence] else if stale then [StaleEvidence] else [];
    assert !(missing && stale);
  }

  lemma HoldsByKind(input: Input, now: int, f: Finding)
    requires Scheduled(input.runs) != [] && AllCreated(Scheduled(input.runs))
    ensures Holds(f, input, now) <==>
      || (f.InvalidVersion? && !IsCommit(input.version))
      || LatestHolds(f, LatestCreated(Scheduled(input.runs)), ExpectedJob(input.jobs), now)
      || ((f.NoEvidence? || f.StaleEvidence?) && Holds(f, input, now))
  {
  }

  lemma ThreeParts(a: seq<Finding>, b: seq<Finding>, c: seq<Finding>)
    requires Distinct(a) && Distinct(b) && Distinct(c)
    requires forall f :: f in a ==> f !in b && f !in c
    requires forall f :: f in b ==> f !in c
    ensures Distinct(a + b + c) && forall f :: f in a + b + c <==> f in a || f in b || f in c
  {
    assert forall i :: 0 <= i < |a| ==> a[i] in a;
    assert forall i :: 0 <= i < |b| ==> b[i] in b;
    DistinctConcat(a, b);
    assert forall i :: 0 <= i < |a + b| ==> (a + b)[i] in a || (a + b)[i] in b;
    DistinctConcat(a + b, c);
  }

  lemma ListsWhatHolds(input: Input, now: int, version: seq<Finding>, latest: seq<Finding>, evidence: seq<Finding>)
    requires !Fails(input, now) && Scheduled(input.runs) != []
    requires version == if IsCommit(input.version) then [] else [InvalidVersion]
    requires Distinct(latest)
    requires forall f :: f in latest <==>
      LatestHolds(f, LatestCreated(Scheduled(input.runs)), ExpectedJob(input.jobs), now)
    requires Distinct(evidence)
    requires forall f :: f in evidence <==> (f.NoEvidence? || f.StaleEvidence?) && Holds(f, input, now)
    ensures Reports(input, now, Ok(version + latest + evidence))
  {
    ThreeParts(version, latest, evidence);
    forall f
      ensures f in version + latest + evidence <==> Holds(f, input, now)
    {
      HoldsByKind(input, now, f);
    }
  }

  /** The part of the judgement that looks at the latest scheduled run and its job. */
  method JudgeLatest(latest: Run, job: Option<Job>, now: int) returns (findings: seq<Finding>, exclude: bool)
    requires latest.createdAt.Some?
    ensures Distinct(findings)
    ensures forall f :: f in findings <==> LatestHolds(f, latest, job, now)
    ensures exclude == Excluded(latest, job, now)
  {
    findings, exclude := [], false;
    if now - latest.createdAt.value >= SCHEDULE_MAX_INTERVAL_HOURS * HOUR {
      findings := findings + [NoRecentSchedule];
    }
    if latest.status == "completed" {
      if job.None? {
        findings := findings + [JobMissing];
        exclude := true;
      } else if job.value.conclusion == "skipped" {
        findings := findings + [JobSkipped];
        exclude := true;
      } else if job.value.conclusion != "success" {
        exclude := true;
      }
    }
    if (IsActive(latest.status) || (job.Some? && IsActive(job.value.status)))
       && now - latest.createdAt.value >= RUNNER_STALL_HOURS * HOUR {
      findings := findings + [RunnerStalled];
      exclude := true;
    }
  }

  // ---------- Waiting never clears an alarm ----------

  lemma EvidenceShrinks(scheduled: seq<Run>, before: bool, after: bool, latestId: Option<int>)
    requires before ==> after
    ensures forall x :: x in SuccessfulRuns(scheduled, after, latestId) ==> x in SuccessfulRuns(scheduled, before, latestId)
  {
  }

  lemma AlarmPersists(input: Input, t: int, t': int,
                      r: Result<seq<Finding>, Failure>, r': Result<seq<Finding>, Failure>)
    requires t <= t' && Reports(input, t, r) && Reports(input, t', r')
    requires r.Ok? && r.value != []
    ensures r'.Ok? && r'.value != []
  {
    var f := r.value[0];
    assert f in r.value;
    var scheduled := Scheduled(input.runs);
    if scheduled == [] {
      assert Holds(NoScheduledRun, input, t');
    } else {
      LateReport(input, t, t');
      var f' := LateFinding(input, t, t', f);
      assert f' in r'.value;
    }
  }

  lemma LateReport(input: Input, t: int, t': int)
    requires t <= t' && !Fails(input, t) && Scheduled(input.runs) != []
    ensures !Fails(input, t')
  {
    var scheduled := Scheduled(input.runs);
    var latest, job := LatestCreated(scheduled), ExpectedJob(input.jobs);
    var before := SuccessfulRuns(scheduled, Excluded(latest, job, t), latest.id);
    var after := SuccessfulRuns(scheduled, Excluded(latest, job, t'), latest.id);
    EvidenceShrinks(scheduled, Excluded(latest, job, t), Excluded(latest, job, t'), latest.id);
    if after != [] {
      assert after[0] in before;
      SubsetUpdates(before, after);
    }
  }

  lemma SubsetUpdates(before: seq<Run>, after: seq<Run>)
    requires before != [] && after != [] && AllUpdated(before)
    requires forall x :: x in after ==> x in before
    ensures AllUpdated(after) && LatestUpdate(after) <= LatestUpdate(before)
  {
    assert forall i :: 0 <= i < |after| ==> after[i] in before;
  }

  lemma LateFinding(input: Input, t: int, t': int, f: Finding) returns (f': Finding)
    requires t <= t' && !Fails(input, t) && Scheduled(input.runs) != [] && Holds(f, input, t)
    ensures Holds(f', input, t')
  {
    f' := f;
    if f.NoEvidence? || f.StaleEvidence? {
      var scheduled := Scheduled(input.runs);
      var latest, job := LatestCreated(scheduled), ExpectedJob(input.jobs);
      var before := SuccessfulRuns(scheduled, Excluded(latest, job, t), latest.id);
      var after := SuccessfulRuns(scheduled, Excluded(latest, job, t'), latest.id);
      EvidenceShrinks(scheduled, Excluded(latest, job, t), Excluded(latest, job, t'), latest.id);
      if after == [] {
        f' := NoEvidence;
      } else {
        assert after[0] in before;
        SubsetUpdates(before, after);
      }
    }
  }

  lemma NothingListed(findings: seq<Finding>)
    ensures findings == [] <==> forall f :: f !in findings
  {
    if findings != [] {
      assert findings[0] in findings;
    }
  }
}
