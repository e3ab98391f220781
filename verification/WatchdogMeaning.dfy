/** What the findings of the watchdog say about the runs and jobs it was given. */
module WatchdogMeaning {
  import opened ConformanceEvidence
  import opened Lists
  import opened Watchdog
  import opened Wrappers

  const HOUR_IN_MICROSECONDS: int := 60 * 60 * 1_000_000

  // ---------- Runs and jobs ----------

  ghost predicate IsScheduled(input: Input, r: Run) {
    Some(r) in input.runs && r.event == "schedule"
  }

  /** The scheduled run at `k` was created last, and before no other run created at that time. */
  ghost predicate IsLatestAt(runs: seq<Run>, k: nat) {
    && k < |runs| && runs[k].event == "schedule" && runs[k].createdAt.Some?
    && forall j :: 0 <= j < |runs| && runs[j].event == "schedule" ==>
         && runs[j].createdAt.Some? && runs[j].createdAt.value <= runs[k].createdAt.value
         && (j < k ==> runs[j].createdAt.value < runs[k].createdAt.value)
  }

  ghost predicate IsLatest(input: Input, r: Run) {
    exists k :: 0 <= k < |Objects(input.runs)| && IsLatestAt(Objects(input.runs), k) && Objects(input.runs)[k] == r
  }

  ghost predicate IsTheJobAt(jobs: seq<Job>, k: nat) {
    && k < |jobs| && jobs[k].name == "OIDC Basic OP and selected RFC 9700"
    && forall j :: 0 <= j < |jobs| && jobs[j].name == "OIDC Basic OP and selected RFC 9700" ==> j == k
  }

  /** The one job of the required name, if there is exactly one. */
  ghost predicate IsTheJob(input: Input, job: Job) {
    exists k :: 0 <= k < |Objects(input.jobs)| && IsTheJobAt(Objects(input.jobs), k) && Objects(input.jobs)[k] == job
  }

  ghost predicate IsWaiting(status: string) {
    || status == "queued" || status == "in_progress" || status == "waiting"
    || status == "pending" || status == "requested"
  }

  /** The latest run, or its job, has not finished in three hours. */
  ghost predicate IsStuck(input: Input, latest: Run, now: int)
    requires latest.createdAt.Some?
  {
    && now - latest.createdAt.value >= 3 * HOUR_IN_MICROSECONDS
    && (IsWaiting(latest.status) || exists job :: IsTheJob(input, job) && IsWaiting(job.status))
  }

  /** The latest run is no evidence, whatever its conclusion: it is stuck, or it completed without a
      success of the required job. */
  ghost predicate IsDiscounted(input: Input, latest: Run, now: int)
    requires latest.createdAt.Some?
  {
    || IsStuck(input, latest, now)
    || (latest.status == "completed" && !exists job :: IsTheJob(input, job) && job.conclusion == "success")
  }

  /** A scheduled run that completed with success, and is not the discounted latest one. */
  ghost predicate IsSuccess(input: Input, r: Run, now: int) {
    && IsScheduled(input, r) && r.status == "completed" && r.conclusion == "success"
    && forall latest :: IsLatest(input, latest) && latest.id == r.id ==> !IsDiscounted(input, latest, now)
  }

  // ---------- Findings ----------

  ghost predicate Means(f: Finding, input: Input, now: int) {
    match f
    case InvalidVersion => !IsCommit(input.version)
    case NoScheduledRun => forall r :: !IsScheduled(input, r)
    case NoRecentSchedule =>
      exists r :: IsLatest(input, r) && now - r.createdAt.value >= 30 * HOUR_IN_MICROSECONDS
    case JobMissing =>
      (exists r :: IsLatest(input, r) && r.status == "completed") && forall job :: !IsTheJob(input, job)
    case JobSkipped =>
      (exists r :: IsLatest(input, r) && r.status == "completed") && exists job :: IsTheJob(input, job) && job.conclusion == "skipped"
    case RunnerStalled => exists r :: IsLatest(input, r) && IsStuck(input, r, now)
    case NoEvidence => forall r :: !IsSuccess(input, r, now)
    case StaleEvidence =>
      && (exists r :: IsSuccess(input, r, now))
      && forall r :: IsSuccess(input, r, now) ==>
           r.updatedAt.Some? && now - r.updatedAt.value >= input.maxAgeHours * HOUR_IN_MICROSECONDS
  }

  /** The policy, a time stamp that the judgement needs, or the clock is out of order. */
  ghost predicate IsRefused(input: Input, now: int) {
    || input.maxAgeHours <= 0
    || (exists r :: IsScheduled(input, r) && r.createdAt.None?)
    || (exists r :: IsLatest(input, r) && r.createdAt.value > now)
    || (exists r :: IsSuccess(input, r, now) && (r.updatedAt.None? || r.updatedAt.value > now))
  }

  // ---------- The code's terms mean the same ----------

  lemma ScheduledAre(input: Input)
    ensures forall r :: r in Scheduled(input.runs) <==> IsScheduled(input, r)
  {
    ObjectsAre(input.runs);
  }

  lemma LatestOfMore(before: seq<Run>, last: Run)
    requires AllCreated(before + [last])
    ensures AllCreated(before)
    ensures LatestCreated(before + [last]) ==
      if before == [] || last.createdAt.value > LatestCreated(before).createdAt.value then last else LatestCreated(before)
  {
    assert (before + [last])[..|before|] == before && (before + [last])[|before|] == last;
    assert forall i :: 0 <= i < |before| ==> (before + [last])[i] == before[i];
  }

  function IsSchedule(): Run -> bool {
    (r: Run) => r.event == "schedule"
  }

  lemma LatestStays(front: seq<Run>, last: Run, k: nat)
    requires IsLatestAt(front, k)
    requires last.event == "schedule" ==> last.createdAt.Some? && last.createdAt.value <= front[k].createdAt.value
    ensures IsLatestAt(front + [last], k)
  {
    var runs := front + [last];
    assert forall j :: 0 <= j < |front| ==> runs[j] == front[j];
  }

  lemma LatestTakesOver(front: seq<Run>, last: Run)
    requires last.event == "schedule" && last.createdAt.Some?
    requires forall j :: 0 <= j < |front| && front[j].event == "schedule" ==>
      front[j].createdAt.Some? && front[j].createdAt.value < last.createdAt.value
    ensures IsLatestAt(front + [last], |front|)
  {
    var runs := front + [last];
    assert forall j :: 0 <= j < |front| ==> runs[j] == front[j];
  }

  lemma NoneScheduled(runs: seq<Run>)
    requires Filter(runs, IsSchedule()) == []
    ensures forall j :: 0 <= j < |runs| ==> runs[j].event != "schedule"
  {
    NoMembers(Filter(runs, IsSchedule()));
    assert forall j :: 0 <= j < |runs| ==> runs[j] in runs;
  }

  lemma LaterWins(front: seq<Run>, last: Run, before: seq<Run>, n: nat) returns (k: nat)
    requires last.event == "schedule" && before != [] && AllCreated(before + [last])
    requires AllCreated(before) && IsLatestAt(front, n) && front[n] == LatestCreated(before)
    ensures k <= |front| && IsLatestAt(front + [last], k) && (front + [last])[k] == LatestCreated(before + [last])
  {
    LatestOfMore(before, last);
    assert (before + [last])[|before|] == last;
    if last.createdAt.value <= front[n].createdAt.value {
      LatestStays(front, last, n);
      k := n;
    } else {
      LatestTakesOver(front, last);
      k := |front|;
    }
  }

  lemma {:induction false} LatestIsFound(runs: seq<Run>) returns (k: nat)
    requires Filter(runs, IsSchedule()) != [] && AllCreated(Filter(runs, IsSchedule()))
    ensures IsLatestAt(runs, k) && runs[k] == LatestCreated(Filter(runs, IsSchedule()))
    decreases |runs|
  {
    var front, last := runs[..|runs| - 1], runs[|runs| - 1];
    var before := Filter(front, IsSchedule());
    SplitLast(runs);
    FilterSnoc(front, last, IsSchedule());
    if last.event != "schedule" {
      assert before + [] == before;
      k := LatestIsFound(front);
      LatestStays(front, last, k);
    } else if before == [] {
      NoneScheduled(front);
      assert [] + [last] == [last] && [last][0] == last;
      LatestTakesOver(front, last);
      k := |front|;
    } else {
      LatestOfMore(before, last);
      var n := LatestIsFound(front);
      k := LaterWins(front, last, before, n);
    }
  }

  lemma OneLatest(runs: seq<Run>, k: nat, n: nat)
    requires IsLatestAt(runs, k) && IsLatestAt(runs, n)
    ensures k == n
  {
  }

  lemma ScheduledIs(runs: seq<Option<Run>>)
    ensures Scheduled(runs) == Filter(Objects(runs), IsSchedule())
  {
    SameFilter(Objects(runs), (r: Run) => r.event == "schedule", IsSchedule());
  }

  lemma {:induction false} SameFilter<T(!new)>(s: seq<T>, p: T -> bool, q: T -> bool)
    requires forall x :: p(x) == q(x)
    ensures Filter(s, p) == Filter(s, q)
  {
    if s == [] {
    } else {
      SameFilter(s[1..], p, q);
    }
  }

  /** The code's latest run is the latest run. */
  lemma LatestIs(input: Input)
    requires Scheduled(input.runs) != [] && AllCreated(Scheduled(input.runs))
    ensures forall r :: IsLatest(input, r) <==> r == LatestCreated(Scheduled(input.runs))
  {
    ScheduledIs(input.runs);
    var runs := Objects(input.runs);
    var k := LatestIsFound(runs);
    forall r | IsLatest(input, r)
      ensures r == runs[k]
    {
      var n :| 0 <= n < |runs| && IsLatestAt(runs, n) && runs[n] == r;
      OneLatest(runs, k, n);
    }
  }

  function IsExternal(): Job -> bool {
    (j: Job) => j.name == EXTERNAL_JOB_NAME
  }

  /** The code's expected job is the one job of the required name. */
  lemma JobIs(input: Input, job: Job)
    ensures ExpectedJob(input.jobs) == Some(job) <==> IsTheJob(input, job)
  {
    var jobs := Objects(input.jobs);
    SameFilter(jobs, (j: Job) => j.name == EXTERNAL_JOB_NAME, IsExternal());
    if ExpectedJob(input.jobs) == Some(job) {
      var k := FindOnly(jobs, IsExternal());
      assert IsTheJobAt(jobs, k);
    }
    if k :| 0 <= k < |jobs| && IsTheJobAt(jobs, k) && jobs[k] == job {
      assert Only(jobs, IsExternal(), k);
      OnlyIsFound(jobs, IsExternal(), k);
    }
  }

  lemma JobsAre(input: Input)
    ensures forall job :: ExpectedJob(input.jobs) == Some(job) <==> IsTheJob(input, job)
  {
    forall job
      ensures ExpectedJob(input.jobs) == Some(job) <==> IsTheJob(input, job)
    {
      JobIs(input, job);
    }
  }

  lemma StuckIs(input: Input, latest: Run, now: int)
    requires latest.createdAt.Some?
    ensures Stalled(latest, ExpectedJob(input.jobs), now) <==> IsStuck(input, latest, now)
    ensures Excluded(latest, ExpectedJob(input.jobs), now) <==> IsDiscounted(input, latest, now)
  {
    JobsAre(input);
    var job := ExpectedJob(input.jobs);
    assert job.Some? ==> IsTheJob(input, job.value);
  }

  /** The code's list of successes holds exactly the successful scheduled runs that count. */
  lemma SuccessesAre(input: Input, now: int)
    requires Scheduled(input.runs) != [] && AllCreated(Scheduled(input.runs))
    ensures var latest := LatestCreated(Scheduled(input.runs));
      forall r :: r in SuccessfulRuns(Scheduled(input.runs), Excluded(latest, ExpectedJob(input.jobs), now), latest.id) <==>
        IsSuccess(input, r, now)
  {
    var latest := LatestCreated(Scheduled(input.runs));
    ScheduledAre(input);
    LatestIs(input);
    StuckIs(input, latest, now);
    assert IsLatest(input, latest);
  }

  lemma NothingScheduled(input: Input)
    ensures Scheduled(input.runs) == [] <==> forall r :: !IsScheduled(input, r)
  {
    ScheduledAre(input);
    NoMembers(Scheduled(input.runs));
  }

  lemma LatestIsScheduled(input: Input, r: Run)
    requires IsLatest(input, r)
    ensures IsScheduled(input, r) && r.createdAt.Some?
  {
    ObjectsAre(input.runs);
  }

  // ---------- Findings and refusals ----------

  lemma RefusalOfScheduled(input: Input, now: int)
    requires Scheduled(input.runs) != [] && AllCreated(Scheduled(input.runs)) && input.maxAgeHours > 0
    ensures Fails(input, now) <==>
      || (exists r :: IsLatest(input, r) && r.createdAt.value > now)
      || (exists r :: IsSuccess(input, r, now) && (r.updatedAt.None? || r.updatedAt.value > now))
  {
    LatestIs(input);
    SuccessesAreTimely(input, now);
    assert IsLatest(input, LatestCreated(Scheduled(input.runs)));
  }

  lemma CreationTimesAre(input: Input)
    ensures AllCreated(Scheduled(input.runs)) <==> !exists r :: IsScheduled(input, r) && r.createdAt.None?
  {
    ScheduledAre(input);
    var scheduled := Scheduled(input.runs);
    assert forall i :: 0 <= i < |scheduled| ==> scheduled[i] in scheduled;
  }

  lemma RefusalMeans(input: Input, now: int)
    ensures Fails(input, now) <==> IsRefused(input, now)
  {
    CreationTimesAre(input);
    if Scheduled(input.runs) == [] {
      NothingLatest(input);
    } else if AllCreated(Scheduled(input.runs)) && input.maxAgeHours > 0 {
      RefusalOfScheduled(input, now);
    }
  }

  lemma SuccessesAreTimely(input: Input, now: int)
    requires Scheduled(input.runs) != [] && AllCreated(Scheduled(input.runs))
    ensures var latest := LatestCreated(Scheduled(input.runs));
      var successes := SuccessfulRuns(Scheduled(input.runs), Excluded(latest, ExpectedJob(input.jobs), now), latest.id);
      (successes != [] && (!AllUpdated(successes) || LatestUpdate(successes) > now)) <==>
        exists r :: IsSuccess(input, r, now) && (r.updatedAt.None? || r.updatedAt.value > now)
  {
    SuccessesAre(input, now);
    var latest := LatestCreated(Scheduled(input.runs));
    var successes := SuccessfulRuns(Scheduled(input.runs), Excluded(latest, ExpectedJob(input.jobs), now), latest.id);
    assert forall i :: 0 <= i < |successes| ==> successes[i] in successes;
  }

  lemma LatestUpdateIs(successes: seq<Run>, bound: int)
    requires successes != [] && AllUpdated(successes)
    ensures LatestUpdate(successes) <= bound <==> forall r :: r in successes ==> r.updatedAt.value <= bound
  {
    assert forall i :: 0 <= i < |successes| ==> successes[i] in successes;
  }

  lemma MissingMeans(input: Input, now: int)
    requires !Fails(input, now) && Scheduled(input.runs) != [] && AllCreated(Scheduled(input.runs))
    ensures Holds(NoEvidence, input, now) <==> Means(NoEvidence, input, now)
  {
    SuccessesAre(input, now);
    var latest := LatestCreated(Scheduled(input.runs));
    var successes := SuccessfulRuns(Scheduled(input.runs), Excluded(latest, ExpectedJob(input.jobs), now), latest.id);
    if successes != [] {
      assert successes[0] in successes && IsSuccess(input, successes[0], now);
    }
  }

  lemma StaleHolds(input: Input, now: int, successes: seq<Run>)
    requires !Fails(input, now) && Scheduled(input.runs) != [] && AllCreated(Scheduled(input.runs))
    requires var latest := LatestCreated(Scheduled(input.runs));
      successes == SuccessfulRuns(Scheduled(input.runs), Excluded(latest, ExpectedJob(input.jobs), now), latest.id)
    ensures Holds(StaleEvidence, input, now) <==>
      && successes != []
      && forall r :: r in successes ==> r.updatedAt.Some? && now - r.updatedAt.value >= input.maxAgeHours * HOUR
  {
    if successes != [] {
      LatestUpdateIs(successes, now - input.maxAgeHours * HOUR);
    }
    assert forall i :: 0 <= i < |successes| ==> successes[i] in successes;
  }

  lemma StaleMeans(input: Input, now: int)
    requires !Fails(input, now) && Scheduled(input.runs) != [] && AllCreated(Scheduled(input.runs))
    ensures Holds(StaleEvidence, input, now) <==> Means(StaleEvidence, input, now)
  {
    SuccessesAre(input, now);
    var latest := LatestCreated(Scheduled(input.runs));
    var successes := SuccessfulRuns(Scheduled(input.runs), Excluded(latest, ExpectedJob(input.jobs), now), latest.id);
    StaleHolds(input, now, successes);
    if successes != [] {
      assert successes[0] in successes && IsSuccess(input, successes[0], now);
    }
  }

  lemma LatestMeans(input: Input, now: int, f: Finding)
    requires Scheduled(input.runs) != [] && AllCreated(Scheduled(input.runs))
    requires f.NoRecentSchedule? || f.JobMissing? || f.JobSkipped? || f.RunnerStalled?
    ensures Holds(f, input, now) <==> Means(f, input, now)
  {
    var latest, job := LatestCreated(Scheduled(input.runs)), ExpectedJob(input.jobs);
    LatestIs(input);
    JobsAre(input);
    StuckIs(input, latest, now);
    assert IsLatest(input, latest) && (job.Some? ==> IsTheJob(input, job.value));
  }

  /** Each finding holds exactly when what it says is so. */
  lemma FindingMeans(input: Input, now: int, f: Finding)
    requires !Fails(input, now) && AllCreated(Scheduled(input.runs))
    ensures Holds(f, input, now) <==> Means(f, input, now)
  {
    NothingScheduled(input);
    if Scheduled(input.runs) == [] {
      NothingLatest(input);
    } else {
      match f
      case InvalidVersion =>
      case NoScheduledRun =>
      case NoEvidence => MissingMeans(input, now);
      case StaleEvidence => StaleMeans(input, now);
      case _ => LatestMeans(input, now, f);
    }
  }

  lemma NothingLatest(input: Input)
    requires Scheduled(input.runs) == []
    ensures forall r :: !IsLatest(input, r) && !IsScheduled(input, r)
  {
    NothingScheduled(input);
    forall r ensures !IsLatest(input, r) {
      if IsLatest(input, r) {
        LatestIsScheduled(input, r);
      }
    }
  }

  // ---------- Reports ----------

  /** What a report says, in terms of runs and jobs. */
  ghost predicate Tells(input: Input, now: int, r: Result<seq<Finding>, Failure>) {
    && (r.Err? <==> IsRefused(input, now))
    && (r.Ok? ==> Distinct(r.value) && forall f :: f in r.value <==> Means(f, input, now))
  }

  /** The watchdog's reports tell exactly that. */
  lemma ReportsTell(input: Input, now: int, r: Result<seq<Finding>, Failure>)
    ensures Reports(input, now, r) ==> Tells(input, now, r)
  {
    RefusalMeans(input, now);
    if Reports(input, now, r) && r.Ok? {
      forall f
        ensures Holds(f, input, now) <==> Means(f, input, now)
      {
        FindingMeans(input, now, f);
      }
    }
  }

  // ---------- What silence means ----------

  lemma OnlyOneLatest(input: Input, a: Run, b: Run)
    requires IsLatest(input, a) && IsLatest(input, b)
    ensures a == b
  {
    var runs := Objects(input.runs);
    var k :| 0 <= k < |runs| && IsLatestAt(runs, k) && runs[k] == a;
    var n :| 0 <= n < |runs| && IsLatestAt(runs, n) && runs[n] == b;
    OneLatest(runs, k, n);
  }

  lemma OnlyOneJob(input: Input, a: Job, b: Job)
    requires IsTheJob(input, a) && IsTheJob(input, b)
    ensures a == b
  {
    JobIs(input, a);
    JobIs(input, b);
  }

  /** A run started less than 30 hours ago that is not stuck, and did not complete without the
      required job or with that job skipped. */
  ghost predicate IsWell(input: Input, latest: Run, now: int)
    requires latest.createdAt.Some?
  {
    && now - latest.createdAt.value < 30 * HOUR_IN_MICROSECONDS && !IsStuck(input, latest, now)
    && (latest.status == "completed" ==> exists job :: IsTheJob(input, job) && job.conclusion != "skipped")
  }

  /** The version is a full commit id, the latest scheduled run is well, and some scheduled run
      succeeded, counts, and is younger than the evidence age. */
  ghost predicate Healthy(input: Input, now: int) {
    && IsCommit(input.version)
    && (exists latest :: IsLatest(input, latest) && IsWell(input, latest, now))
    && exists success :: IsSuccess(input, success, now) && success.updatedAt.Some?
                         && now - success.updatedAt.value < input.maxAgeHours * HOUR_IN_MICROSECONDS
  }

  lemma SomeLatest(input: Input)
    requires Scheduled(input.runs) != [] && AllCreated(Scheduled(input.runs))
    ensures exists r :: IsLatest(input, r)
  {
    LatestIs(input);
    assert IsLatest(input, LatestCreated(Scheduled(input.runs)));
  }

  lemma QuietIsHealthy(input: Input, now: int)
    requires !IsRefused(input, now) && AllCreated(Scheduled(input.runs)) && forall f :: !Means(f, input, now)
    ensures Healthy(input, now)
  {
    assert !Means(InvalidVersion, input, now) && !Means(NoScheduledRun, input, now);
    NothingScheduled(input);
    SomeLatest(input);
    var latest :| IsLatest(input, latest);
    assert !Means(NoRecentSchedule, input, now) && !Means(RunnerStalled, input, now);
    assert !Means(JobMissing, input, now) && !Means(JobSkipped, input, now);
    assert IsWell(input, latest, now);
    assert !Means(NoEvidence, input, now) && !Means(StaleEvidence, input, now);
  }

  lemma HealthyIsQuiet(input: Input, now: int, f: Finding)
    requires Healthy(input, now)
    ensures !Means(f, input, now)
  {
    var latest :| IsLatest(input, latest) && IsWell(input, latest, now);
    LatestIsScheduled(input, latest);
    if r :| IsLatest(input, r) && r != latest {
      OnlyOneLatest(input, r, latest);
    }
    if f.JobSkipped? && latest.status == "completed" {
      var job :| IsTheJob(input, job) && job.conclusion != "skipped";
      forall other | IsTheJob(input, other)
        ensures other == job
      {
        OnlyOneJob(input, other, job);
      }
    }
  }

  /** A report without findings is one about a healthy gate. */
  lemma SilenceMeansHealthy(input: Input, now: int, r: Result<seq<Finding>, Failure>)
    requires Reports(input, now, r) && r.Ok?
    ensures r.value == [] <==> Healthy(input, now)
  {
    ReportsTell(input, now, r);
    NothingListed(r.value);
    if r.value == [] {
      assert forall f :: !Means(f, input, now);
      QuietIsHealthy(input, now);
    }
    if Healthy(input, now) {
      forall f
        ensures !Means(f, input, now)
      {
        HealthyIsQuiet(input, now, f);
      }
    }
  }
}
