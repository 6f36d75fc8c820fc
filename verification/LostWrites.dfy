/** Writes that are lost between a job's load of a feed and its commit, and when that can happen. */
module LostWrites {
  import opened Common
  import opened Models
  import opened Policy
  import opened FeedState
  import opened Fetch
  import opened Lifecycle
  import opened Semaphore
  import opened Scheduler
  import opened Fleet

  // ---- A reactivation between load and commit ----

  /** The row that a job commits when its feed is reactivated after the job has loaded it. */
  function CommittedOver(s: Settings, loaded: FeedRow, at: Time, now: Time, weekly: nat, outcome: Outcome,
                         u: Draw): FeedRow
    requires s.Defined()
  {
    Flushed(Reactivation(loaded, at), loaded, AfterPoll(s, loaded, now, weekly, outcome, u))
  }

  /** The failure shows in the columns that the reactivation has cleared: it brings a new code, and a new
      status unless the feed may be ACTIVE with that many failures. */
  predicate FailureShows(s: Settings, loaded: FeedRow, now: Time, code: ErrorCode) {
    && loaded.errorCode != Some(code)
    && (StatusAfterFailure(s, loaded, now, code) != loaded.status || loaded.failures + 1 < s.brokenThreshold)
  }

  /** The lifecycle invariant survives such a commit if and only if the attempt does not fail, or its
      failure shows. */
  lemma {:induction false} DisturbedCommit(s: Settings, loaded: FeedRow, at: Time, now: Time,
                                           weekly: nat, outcome: Outcome, u: Draw)
    requires s.Defined() && s.brokenThreshold >= 1 && Lifecycle.Consistent(s, loaded)
    ensures Lifecycle.Consistent(s, CommittedOver(s, loaded, at, now, weekly, outcome, u))
       <==> outcome.Failed? ==> FailureShows(s, loaded, now, outcome.code)
  {
    EventKeepsConsistent(s, loaded, Polled(now, weekly, outcome, u));
  }

  /** What such a commit keeps of both writers: after a failure, the count of the one and the due instant
      of the later; the reactivation's status and code unless the failure changed them. */
  lemma {:induction false} DisturbedFailure(s: Settings, loaded: FeedRow, at: Time, now: Time,
                                            weekly: nat, outcome: Outcome, u: Draw)
    requires s.Defined() && outcome.Failed?
    ensures
      var row := CommittedOver(s, loaded, at, now, weekly, outcome, u);
      && row.failures == loaded.failures + 1
      && (row.errorCode == if loaded.errorCode == Some(outcome.code) then None else Some(outcome.code))
      && row.status == (if StatusAfterFailure(s, loaded, now, outcome.code) == loaded.status then Active
                        else StatusAfterFailure(s, loaded, now, outcome.code))
  {
  }

  /** Under any settings: a dead feed is probed, reactivated in mid-probe, and answers 410 again.  The
      commit leaves it ACTIVE, with two failures and no error code. */
  lemma {:induction false} ReactivationBreaksLifecycle(s: Settings) returns (start: World, steps: seq<Step>)
    requires Runnable(s) && s.fetchBound >= 0.0 && s.claimBatch >= 1
    ensures Genuine(s, start) && IsRun(s, start, steps)
    ensures
      var end := End(s, start, steps);
      && 0 in end.rows && end.rows[0].status == Active && end.rows[0].failures == 2
      && end.rows[0].errorCode == None && !Lifecycle.Consistent(s, end.rows[0])
  {
    start := Crowd(s, 1, Killed);
    CrowdIsGenuine(s, 1, Killed);
    CrowdIsReady(s, 1, Killed);
    CanClaimAll(s, start, 0, 1, 0.0);
    var claimed := Next(s, start, ClaimAll(0, 1, 0.0));
    KilledOnce(s, claimed);
    steps := [ClaimAll(0, 1, 0.0), Load(0), Reactivate(0), Finish(0, 0, Failed(None, Http410), 0.0)];
    var rest := ProbeDisturbed(s, claimed);
    assert steps[1..] == rest;
  }

  lemma {:induction false} KilledOnce(s: Settings, claimed: World)
    requires Runnable(s) && claimed == Next(s, Crowd(s, 1, Killed), ClaimAll(0, 1, 0.0))
    ensures 0 in claimed.jobs && claimed.jobs[0] == Job(0, 0, 0.0, 0.0, 0.0, Unseen) && claimed.clock == 0.0
    ensures 0 in claimed.rows && claimed.rows[0].status == Dead
    ensures claimed.rows[0].failures == 1 && claimed.rows[0].errorCode == Some(Http410)
  {
    var start := Crowd(s, 1, Killed);
    JobsOfAll(s, start, 0, 1, 0.0);
    AtOnce(AllFree(s.concurrency, 0.0), 1, 0.0, 0);
    NewcomerStatus(s, 0, Killed);
    KilledFailures(s);
    assert Everyone(1)[0] == 0;
  }

  lemma {:induction false} KilledFailures(s: Settings)
    requires s.Defined()
    ensures Newcomer(s, 0, Killed).failures == 1
  {
    var since, h := Registered(UrlOf(0), Since(s, Killed)), HistoryOf(s, Killed);
    assert h[..0] == [] && Run(s, since, []) == since;
  }

  lemma {:induction false} ProbeDisturbed(s: Settings, w: World) returns (steps: seq<Step>)
    requires Runnable(s) && w.clock == 0.0
    requires 0 in w.jobs && w.jobs[0] == Job(0, 0, 0.0, 0.0, 0.0, Unseen)
    requires 0 in w.rows && w.rows[0].status == Dead
    requires w.rows[0].failures == 1 && w.rows[0].errorCode == Some(Http410)
    ensures steps == [Load(0), Reactivate(0), Finish(0, 0, Failed(None, Http410), 0.0)]
    ensures IsRun(s, w, steps)
    ensures
      var end := End(s, w, steps);
      && 0 in end.rows && end.rows[0].status == Active && end.rows[0].failures == 2
      && end.rows[0].errorCode == None && !Lifecycle.Consistent(s, end.rows[0])
  {
    var probe := Finish(0, 0, Failed(None, Http410), 0.0);
    steps := [Load(0), Reactivate(0), probe];
    ThreeSteps(s, w, Load(0), Reactivate(0), probe);
    var loaded := w.rows[0];
    var end := End(s, w, steps);
    assert end.rows[0] == CommittedOver(s, loaded, 0.0, 0.0, 0, Failed(None, Http410), 0.0);
    DisturbedFailure(s, loaded, 0.0, 0.0, 0, Failed(None, Http410), 0.0);
  }

  // ---- Two workers on one feed ----

  /** Jobs that take no time are over when they start. */
  lemma {:induction false} AtOnce(free: seq<Time>, n: nat, at: Time, i: nat)
    requires free != [] && (forall j :: 0 <= j < |free| ==> free[j] == at) && i < n
    ensures
      var span := Schedule(free, seq(n, x => 0.0))[i];
      span.start == at && span.finish == at
    decreases n
  {
    var durations := seq(n, x => 0.0);
    assert durations[1..] == seq(n - 1, x => 0.0);
    if i > 0 {
      AtOnce(Taken(free, 0.0), n - 1, at, i - 1);
    }
  }

  /** A 200 with an empty document. */
  const Fine: Outcome := Fetched(None, None, None, None, None, None, [])

  /** Two sessions loaded the same failure; one answers, and then the other fails the same way.  The
      count comes back without its code. */
  lemma {:induction false} CrossedCommits(s: Settings, first: FeedRow, second: FeedRow, at: Time, now: Time,
                                          code: ErrorCode)
    requires s.Defined() && first.errorCode == Some(code)
    ensures
      var answered := AfterPoll(s, second, at, 0, Fine, 0.0);
      var row := Flushed(answered, first, AfterPoll(s, first, now, 0, Failed(None, code), 0.0));
      row.errorCode == None && row.failures == first.failures + 1 && !Lifecycle.Consistent(s, row)
  {
  }

  /** A second worker has claimed the whole batch while the first holds its last feed. */
  ghost predicate ClaimedTwice(s: Settings, w: World, w': World)
    requires s.claimBatch >= 1 && s.claimBatch - 1 in w.rows
  {
    var n := s.claimBatch;
    && w'.clock == w.clock && w.jobs.Keys == {n - 1}
    && n + n - 1 in w'.jobs && w'.jobs[n + n - 1] == Job(1, n - 1, w.clock, w.clock, w.clock, Unseen)
    && n - 1 in w'.jobs && w'.jobs[n - 1] == w.jobs[n - 1]
    && (forall j :: j in w'.jobs && j != n - 1 ==> w'.jobs[j].worker == 1)
    && n - 1 in w'.rows && w'.rows[n - 1] == Leasing(w.rows[n - 1], w.clock, w.clock + s.claimTtl)
  }

  lemma {:induction false} SecondWorkerClaims(s: Settings, w: World)
    requires Runnable(s) && s.claimBatch >= 1 && w.nextJob == s.claimBatch
    requires w.jobs.Keys == {s.claimBatch - 1} && s.claimBatch - 1 in w.rows
    ensures ClaimedTwice(s, w, Next(s, w, ClaimAll(1, s.claimBatch, 0.0)))
  {
    var n := s.claimBatch;
    JobsOfAll(s, w, 1, n, 0.0);
    AtOnce(AllFree(s.concurrency, w.clock), n, w.clock, n - 1);
    assert Everyone(n)[n - 1] == n - 1;
  }

  /** A second worker claims the batch, loads the last feed and commits a 200; then it dies. */
  lemma {:induction false} SecondWorkerAnswers(s: Settings, start: World, w: World) returns (end: World)
    requires Runnable(s) && s.fetchBound >= 0.0 && s.claimBatch >= 1
    requires Reaches(s, start, w) && Ready(s, w, s.claimBatch) && w.nextJob == s.claimBatch
    requires w.jobs.Keys == {s.claimBatch - 1} && w.jobs[s.claimBatch - 1].worker == 0
    ensures Reaches(s, start, end) && end.jobs == w.jobs && end.clock == w.clock
    ensures
      var f := s.claimBatch - 1;
      var leased := Leasing(w.rows[f], w.clock, w.clock + s.claimTtl);
      f in end.rows && end.rows[f] == AfterPoll(s, leased, w.clock, 0, Fine, 0.0)
  {
    var n := s.claimBatch;
    var claimed := Next(s, w, ClaimAll(1, n, 0.0));
    CanClaimAll(s, w, 1, n, 0.0);
    OneMore(s, start, w, ClaimAll(1, n, 0.0));
    SecondWorkerClaims(s, w);
    end := AnswersAndDies(s, start, w, claimed);
  }

  lemma {:induction false} AnswersAndDies(s: Settings, start: World, w: World, claimed: World) returns (end: World)
    requires Runnable(s) && s.claimBatch >= 1 && s.claimBatch - 1 in w.rows && Reaches(s, start, claimed)
    requires ClaimedTwice(s, w, claimed) && w.jobs[s.claimBatch - 1].worker == 0
    ensures Reaches(s, start, end) && end.jobs == w.jobs && end.clock == w.clock
    ensures
      var f := s.claimBatch - 1;
      var leased := Leasing(w.rows[f], w.clock, w.clock + s.claimTtl);
      f in end.rows && end.rows[f] == AfterPoll(s, leased, w.clock, 0, Fine, 0.0)
  {
    var n := s.claimBatch;
    var answered := JobStep(s, start, claimed, n + n - 1, 0, Some(Fine), 0.0);
    end := SecondWorkerDies(s, start, w, answered);
  }

  lemma {:induction false} SecondWorkerDies(s: Settings, start: World, w: World, was: World) returns (end: World)
    requires Runnable(s) && Reaches(s, start, was)
    requires forall j :: j in w.jobs ==> j in was.jobs && was.jobs[j] == w.jobs[j] && w.jobs[j].worker != 1
    requires forall j :: j in was.jobs && j !in w.jobs ==> was.jobs[j].worker == 1
    ensures Reaches(s, start, end) && end == was.(jobs := w.jobs)
  {
    OneMore(s, start, was, Crash(1));
    end := Next(s, was, Crash(1));
    assert end.jobs == w.jobs;
  }

  /** The first worker, who loaded the feed before all this, then commits the old failure again. */
  lemma {:induction false} FirstWorkerFails(s: Settings, start: World, w: World, code: ErrorCode) returns (end: World)
    requires Runnable(s) && s.fetchBound >= 0.0 && s.claimBatch >= 1
    requires Reaches(s, start, w) && Ready(s, w, s.claimBatch) && w.nextJob == s.claimBatch
    requires w.jobs == map[s.claimBatch - 1 := LastJob(s)] && LastJob(s).opens <= w.clock <= BatchTime(s)
    requires w.rows[s.claimBatch - 1].errorCode == Some(code)
    ensures Reaches(s, start, end)
    ensures s.claimBatch - 1 in end.rows && !Lifecycle.Consistent(s, end.rows[s.claimBatch - 1])
  {
    var f := s.claimBatch - 1;
    var row := w.rows[f];
    OneMore(s, start, w, Load(f));
    var loaded := Next(s, w, Load(f));
    assert loaded.jobs == map[f := LastJob(s).(sight := Seen(row))];
    var answered := SecondWorkerAnswers(s, start, loaded);
    WaitUntil(s, start, answered, BatchTime(s));
    var late := answered.(clock := BatchTime(s));
    var fail := Finish(f, 0, Failed(None, code), 0.0);
    OneMore(s, start, late, fail);
    end := Next(s, late, fail);
    CrossedCommits(s, row, Leasing(row, w.clock, w.clock + s.claimTtl), w.clock, 0.0, code);
  }

  /** Whenever a full batch can outlast its leases, some tame run from a genuine table breaks the lifecycle
      invariant of a row. */
  lemma {:induction false} ShortLeaseBreaksLifecycle(s: Settings) returns (start: World, end: World)
    requires Runnable(s) && s.fetchBound >= 0.0 && s.claimBatch >= 1 && s.deadDuration > 0.0
    requires s.claimTtl > 0.0 && s.probeInterval >= 0.0
    requires !(BatchTime(s) < s.claimTtl && BatchTime(s) <= s.probeInterval)
    ensures Genuine(s, start) && Reaches(s, start, end)
    ensures exists f :: f in end.rows && !Lifecycle.Consistent(s, end.rows[f])
  {
    var n, past := s.claimBatch, if BatchTime(s) < s.claimTtl then Killed else Stumbled;
    BatchTakesTime(s);
    CrowdIsGenuine(s, n, past);
    start := Crowd(s, n, past);
    var w := LeasesRunOut(s, past);
    NewcomerStatus(s, n - 1, past);
    assert Everyone(n)[n - 1] == n - 1;
    end := FirstWorkerFails(s, start, w, CodeOf(past));
  }

  ghost predicate AllConsistent(s: Settings, w: World) {
    forall f :: f in w.rows ==> Lifecycle.Consistent(s, w.rows[f])
  }

  /** The lease condition is exact for the lifecycle too: all tame runs from genuine tables keep the
      invariant of every row if and only if a full batch is over before its leases run out. */
  lemma {:induction false} LifecycleConditionIsExact(s: Settings)
    requires Runnable(s) && s.fetchBound >= 0.0 && s.claimBatch >= 1 && s.brokenThreshold >= 1
    requires s.deadDuration > 0.0 && s.claimTtl > 0.0 && s.probeInterval >= 0.0
    ensures (forall start, end :: Genuine(s, start) && Reaches(s, start, end) ==> AllConsistent(s, end))
       <==> BatchTime(s) < s.claimTtl && BatchTime(s) <= s.probeInterval
  {
    if BatchTime(s) < s.claimTtl && BatchTime(s) <= s.probeInterval {
      forall start, end | Genuine(s, start) && Reaches(s, start, end)
        ensures AllConsistent(s, end)
      {
        var steps :| ReachesBy(s, start, end, steps);
        FleetKeepsLifecycle(s, start, steps);
      }
    } else {
      var start, end := ShortLeaseBreaksLifecycle(s);
      assert Genuine(s, start) && Reaches(s, start, end);
    }
  }
}
