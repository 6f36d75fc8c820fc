/** What holds of every row in every run of the fleet, and how sharp the lease condition is. */
module Fleet {
  import opened Common
  import opened Models
  import opened Policy
  import opened FeedState
  import opened Fetch
  import opened Lifecycle
  import opened Semaphore
  import opened Scheduler

  // ---- Every row has a history ----

  /** The row is what some history of events made of a registration. */
  ghost predicate HasHistory(s: Settings, row: FeedRow, url: string, created: Time, h: History)
    requires s.Defined()
  {
    row == Run(s, Registered(url, created), h)
  }

  ghost predicate Lived(s: Settings, row: FeedRow)
    requires s.Defined()
  {
    exists url, created, h :: HasHistory(s, row, url, created, h)
  }

  lemma {:induction false} LifeGoesOn(s: Settings, row: FeedRow, e: Event)
    requires s.Defined() && Lived(s, row)
    ensures Lived(s, Apply(s, row, e))
  {
    var url, created, h :| HasHistory(s, row, url, created, h);
    assert (h + [e])[..|h|] == h;
    assert HasHistory(s, Apply(s, row, e), url, created, h + [e]);
  }

  ghost predicate AllLived(s: Settings, w: World)
    requires s.Defined()
  {
    forall f :: f in w.rows ==> Lived(s, w.rows[f])
  }

  /** The step writes the row of `f`. */
  predicate Touches(w: World, step: Step, f: FeedId) {
    match step
    case Claim(_, _, chosen, _) => f in chosen
    case Finish(job, _, _, _) => job in w.jobs && w.jobs[job].feed == f
    case Reactivate(feed) => feed == f
    case _ => false
  }

  /** What a step that writes a row is in that row's history. */
  function EventOf(s: Settings, w: World, step: Step): Event
    requires step.Claim? || step.Reactivate? || (step.Finish? && step.job in w.jobs)
  {
    match step
    case Claim(_, _, _, _) => Leased(w.clock, w.clock + s.claimTtl)
    case Finish(job, weekly, outcome, u) => Polled(w.jobs[job].claimedAt, weekly, outcome, u)
    case Reactivate(_) => Reactivated(w.clock)
  }

  lemma {:induction false} StepIsEvent(s: Settings, w: World, step: Step, f: FeedId)
    requires Runnable(s) && Good(s, w) && Enabled(s, w, step) && f in w.rows && f in Next(s, w, step).rows
    ensures Next(s, w, step).rows[f] ==
              if Touches(w, step, f) then Apply(s, w.rows[f], EventOf(s, w, step)) else w.rows[f]
  {
    if step.Finish? && Touches(w, step, f) {
      assert JobFine(s, w, w.jobs[step.job]);
    }
  }

  lemma {:induction false} StepKeepsLives(s: Settings, w: World, step: Step)
    requires Runnable(s) && Good(s, w) && Enabled(s, w, step) && AllLived(s, w)
    ensures AllLived(s, Next(s, w, step))
  {
    forall f | f in Next(s, w, step).rows
      ensures Lived(s, Next(s, w, step).rows[f])
    {
      if f !in w.rows {
        assert HasHistory(s, Registered(step.url, w.clock), step.url, w.clock, []);
      } else {
        StepIsEvent(s, w, step, f);
        if Touches(w, step, f) {
          LifeGoesOn(s, w.rows[f], EventOf(s, w, step));
        }
      }
    }
  }

  /** In every run of the fleet in which leases hold, every row is the outcome of a history, so it
      satisfies the lifecycle invariant: no write is lost between a load and its commit. */
  lemma {:induction false} FleetKeepsLifecycle(s: Settings, w: World, steps: seq<Step>)
    requires Safe(s) && s.brokenThreshold >= 1 && Good(s, w) && AllLived(s, w)
    requires IsRun(s, w, steps) && Tame(s, w, steps)
    ensures AllLived(s, End(s, w, steps))
    ensures forall f :: f in End(s, w, steps).rows ==> Lifecycle.Consistent(s, End(s, w, steps).rows[f])
    decreases |steps|
  {
    if steps == [] {
      forall f | f in w.rows
        ensures Lifecycle.Consistent(s, w.rows[f])
      {
        assert Lived(s, w.rows[f]);
        var url, created, h :| HasHistory(s, w.rows[f], url, created, h);
        LifecycleInvariant(s, url, created, h);
      }
    } else {
      StepKeepsLives(s, w, steps[0]);
      StepKeepsGood(s, w, steps[0]);
      FleetKeepsLifecycle(s, Next(s, w, steps[0]), steps[1..]);
    }
  }

  // ---- The lease condition is necessary ----

  ghost predicate ReachesBy(s: Settings, w: World, w': World, steps: seq<Step>)
    requires Runnable(s)
  {
    IsRun(s, w, steps) && Tame(s, w, steps) && End(s, w, steps) == w'
  }

  ghost predicate Reaches(s: Settings, w: World, w': World)
    requires Runnable(s)
  {
    exists steps :: ReachesBy(s, w, w', steps)
  }

  lemma {:induction false} AppendStep(s: Settings, w: World, w': World, steps: seq<Step>, step: Step)
    requires Runnable(s) && ReachesBy(s, w, w', steps) && Enabled(s, w', step) && !StealsLease(w', step)
    ensures ReachesBy(s, w, Next(s, w', step), steps + [step])
    decreases |steps|
  {
    if steps == [] {
      assert [] + [step] == [step];
      assert [step][1..] == [];
      assert ReachesBy(s, Next(s, w, step), Next(s, w, step), []);
    } else {
      AppendStep(s, Next(s, w, steps[0]), w', steps[1..], step);
      assert (steps + [step])[1..] == steps[1..] + [step];
    }
  }

  lemma {:induction false} OneMore(s: Settings, w: World, w': World, step: Step)
    requires Runnable(s) && Reaches(s, w, w') && Enabled(s, w', step) && !StealsLease(w', step)
    ensures Reaches(s, w, Next(s, w', step))
  {
    var steps :| ReachesBy(s, w, w', steps);
    AppendStep(s, w, w', steps, step);
  }

  /** An undisturbed commit is the poll itself. */
  lemma {:induction false} Undisturbed(s: Settings, row: FeedRow, now: Time, weekly: nat, outcome: Outcome, u: Draw)
    requires s.Defined()
    ensures Flushed(row, row, AfterPoll(s, row, now, weekly, outcome, u)) == AfterPoll(s, row, now, weekly, outcome, u)
  {
  }

  /** At its deadline, a job that nobody disturbs can load its feed and commit, or roll back. */
  lemma {:induction false} JobStep(s: Settings, w: World, was: World, job: nat,
                                   weekly: nat, outcome: Option<Outcome>, u: Draw) returns (end: World)
    requires Runnable(s) && Reaches(s, w, was) && job in was.jobs
    requires was.jobs[job].sight.Unseen? && was.jobs[job].opens <= was.clock == was.jobs[job].deadline
    ensures Reaches(s, w, end)
    ensures
      var f := was.jobs[job].feed;
      var now := was.jobs[job].claimedAt;
      end == was.(jobs := was.jobs - {job},
                  rows := if f in was.rows && outcome.Some?
                          then was.rows[f := AfterPoll(s, was.rows[f], now, weekly, outcome.value, u)]
                          else was.rows)
  {
    if outcome.None? {
      OneMore(s, w, was, Abort(job));
      end := Next(s, was, Abort(job));
    } else {
      var seen := Next(s, was, Load(job));
      OneMore(s, w, was, Load(job));
      OneMore(s, w, seen, Finish(job, weekly, outcome.value, u));
      end := Next(s, seen, Finish(job, weekly, outcome.value, u));
      assert end.jobs == was.jobs - {job};
      if was.jobs[job].feed in was.rows {
        Undisturbed(s, was.rows[was.jobs[job].feed], was.jobs[job].claimedAt, weekly, outcome.value, u);
      }
    }
  }

  /** Busy slots are exactly one bound behind: taking the earliest leaves one less at `level`. */
  lemma {:induction false} TakeExactly(free: seq<Time>, bound: Time, level: Time)
    requires bound > 0.0 && |FreeBy(free, level)| >= 1
    requires forall i :: 0 <= i < |free| ==> free[i] == level || free[i] == level + bound
    ensures
      var free' := Taken(free, bound);
      && FirstSpan(free, bound).finish == level + bound
      && |FreeBy(free', level)| == |FreeBy(free, level)| - 1
      && (forall i :: 0 <= i < |free'| ==> free'[i] == level || free'[i] == level + bound)
      && (|FreeBy(free, level)| == 1 ==> forall i :: 0 <= i < |free'| ==> free'[i] == level + bound)
  {
    var i := Earliest(free);
    var j :| j in FreeBy(free, level);
    assert free[i] <= free[j];
    var free' := Taken(free, bound);
    assert FreeBy(free', level) == FreeBy(free, level) - {i};
    if |FreeBy(free, level)| == 1 {
      assert |FreeBy(free', level)| == 0;
      assert forall x: nat :: x < |free'| && free'[x] <= level ==> x in FreeBy(free', level);
    }
  }

  /** A full load meets the makespan exactly. */
  lemma {:induction false} FullLoad(free: seq<Time>, n: nat, bound: Time, level: Time, r: nat, k: nat)
    requires bound > 0.0 && k < n && r < |free|
    requires |FreeBy(free, level)| == |free| - r
    requires forall i :: 0 <= i < |free| ==> free[i] == level || free[i] == level + bound
    ensures Schedule(free, seq(n, i => bound))[k].finish == level + Times(Rounds(r, k, |free|), bound) + bound
    decreases n
  {
    var durations, rest := seq(n, i => bound), seq(n - 1, i => bound);
    TakeExactly(free, bound, level);
    var free' := Taken(free, bound);
    assert durations[0] == bound && durations[1..] == rest;
    if k > 0 {
      assert Schedule(free, durations)[k] == Schedule(free', rest)[k - 1];
      if r + 1 < |free| {
        FullLoad(free', n - 1, bound, level, r + 1, k - 1);
      } else {
        AllFreeBy(free', level + bound);
        FullLoad(free', n - 1, bound, level + bound, 0, k - 1);
      }
    }
  }

  /** A table of feeds `0 .. n` that are all claimable at the clock. */
  ghost predicate Ready(s: Settings, w: World, n: nat) {
    && (forall f: FeedId :: f in w.rows <==> f < n)
    && (forall f :: f in w.rows ==> Eligible(s, w.rows[f], w.clock))
  }

  function Everyone(n: nat): (ids: seq<FeedId>)
    ensures |ids| == n && forall i :: 0 <= i < n ==> ids[i] == i
  {
    seq(n, i => i)
  }

  function ClaimAll(worker: nat, n: nat, d: Time): Step {
    Claim(worker, {}, Everyone(n), seq(n, i => d))
  }

  lemma {:induction false} CanClaimAll(s: Settings, w: World, worker: nat, n: nat, d: Time)
    requires n <= s.claimBatch && 0.0 <= d <= s.fetchBound && Ready(s, w, n)
    ensures Enabled(s, w, ClaimAll(worker, n, d))
  {
    var ids := Everyone(n);
    forall f: nat
      ensures f in ids <==> f < n
    {
      if f < n {
        assert ids[f] == f;
      }
    }
  }

  /** The jobs of such a claim. */
  lemma {:induction false} JobsOfAll(s: Settings, w: World, worker: nat, n: nat, d: Time)
    requires Runnable(s)
    ensures
      var w' := Next(s, w, ClaimAll(worker, n, d));
      var spans := Schedule(AllFree(s.concurrency, w.clock), seq(n, i => d));
      forall j: nat :: w.nextJob <= j < w.nextJob + n ==>
        j in w'.jobs && w'.jobs[j] == NewJob(worker, j - w.nextJob, w.clock, spans[j - w.nextJob])
  {
  }

  /** What a feed went through before instant 0. */
  datatype Past =
    | Unpolled   // registered at instant 0
    | Stumbled   // failed once, and then lost a lease that runs out at instant 0
    | Killed     // answered 410, more than a probe interval ago

  function Since(s: Settings, past: Past): Time {
    match past
    case Unpolled => 0.0
    case Stumbled => -s.claimTtl - Max(s.baseInterval, 0.0)
    case Killed => -s.probeInterval - 1.0
  }

  function CodeOf(past: Past): ErrorCode {
    if past.Stumbled? then Timeout else Http410
  }

  function HistoryOf(s: Settings, past: Past): History {
    var failed := Polled(Since(s, past), 0, Failed(None, CodeOf(past)), 0.0);
    match past
    case Unpolled => []
    case Stumbled => [failed, Leased(-s.claimTtl, 0.0)]
    case Killed => [failed]
  }

  function UrlOf(f: FeedId): string {
    seq(f, i => 'a')
  }

  function Newcomer(s: Settings, f: FeedId, past: Past): FeedRow
    requires s.Defined()
  {
    Run(s, Registered(UrlOf(f), Since(s, past)), HistoryOf(s, past))
  }

  function Newcomers(s: Settings, n: nat, past: Past): (rows: FeedRows)
    requires s.Defined()
    ensures forall f: FeedId :: f in rows <==> f < n
    ensures forall f :: f in rows ==> rows[f] == Newcomer(s, f, past)
  {
    map f: FeedId | f < n :: Newcomer(s, f, past)
  }

  /** Feeds `0 .. n` with the same past, at instant 0. */
  function Crowd(s: Settings, n: nat, past: Past): World
    requires s.Defined()
  {
    World(0.0, Newcomers(s, n, past), n, map[], 0)
  }

  /** How the past shows in the row at instant 0. */
  lemma {:induction false} NewcomerStatus(s: Settings, f: FeedId, past: Past)
    requires s.Defined() && (past.Stumbled? ==> s.deadDuration > 0.0)
    ensures
      var row := Newcomer(s, f, past);
      && (past.Killed? ==> row.status == Dead && row.lastAttempt == Some(-s.probeInterval - 1.0))
      && (!past.Killed? ==> row.status != Dead && row.nextFetchAt == 0.0)
      && (!past.Unpolled? ==> row.errorCode == Some(CodeOf(past)))
  {
    var since, h := Registered(UrlOf(f), Since(s, past)), HistoryOf(s, past);
    if !past.Unpolled? {
      assert h[..1] == [h[0]] && h[..1][..0] == [];
      assert Run(s, since, []) == since;
      assert Run(s, since, [h[0]]) == Apply(s, since, h[0]);
      assert past.Killed? ==> h == [h[0]];
    }
  }

  lemma {:induction false} UrlStays(s: Settings, row: FeedRow, h: History)
    requires s.Defined()
    ensures Run(s, row, h).url == row.url
  {
    if h != [] {
      UrlStays(s, row, h[..|h| - 1]);
    }
  }

  /** A table the service could hold: every row has a history, and no URL is registered twice. */
  ghost predicate Genuine(s: Settings, w: World)
    requires s.Defined()
  {
    && Fresh(w)
    && AllLived(s, w)
    && forall f, g :: f in w.rows && g in w.rows && w.rows[f].url == w.rows[g].url ==> f == g
  }

  lemma {:induction false} CrowdIsGenuine(s: Settings, n: nat, past: Past)
    requires s.Defined()
    ensures Genuine(s, Crowd(s, n, past))
  {
    var rows := Crowd(s, n, past).rows;
    forall f | f in rows
      ensures Lived(s, rows[f]) && rows[f].url == UrlOf(f) && |UrlOf(f)| == f
    {
      assert HasHistory(s, rows[f], UrlOf(f), Since(s, past), HistoryOf(s, past));
      UrlStays(s, Registered(UrlOf(f), Since(s, past)), HistoryOf(s, past));
    }
  }

  // ---- A worker down to its last job ----

  ghost predicate InOrder(w: World) {
    && (forall j :: j in w.jobs ==> w.clock <= w.jobs[j].deadline)
    && (forall i, j :: i in w.jobs && j in w.jobs && i < j ==> w.jobs[i].deadline <= w.jobs[j].deadline)
  }

  /** The world in which the first `k` jobs have ended, at their deadlines. */
  function From(w: World, k: nat): World
    requires forall j: nat :: j < k ==> j in w.jobs
  {
    w.(clock := if k == 0 then w.clock else w.jobs[k - 1].deadline,
       jobs := map j | j in w.jobs && j >= k :: w.jobs[j])
  }

  /** Job `j` has ended, without a write. */
  function Ended(w: World, j: nat): World
    requires j in w.jobs
  {
    w.(clock := w.jobs[j].deadline, jobs := w.jobs - {j})
  }

  /** Jobs that end in turn can each be rolled back when they end. */
  lemma {:induction false} LetGo(s: Settings, start: World, w: World, k: nat)
    requires Runnable(s) && Reaches(s, start, w) && InOrder(w) && forall j: nat :: j < k ==> j in w.jobs
    ensures Reaches(s, start, From(w, k)) && InOrder(From(w, k))
    decreases k
  {
    if k == 0 {
      NoneLess(w);
    } else {
      LetGo(s, start, w, k - 1);
      OneLess(w, k);
      RollBack(s, start, From(w, k - 1), k - 1);
    }
  }

  lemma {:induction false} NoneLess(w: World)
    ensures From(w, 0) == w
  {
    assert From(w, 0).jobs == w.jobs;
  }

  lemma {:induction false} OneLess(w: World, k: nat)
    requires k >= 1 && InOrder(w) && forall j: nat :: j < k ==> j in w.jobs
    ensures
      var was := From(w, k - 1);
      && k - 1 in was.jobs && (forall i :: i in was.jobs ==> i >= k - 1)
      && From(w, k) == Ended(was, k - 1)
    ensures InOrder(From(w, k))
  {
    assert From(w, k).jobs == From(w, k - 1).jobs - {k - 1};
  }

  /** Waiting for the first job to end, and rolling it back. */
  lemma {:induction false} RollBack(s: Settings, start: World, w: World, j: nat)
    requires Runnable(s) && Reaches(s, start, w) && InOrder(w)
    requires j in w.jobs && forall i :: i in w.jobs ==> i >= j
    ensures Reaches(s, start, Ended(w, j))
  {
    var ended := w.(clock := w.jobs[j].deadline);
    WaitUntil(s, start, w, w.jobs[j].deadline);
    OneMore(s, start, ended, Abort(j));
  }

  lemma {:induction false} WaitUntil(s: Settings, start: World, w: World, at: Time)
    requires Runnable(s) && Reaches(s, start, w) && w.clock <= at
    requires forall j :: j in w.jobs ==> at <= w.jobs[j].deadline
    ensures Reaches(s, start, w.(clock := at))
  {
    if w.clock < at {
      OneMore(s, start, w, Tick(at));
    }
  }

  lemma {:induction false} SpanLength(free: seq<Time>, durations: seq<Time>, k: nat)
    requires free != [] && k < |durations|
    ensures
      var span := Schedule(free, durations)[k];
      span.finish == span.start + durations[k]
    decreases |durations|
  {
    if k > 0 {
      SpanLength(Taken(free, durations[0]), durations[1..], k - 1);
    }
  }

  /** Jobs of equal length end in the order in which they start. */
  lemma {:induction false} EndInTurn(free: seq<Time>, n: nat, d: Time, i: nat, j: nat)
    requires free != [] && d >= 0.0 && i < j < n
    ensures Schedule(free, seq(n, x => d))[i].finish <= Schedule(free, seq(n, x => d))[j].finish
  {
    var durations := seq(n, x => d);
    SpansInTurn(free, durations, i, j);
    SpanLength(free, durations, i);
    SpanLength(free, durations, j);
  }

  lemma {:induction false} FullBatchDeadline(s: Settings, at: Time)
    requires Runnable(s) && s.fetchBound > 0.0 && s.claimBatch >= 1
    ensures
      var n := s.claimBatch;
      Schedule(AllFree(s.concurrency, at), seq(n, i => s.fetchBound))[n - 1].finish == at + BatchTime(s)
  {
    var n, c := s.claimBatch, s.concurrency;
    var free := AllFree(c, at);
    AllFreeBy(free, at);
    FullLoad(free, n, s.fetchBound, at, 0, n - 1);
    RoundsIsDiv(0, n - 1, c);
    LastRound(n, c);
  }

  lemma {:induction false} LastRound(n: nat, c: nat)
    requires n >= 1 && c >= 1
    ensures CeilDiv(n, c) == (n - 1) / c + 1
  {
    var q := (n - 1) / c;
    assert (q + 1) * c == q * c + c;
    DivUnique(n + c - 1, c, q + 1, (n - 1) % c);
  }

  /** A batch of feeds, all claimable at instant 0, and nobody at work. */
  ghost predicate AtTheGate(s: Settings, w: World) {
    Ready(s, w, s.claimBatch) && w.clock == 0.0 && w.jobs == map[] && w.nextJob == 0
  }

  /** One worker claims them all under a full load, and rolls back every job but the last. */
  lemma {:induction false} DownToLast(s: Settings, start: World) returns (w: World)
    requires Runnable(s) && s.fetchBound > 0.0 && s.claimBatch >= 1 && AtTheGate(s, start)
    ensures Reaches(s, start, w)
    ensures
      var n := s.claimBatch;
      && LastJob(s).opens <= w.clock <= BatchTime(s) && w.nextJob == n && w.jobs.Keys == {n - 1}
      && w.jobs[n - 1] == LastJob(s)
      && w.rows == LeaseAll(start.rows, Everyone(n), 0.0, s.claimTtl)
  {
    var n := s.claimBatch;
    var claimed := AllClaimed(s, start);
    LetGo(s, start, claimed, n - 1);
    OnlyLast(claimed, n);
    w := From(claimed, n - 1);
  }

  lemma {:induction false} OnlyLast(w: World, n: nat)
    requires n >= 1 && InOrder(w) && forall j: nat :: j in w.jobs <==> j < n
    ensures From(w, n - 1).jobs == map[n - 1 := w.jobs[n - 1]]
    ensures From(w, n - 1).clock == (if n == 1 then w.clock else w.jobs[n - 2].deadline) <= w.jobs[n - 1].deadline
  {
  }

  lemma {:induction false} AllClaimed(s: Settings, start: World) returns (claimed: World)
    requires Runnable(s) && s.fetchBound > 0.0 && s.claimBatch >= 1 && AtTheGate(s, start)
    ensures
      var n := s.claimBatch;
      && Reaches(s, start, claimed)
      && claimed.nextJob == n && InOrder(claimed)
      && (forall j: nat :: j in claimed.jobs <==> j < n)
      && claimed.jobs[n - 1] == LastJob(s)
      && LastJob(s).opens <= (if n == 1 then claimed.clock else claimed.jobs[n - 2].deadline)
      && claimed.rows == LeaseAll(start.rows, Everyone(n), 0.0, s.claimTtl)
  {
    var n := s.claimBatch;
    CanClaimAll(s, start, 0, n, s.fetchBound);
    FirstStep(s, start, ClaimAll(0, n, s.fetchBound));
    claimed := Next(s, start, ClaimAll(0, n, s.fetchBound));
    LastDeadline(s, start);
    FirstClaim(s, start, n, s.fetchBound);
  }

  /** The last of a full batch claimed at instant 0. */
  function LastJob(s: Settings): Job
    requires s.concurrency >= 1 && s.claimBatch >= 1
  {
    Job(0, s.claimBatch - 1, 0.0, BatchTime(s) - s.fetchBound, BatchTime(s), Unseen)
  }

  lemma {:induction false} LastDeadline(s: Settings, start: World)
    requires Runnable(s) && s.fetchBound > 0.0 && s.claimBatch >= 1 && AtTheGate(s, start)
    ensures
      var n := s.claimBatch;
      var claimed := Next(s, start, ClaimAll(0, n, s.fetchBound));
      && n - 1 in claimed.jobs && claimed.jobs[n - 1] == LastJob(s)
      && (n > 1 ==> n - 2 in claimed.jobs)
      && LastJob(s).opens <= (if n == 1 then 0.0 else claimed.jobs[n - 2].deadline)
  {
    var n := s.claimBatch;
    JobsOfAll(s, start, 0, n, s.fetchBound);
    FullBatchDeadline(s, 0.0);
    SpanLength(AllFree(s.concurrency, 0.0), seq(n, i => s.fetchBound), n - 1);
    if n > 1 {
      OpensInTime(AllFree(s.concurrency, 0.0), seq(n, i => s.fetchBound), n - 2);
    }
  }

  /** A job's slot is open by the time the job before it has ended. */
  lemma {:induction false} OpensInTime(free: seq<Time>, durations: seq<Time>, k: nat)
    requires free != [] && k + 1 < |durations|
    ensures Schedule(free, durations)[k + 1].start <= Schedule(free, durations)[k].finish
    decreases |durations|
  {
    var taken, rest := Taken(free, durations[0]), durations[1..];
    assert Schedule(free, durations)[k + 1] == Schedule(taken, rest)[k];
    if k == 0 {
      assert taken[Earliest(taken)] <= taken[Earliest(free)];
    } else {
      OpensInTime(taken, rest, k - 1);
    }
  }

  lemma {:induction false} CrowdIsReady(s: Settings, n: nat, past: Past)
    requires s.Defined() && (past.Stumbled? ==> s.deadDuration > 0.0)
    ensures Ready(s, Crowd(s, n, past), n)
  {
    forall f | f in Crowd(s, n, past).rows
      ensures Eligible(s, Crowd(s, n, past).rows[f], 0.0)
    {
      NewcomerStatus(s, f, past);
    }
  }

  lemma {:induction false} FirstStep(s: Settings, w: World, step: Step)
    requires Runnable(s) && Enabled(s, w, step) && !StealsLease(w, step)
    ensures Reaches(s, w, Next(s, w, step))
  {
    assert ReachesBy(s, w, w, []);
    OneMore(s, w, w, step);
  }

  lemma {:induction false} FirstClaim(s: Settings, w: World, n: nat, d: Time)
    requires Runnable(s) && w.jobs == map[] && w.nextJob == 0 && d >= 0.0
    ensures
      var claimed := Next(s, w, ClaimAll(0, n, d));
      && claimed.clock == w.clock && claimed.nextJob == n
      && (forall j: nat :: j in claimed.jobs <==> j < n)
      && InOrder(claimed)
      && claimed.rows == LeaseAll(w.rows, Everyone(n), w.clock, w.clock + s.claimTtl)
  {
    FirstInOrder(s, w, n, d);
  }

  lemma {:induction false} FirstInOrder(s: Settings, w: World, n: nat, d: Time)
    requires Runnable(s) && w.jobs == map[] && w.nextJob == 0 && d >= 0.0
    ensures InOrder(Next(s, w, ClaimAll(0, n, d)))
  {
    var claimed := Next(s, w, ClaimAll(0, n, d));
    var free := AllFree(s.concurrency, w.clock);
    JobsOfAll(s, w, 0, n, d);
    forall j | j in claimed.jobs
      ensures w.clock <= claimed.jobs[j].deadline
    {
      SpansFit(free, seq(n, x => d), j);
    }
    forall i, j | i in claimed.jobs && j in claimed.jobs && i < j
      ensures claimed.jobs[i].deadline <= claimed.jobs[j].deadline
    {
      EndInTurn(free, n, d, i, j);
    }
  }

  /** A full batch outlasts its leases: for dead feeds if `dead`, for others if not. */
  predicate Outlasts(s: Settings, dead: bool)
    requires s.concurrency >= 1
  {
    if dead then BatchTime(s) > s.probeInterval else BatchTime(s) >= s.claimTtl
  }

  /** Then the whole batch can be claimed again while its first worker still holds the last feed. */
  lemma {:induction false} LeasesRunOut(s: Settings, past: Past) returns (w: World)
    requires Runnable(s) && s.fetchBound > 0.0 && s.claimBatch >= 1
    requires Outlasts(s, past.Killed?) && (past.Stumbled? ==> s.deadDuration > 0.0)
    ensures Reaches(s, Crowd(s, s.claimBatch, past), w) && Ready(s, w, s.claimBatch)
    ensures
      var n := s.claimBatch;
      && LastJob(s).opens <= w.clock <= BatchTime(s) && w.nextJob == n && w.jobs == map[n - 1 := LastJob(s)]
      && w.rows == LeaseAll(Newcomers(s, n, past), Everyone(n), 0.0, s.claimTtl)
  {
    var start := Crowd(s, s.claimBatch, past);
    CrowdIsReady(s, s.claimBatch, past);
    var last := DownToLast(s, start);
    var at := if past.Killed? then BatchTime(s) else Max(last.clock, s.claimTtl);
    WaitUntil(s, start, last, at);
    LeasesExpire(s, last, past, at);
    w := last.(clock := at);
  }

  lemma {:induction false} LeasesExpire(s: Settings, w: World, past: Past, at: Time)
    requires s.Defined() && (past.Stumbled? ==> s.deadDuration > 0.0)
    requires w.rows == LeaseAll(Newcomers(s, s.claimBatch, past), Everyone(s.claimBatch), 0.0, s.claimTtl)
    requires if past.Killed? then at > s.probeInterval else at >= s.claimTtl
    ensures Ready(s, w.(clock := at), s.claimBatch)
  {
    forall f | f in w.rows
      ensures Eligible(s, w.rows[f], at)
    {
      assert Everyone(s.claimBatch)[f] == f;
      NewcomerStatus(s, f, past);
    }
  }

  /** The lease condition is sharp: if it fails, some tame run from a genuine table puts one feed into
      the hands of two workers. */
  lemma {:induction false} ShortLeaseBreaksExclusion(s: Settings) returns (start: World, end: World)
    requires Runnable(s) && s.fetchBound >= 0.0 && s.claimBatch >= 1
    requires s.claimTtl > 0.0 && s.probeInterval >= 0.0
    requires !(BatchTime(s) < s.claimTtl && BatchTime(s) <= s.probeInterval)
    ensures Genuine(s, start) && Reaches(s, start, end) && !Exclusive(end)
  {
    var past := if BatchTime(s) < s.claimTtl then Killed else Unpolled;
    BatchTakesTime(s);
    CrowdIsGenuine(s, s.claimBatch, past);
    start := Crowd(s, s.claimBatch, past);
    var w := LeasesRunOut(s, past);
    end := ClaimTwice(s, start, w);
  }

  lemma {:induction false} ClaimTwice(s: Settings, start: World, w: World) returns (end: World)
    requires Runnable(s) && s.fetchBound >= 0.0 && s.claimBatch >= 1
    requires Reaches(s, start, w) && Ready(s, w, s.claimBatch) && w.nextJob == s.claimBatch
    requires s.claimBatch - 1 in w.jobs && w.jobs[s.claimBatch - 1].feed == s.claimBatch - 1
    ensures Reaches(s, start, end) && !Exclusive(end)
  {
    var n := s.claimBatch;
    CanClaimAll(s, w, 1, n, 0.0);
    OneMore(s, start, w, ClaimAll(1, n, 0.0));
    end := Next(s, w, ClaimAll(1, n, 0.0));
    HeldTwice(s, w);
  }

  lemma {:induction false} HeldTwice(s: Settings, w: World)
    requires Runnable(s) && s.claimBatch >= 1 && w.nextJob == s.claimBatch
    requires s.claimBatch - 1 in w.jobs && w.jobs[s.claimBatch - 1].feed == s.claimBatch - 1
    ensures !Exclusive(Next(s, w, ClaimAll(1, s.claimBatch, 0.0)))
  {
    var n := s.claimBatch;
    var end := Next(s, w, ClaimAll(1, n, 0.0));
    JobsOfAll(s, w, 1, n, 0.0);
    assert n - 1 in end.jobs && end.jobs[n + n - 1].feed == end.jobs[n - 1].feed;
  }

  /** The lease condition is exact: all tame runs from genuine tables are exclusive if and only if a
      full batch is over before its leases run out. */
  lemma {:induction false} LeaseConditionIsExact(s: Settings)
    requires Runnable(s) && s.fetchBound >= 0.0 && s.claimBatch >= 1
    requires s.claimTtl > 0.0 && s.probeInterval >= 0.0
    ensures (forall start, end :: Genuine(s, start) && Reaches(s, start, end) ==> Exclusive(end))
       <==> BatchTime(s) < s.claimTtl && BatchTime(s) <= s.probeInterval
  {
    if BatchTime(s) < s.claimTtl && BatchTime(s) <= s.probeInterval {
      forall start, end | Genuine(s, start) && Reaches(s, start, end)
        ensures Exclusive(end)
      {
        var steps :| ReachesBy(s, start, end, steps);
        MutualExclusion(s, start, steps);
      }
    } else {
      var start, end := ShortLeaseBreaksExclusion(s);
      assert Genuine(s, start) && Reaches(s, start, end);
    }
  }

  lemma {:induction false} BatchTakesTime(s: Settings)
    requires Runnable(s) && s.fetchBound >= 0.0
    requires s.claimTtl > 0.0 && s.probeInterval >= 0.0
    requires !(BatchTime(s) < s.claimTtl && BatchTime(s) <= s.probeInterval)
    ensures s.fetchBound > 0.0 && BatchTime(s) > 0.0
  {
    if s.fetchBound == 0.0 {
      TimesIsProduct(CeilDiv(s.claimBatch, s.concurrency), 0.0);
    }
  }

  // ---- Stealing a lease breaks exclusion ----

  /** A reactivation in mid-fetch, under any settings: the feed is claimed a second time. */
  lemma {:induction false} ReactivationBreaksExclusion(s: Settings) returns (start: World, steps: seq<Step>)
    requires Runnable(s) && s.fetchBound >= 0.0 && s.claimBatch >= 1
    ensures Genuine(s, start) && IsRun(s, start, steps) && !Exclusive(End(s, start, steps))
  {
    start := Crowd(s, 1, Unpolled);
    CrowdIsGenuine(s, 1, Unpolled);
    CrowdIsReady(s, 1, Unpolled);
    var claim, steal, again := ClaimAll(0, 1, 0.0), Reactivate(0), ClaimAll(1, 1, 0.0);
    CanClaimAll(s, start, 0, 1, 0.0);
    JobsOfAll(s, start, 0, 1, 0.0);
    Stolen(s, Next(s, start, claim));
    ThreeSteps(s, start, claim, steal, again);
    steps := [claim, steal, again];
  }

  /** A lone feed that is held, once reactivated, is claimed by a second worker. */
  lemma {:induction false} Stolen(s: Settings, w: World)
    requires Runnable(s) && s.fetchBound >= 0.0 && s.claimBatch >= 1
    requires forall f: FeedId :: f in w.rows <==> f < 1
    requires w.nextJob == 1 && 0 in w.jobs && w.jobs[0].feed == 0
    ensures Enabled(s, w, Reactivate(0))
    ensures Enabled(s, Next(s, w, Reactivate(0)), ClaimAll(1, 1, 0.0))
    ensures !Exclusive(Next(s, Next(s, w, Reactivate(0)), ClaimAll(1, 1, 0.0)))
  {
    assert 0 in w.rows;
    var stolen := Next(s, w, Reactivate(0));
    CanClaimAll(s, stolen, 1, 1, 0.0);
    JobsOfAll(s, stolen, 1, 1, 0.0);
    var twice := Next(s, stolen, ClaimAll(1, 1, 0.0));
    assert 0 in twice.jobs && 1 in twice.jobs && twice.jobs[0].feed == twice.jobs[1].feed;
  }

  lemma {:induction false} ThreeSteps(s: Settings, w: World, a: Step, b: Step, c: Step)
    requires Runnable(s) && Enabled(s, w, a) && Enabled(s, Next(s, w, a), b)
    requires Enabled(s, Next(s, Next(s, w, a), b), c)
    ensures IsRun(s, w, [a, b, c]) && End(s, w, [a, b, c]) == Next(s, Next(s, Next(s, w, a), b), c)
  {
    var w1 := Next(s, w, a);
    var w2 := Next(s, w1, b);
    var w3 := Next(s, w2, c);
    assert [a, b, c][1..] == [b, c] && [b, c][1..] == [c] && [c][1..] == [];
    assert IsRun(s, w3, []) && End(s, w3, []) == w3;
    assert IsRun(s, w2, [c]) && End(s, w2, [c]) == w3;
    assert IsRun(s, w1, [b, c]) && End(s, w1, [b, c]) == w3;
  }
}
