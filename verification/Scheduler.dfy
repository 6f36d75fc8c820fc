/** The claim/lease protocol: any number of workers over one `feeds` table. */
module Scheduler {
  import opened Common
  import opened Models
  import opened Policy
  import opened FeedState
  import opened Fetch
  import opened Lifecycle
  import opened Semaphore

  type FeedRows = map<FeedId, FeedRow>

  /** The claim predicate: due and not dead, or dead and not probed for a while. */
  predicate Eligible(s: Settings, row: FeedRow, now: Time) {
    if row.status != Dead then
      row.nextFetchAt <= now
    else
      row.lastAttempt.None? || row.lastAttempt.value < now - s.probeInterval
  }

  predicate Distinct(ids: seq<FeedId>) {
    forall i, j :: 0 <= i < j < |ids| ==> ids[i] != ids[j]
  }

  predicate Claimable(s: Settings, rows: FeedRows, now: Time, locked: set<FeedId>, f: FeedId) {
    f in rows && f !in locked && Eligible(s, rows[f], now)
  }

  /** `ORDER BY next_fetch_at LIMIT claim_batch_size FOR UPDATE SKIP LOCKED`; ties in any order. */
  ghost predicate IsClaim(s: Settings, rows: FeedRows, now: Time, locked: set<FeedId>, chosen: seq<FeedId>) {
    && Distinct(chosen)
    && |chosen| <= s.claimBatch
    && (forall f :: f in chosen ==> Claimable(s, rows, now, locked, f))
    && (forall f :: f !in chosen && Claimable(s, rows, now, locked, f) ==>
          |chosen| == s.claimBatch && forall g :: g in chosen ==> rows[g].nextFetchAt <= rows[f].nextFetchAt)
  }

  /** The UPDATE: lease the chosen rows. */
  function LeaseAll(rows: FeedRows, chosen: seq<FeedId>, now: Time, until: Time): FeedRows {
    map f | f in rows :: if f in chosen then Leasing(rows[f], now, until) else rows[f]
  }

  // ---- The system as a whole ----

  /** What a job's session has read: nothing yet, that the feed is gone, or its row. */
  datatype Sight = Unseen | Absent | Seen(row: FeedRow)

  /** A claimed feed in the hands of a live worker: its slot opens at `opens`, and the worker is done
      with it at `deadline`. */
  datatype Job = Job(worker: nat, feed: FeedId, claimedAt: Time, opens: Time, deadline: Time, sight: Sight)

  datatype World = World(clock: Time, rows: FeedRows, nextId: FeedId, jobs: map<nat, Job>, nextJob: nat)

  datatype Step =
    | Tick(to: Time)
    | Claim(worker: nat, locked: set<FeedId>, chosen: seq<FeedId>, durations: seq<Time>)
    | Load(job: nat)
    | Finish(job: nat, weekly: nat, outcome: Outcome, u: Draw)
    | Abort(job: nat)
    | Crash(worker: nat)
    | Register(url: string)
    | Delete(feed: FeedId)
    | Reactivate(feed: FeedId)

  predicate Held(w: World, f: FeedId) {
    exists j :: j in w.jobs && w.jobs[j].feed == f
  }

  predicate Runnable(s: Settings) {
    s.Defined() && s.concurrency >= 1
  }

  /** The jobs of a claim last at most `fetchBound` each.  A job loads its feed once its slot is open,
      and ends when the semaphore schedule says: with a commit or a rollback.  Time passes only up to
      the end of the job that ends first. */
  ghost predicate Enabled(s: Settings, w: World, step: Step) {
    match step
    case Tick(to) => w.clock < to && forall j :: j in w.jobs ==> to <= w.jobs[j].deadline
    case Claim(_, locked, chosen, durations) =>
      && IsClaim(s, w.rows, w.clock, locked, chosen)
      && |durations| == |chosen|
      && forall i :: 0 <= i < |durations| ==> 0.0 <= durations[i] <= s.fetchBound
    case Load(job) => job in w.jobs && w.jobs[job].sight.Unseen? && w.jobs[job].opens <= w.clock
    case Finish(job, _, _, _) => job in w.jobs && !w.jobs[job].sight.Unseen? && w.clock == w.jobs[job].deadline
    case Abort(job) => job in w.jobs && w.clock == w.jobs[job].deadline
    case Crash(_) => true
    case Register(_) => true
    case Delete(_) => true
    case Reactivate(feed) => feed in w.rows
  }

  /** The jobs of one claim, with the deadlines the shared semaphore gives them. */
  function NewJobs(s: Settings, w: World, worker: nat, chosen: seq<FeedId>, durations: seq<Time>): map<nat, Job>
    requires Runnable(s) && |durations| == |chosen|
  {
    var spans := Schedule(AllFree(s.concurrency, w.clock), durations);
    map j: nat | w.nextJob <= j < w.nextJob + |chosen| :: JobAt(w, worker, chosen, spans, j)
  }

  function NewJob(worker: nat, feed: FeedId, at: Time, span: Span): Job {
    Job(worker, feed, at, span.start, span.finish, Unseen)
  }

  function JobAt(w: World, worker: nat, chosen: seq<FeedId>, spans: seq<Span>, j: nat): Job
    requires w.nextJob <= j < w.nextJob + |chosen| && |spans| == |chosen|
  {
    NewJob(worker, chosen[j - w.nextJob], w.clock, spans[j - w.nextJob])
  }

  predicate UrlTaken(rows: FeedRows, url: string) {
    exists f :: f in rows && rows[f].url == url
  }

  function Looked(w: World, job: Job): Job {
    job.(sight := if job.feed in w.rows then Seen(w.rows[job.feed]) else Absent)
  }

  /** The commit of a job: the columns that the attempt changed on the loaded row go to the row as it
      now stands.  Without that row the UPDATE matches nothing, and the transaction is rolled back. */
  function Committed(s: Settings, rows: FeedRows, f: FeedId, sight: Sight, now: Time,
                     weekly: nat, outcome: Outcome, u: Draw): FeedRows
    requires s.Defined()
  {
    if sight.Seen? && f in rows then
      rows[f := Flushed(rows[f], sight.row, AfterPoll(s, sight.row, now, weekly, outcome, u))]
    else
      rows
  }

  function CommittedBy(s: Settings, rows: FeedRows, job: Job, weekly: nat, outcome: Outcome, u: Draw): FeedRows
    requires s.Defined()
  {
    Committed(s, rows, job.feed, job.sight, job.claimedAt, weekly, outcome, u)
  }

  function Next(s: Settings, w: World, step: Step): World
    requires Runnable(s)
    requires step.Claim? ==> |step.durations| == |step.chosen|
    requires step.Load? || step.Finish? ==> step.job in w.jobs
  {
    match step
    case Tick(to) => w.(clock := to)
    case Claim(worker, _, chosen, durations) =>
      w.(rows := LeaseAll(w.rows, chosen, w.clock, w.clock + s.claimTtl),
         jobs := w.jobs + NewJobs(s, w, worker, chosen, durations),
         nextJob := w.nextJob + |chosen|)
    case Load(job) => w.(jobs := w.jobs[job := Looked(w, w.jobs[job])])
    case Finish(job, weekly, outcome, u) =>
      w.(jobs := w.jobs - {job}, rows := CommittedBy(s, w.rows, w.jobs[job], weekly, outcome, u))
    case Abort(job) => w.(jobs := w.jobs - {job})
    case Crash(worker) => w.(jobs := map j | j in w.jobs && w.jobs[j].worker != worker :: w.jobs[j])
    case Register(url) =>
      if UrlTaken(w.rows, url) then w
      else w.(rows := w.rows[w.nextId := Registered(url, w.clock)], nextId := w.nextId + 1)
    case Delete(feed) => w.(rows := w.rows - {feed})
    case Reactivate(feed) =>
      if feed in w.rows then w.(rows := w.rows[feed := Reactivation(w.rows[feed], w.clock)]) else w
  }

  ghost predicate IsRun(s: Settings, w: World, steps: seq<Step>)
    requires Runnable(s)
    decreases |steps|
  {
    steps == [] || (Enabled(s, w, steps[0]) && IsRun(s, Next(s, w, steps[0]), steps[1..]))
  }

  ghost function End(s: Settings, w: World, steps: seq<Step>): World
    requires Runnable(s) && IsRun(s, w, steps)
    decreases |steps|
  {
    if steps == [] then w else End(s, Next(s, w, steps[0]), steps[1..])
  }

  // ---- Mutual exclusion ----

  predicate Exclusive(w: World) {
    forall i, j :: i in w.jobs && j in w.jobs && w.jobs[i].feed == w.jobs[j].feed ==> i == j
  }

  /** The longest a claim's jobs can take together. */
  function BatchTime(s: Settings): Time
    requires s.concurrency >= 1
  {
    Times(CeilDiv(s.claimBatch, s.concurrency), s.fetchBound)
  }

  /** The lease outlives the batch, for live and for dead feeds. */
  predicate Safe(s: Settings) {
    && Runnable(s)
    && s.fetchBound >= 0.0
    && BatchTime(s) < s.claimTtl
    && BatchTime(s) <= s.probeInterval
  }

  /** The row still carries the lease the job took. */
  predicate Leases(s: Settings, row: FeedRow, job: Job) {
    row.nextFetchAt == job.claimedAt + s.claimTtl && row.lastAttempt == Some(job.claimedAt)
  }

  /** What the job's session has read is still so. */
  predicate StillTrue(w: World, job: Job) {
    match job.sight
    case Unseen => true
    case Absent => job.feed !in w.rows
    case Seen(row) => job.feed in w.rows ==> w.rows[job.feed] == row
  }

  predicate JobFine(s: Settings, w: World, job: Job)
    requires s.concurrency >= 1
  {
    && job.claimedAt <= w.clock <= job.deadline <= job.claimedAt + BatchTime(s)
    && job.feed < w.nextId
    && (job.feed in w.rows ==> Leases(s, w.rows[job.feed], job))
    && StillTrue(w, job)
  }

  /** Keys are issued once. */
  predicate Tidy(w: World) {
    && (forall f :: f in w.rows ==> f < w.nextId)
    && (forall j :: j in w.jobs ==> j < w.nextJob)
  }

  predicate Good(s: Settings, w: World)
    requires s.concurrency >= 1
  {
    && Tidy(w)
    && Exclusive(w)
    && (forall j :: j in w.jobs ==> JobFine(s, w, w.jobs[j]))
  }

  /** A fleet that starts on an existing table. */
  predicate Fresh(w: World) {
    w.jobs == map[] && Tidy(w)
  }

  /** Reactivating a feed while a worker holds it takes the worker's lease away. */
  predicate StealsLease(w: World, step: Step) {
    step.Reactivate? && Held(w, step.feed)
  }

  ghost predicate Tame(s: Settings, w: World, steps: seq<Step>)
    requires Runnable(s) && IsRun(s, w, steps)
    decreases |steps|
  {
    steps == [] || (!StealsLease(w, steps[0]) && Tame(s, Next(s, w, steps[0]), steps[1..]))
  }

  /** A lease protects: a held feed is not eligible, for anyone. */
  lemma {:induction false} HeldIsIneligible(s: Settings, w: World, f: FeedId)
    requires Safe(s) && Good(s, w) && f in w.rows && Held(w, f)
    ensures !Eligible(s, w.rows[f], w.clock)
  {
    var j :| j in w.jobs && w.jobs[j].feed == f;
    assert JobFine(s, w, w.jobs[j]);
  }

  lemma {:induction false} ClaimDeadlines(s: Settings, w: World, durations: seq<Time>, i: nat)
    requires Runnable(s) && s.fetchBound >= 0.0 && |durations| <= s.claimBatch && i < |durations|
    requires forall k :: 0 <= k < |durations| ==> 0.0 <= durations[k] <= s.fetchBound
    ensures w.clock <= Schedule(AllFree(s.concurrency, w.clock), durations)[i].finish <= w.clock + BatchTime(s)
  {
    Makespan(s.concurrency, w.clock, durations, s.fetchBound);
    SpansFit(AllFree(s.concurrency, w.clock), durations, i);
    CeilDivGrows(|durations|, s.claimBatch, s.concurrency);
    TimesGrows(CeilDiv(|durations|, s.concurrency), CeilDiv(s.claimBatch, s.concurrency), s.fetchBound);
  }

  lemma {:induction false} CeilDivGrows(a: nat, b: nat, size: nat)
    requires a <= b && size >= 1
    ensures CeilDiv(a, size) <= CeilDiv(b, size)
  {
    CeilDivLeast(b, size, CeilDiv(b, size));
    CeilDivLeast(a, size, CeilDiv(b, size));
  }

  lemma {:induction false} ClaimKeepsGood(s: Settings, w: World, step: Step)
    requires Safe(s) && Good(s, w) && step.Claim? && Enabled(s, w, step)
    ensures Good(s, Next(s, w, step))
  {
    var w' := Next(s, w, step);
    var chosen := step.chosen;
    forall f | f in chosen
      ensures !Held(w, f)
    {
      assert Claimable(s, w.rows, w.clock, step.locked, f);
      if Held(w, f) {
        HeldIsIneligible(s, w, f);
      }
    }
    forall j | j in w'.jobs
      ensures j < w'.nextJob && JobFine(s, w', w'.jobs[j])
    {
      if j >= w.nextJob {
        ClaimDeadlines(s, w, step.durations, j - w.nextJob);
        assert chosen[j - w.nextJob] in chosen;
        assert Claimable(s, w.rows, w.clock, step.locked, chosen[j - w.nextJob]);
      } else {
        assert Held(w, w.jobs[j].feed);
      }
    }
    forall i, j | i in w'.jobs && j in w'.jobs && w'.jobs[i].feed == w'.jobs[j].feed
      ensures i == j
    {
      if i >= w.nextJob || j >= w.nextJob {
        assert i < w.nextJob ==> Held(w, w.jobs[i].feed);
        assert j < w.nextJob ==> Held(w, w.jobs[j].feed);
        assert i >= w.nextJob ==> w'.jobs[i].feed in chosen;
        assert j >= w.nextJob ==> w'.jobs[j].feed in chosen;
      }
    }
  }

  lemma {:induction false} StepKeepsGood(s: Settings, w: World, step: Step)
    requires Safe(s) && Good(s, w) && Enabled(s, w, step) && !StealsLease(w, step)
    ensures Good(s, Next(s, w, step))
  {
    if step.Claim? {
      ClaimKeepsGood(s, w, step);
    } else {
      var w' := Next(s, w, step);
      forall j | j in w'.jobs
        ensures j < w'.nextJob && JobFine(s, w', w'.jobs[j])
      {
        assert JobFine(s, w, w.jobs[j]);
        assert Held(w, w.jobs[j].feed);
      }
    }
  }

  lemma {:induction false} GoodAlong(s: Settings, w: World, steps: seq<Step>)
    requires Safe(s) && Good(s, w) && IsRun(s, w, steps) && Tame(s, w, steps)
    ensures Good(s, End(s, w, steps))
    decreases |steps|
  {
    if steps != [] {
      StepKeepsGood(s, w, steps[0]);
      GoodAlong(s, Next(s, w, steps[0]), steps[1..]);
    }
  }

  /** Mutual exclusion: in every interleaving of claims, loads, commits, rollbacks, crashes, registrations,
      deletions and reactivations of unheld feeds, no feed is ever in the hands of two jobs. */
  lemma {:induction false} MutualExclusion(s: Settings, w: World, steps: seq<Step>)
    requires Safe(s) && Fresh(w) && IsRun(s, w, steps) && Tame(s, w, steps)
    ensures Exclusive(End(s, w, steps))
  {
    GoodAlong(s, w, steps);
  }

  /** Exactly one kind of step lets a held feed become eligible: stealing its lease. */
  lemma {:induction false} ProtectionLostOnlyByStealing(s: Settings, w: World, step: Step)
    requires Safe(s) && Good(s, w) && Enabled(s, w, step)
    ensures
      var w' := Next(s, w, step);
      (forall f :: f in w'.rows && Held(w', f) ==> !Eligible(s, w'.rows[f], w'.clock)) <==> !StealsLease(w, step)
  {
    var w' := Next(s, w, step);
    if StealsLease(w, step) {
      var j :| j in w.jobs && w.jobs[j].feed == step.feed;
      assert j in w'.jobs && Held(w', step.feed);
      assert Eligible(s, w'.rows[step.feed], w'.clock);
    } else {
      StepKeepsGood(s, w, step);
      forall f | f in w'.rows && Held(w', f)
        ensures !Eligible(s, w'.rows[f], w'.clock)
      {
        HeldIsIneligible(s, w', f);
      }
    }
  }
}
