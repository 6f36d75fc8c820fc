/** Crash recovery and bounded waiting for the claim/lease protocol. */
module Progress {
  import opened Common
  import opened Models
  import opened Fetch
  import opened Scheduler

  /** The step is not about `f`: it does not claim, delete or reactivate it. */
  predicate SparesFeed(step: Step, f: FeedId) {
    && (step.Claim? ==> f !in step.chosen)
    && (step.Delete? ==> step.feed != f)
    && (step.Reactivate? ==> step.feed != f)
  }

  predicate Spares(steps: seq<Step>, f: FeedId) {
    forall i :: 0 <= i < |steps| ==> SparesFeed(steps[i], f)
  }

  /** Nobody else's step writes the row of a feed that nobody holds. */
  lemma {:induction false} UnheldRowStays(s: Settings, w: World, step: Step, f: FeedId)
    requires Runnable(s) && Tidy(w) && Enabled(s, w, step)
    requires f in w.rows && !Held(w, f) && SparesFeed(step, f)
    ensures
      var w' := Next(s, w, step);
      Tidy(w') && f in w'.rows && w'.rows[f] == w.rows[f] && !Held(w', f)
  {
    var w' := Next(s, w, step);
    if step.Claim? {
      forall j | j in w'.jobs
        ensures w'.jobs[j].feed != f
      {
        if j >= w.nextJob {
          assert step.chosen[j - w.nextJob] in step.chosen;
        }
      }
    }
  }

  lemma {:induction false} UnheldRowStaysAlong(s: Settings, w: World, steps: seq<Step>, f: FeedId)
    requires Runnable(s) && Tidy(w) && IsRun(s, w, steps)
    requires f in w.rows && !Held(w, f) && Spares(steps, f)
    ensures
      var end := End(s, w, steps);
      Tidy(end) && f in end.rows && end.rows[f] == w.rows[f] && !Held(end, f)
    decreases |steps|
  {
    if steps != [] {
      UnheldRowStays(s, w, steps[0], f);
      UnheldRowStaysAlong(s, Next(s, w, steps[0]), steps[1..], f);
    }
  }

  // ---- Crash recovery ----

  /** The job ends without a write: its worker dies, or its transaction rolls back. */
  predicate LosesJob(w: World, j: nat, step: Step)
    requires j in w.jobs
  {
    step == Abort(j) || step == Crash(w.jobs[j].worker)
  }

  /** The instant from which a lost feed can be claimed again. */
  predicate GateOpen(s: Settings, row: FeedRow, claimedAt: Time, clock: Time) {
    if row.status != Dead then clock >= claimedAt + s.claimTtl else clock > claimedAt + s.probeInterval
  }

  /** Crash recovery: whatever the other workers do in the meantime, a lost feed keeps its row, is
      ineligible before its gate and eligible from the gate on; so no claim takes it earlier. */
  lemma {:induction false} CrashRecovery(s: Settings, w: World, j: nat, loss: Step, steps: seq<Step>)
    requires Runnable(s) && Good(s, w) && Enabled(s, w, loss)
    requires j in w.jobs && w.jobs[j].feed in w.rows && LosesJob(w, j, loss)
    requires IsRun(s, Next(s, w, loss), steps) && Spares(steps, w.jobs[j].feed)
    ensures
      var f := w.jobs[j].feed;
      var end := End(s, Next(s, w, loss), steps);
      && Tidy(end) && f in end.rows && end.rows[f] == w.rows[f] && !Held(end, f)
      && (Eligible(s, end.rows[f], end.clock) <==> GateOpen(s, w.rows[f], w.jobs[j].claimedAt, end.clock))
      && (forall step: Step :: step.Claim? && Enabled(s, end, step) && f in step.chosen ==>
            GateOpen(s, w.rows[f], w.jobs[j].claimedAt, end.clock))
  {
    var f := w.jobs[j].feed;
    var lost := Next(s, w, loss);
    assert JobFine(s, w, w.jobs[j]);
    assert !Held(lost, f) by {
      forall i | i in lost.jobs
        ensures lost.jobs[i].feed != f
      {
        assert i in w.jobs && i != j;
      }
    }
    UnheldRowStaysAlong(s, lost, steps, f);
    var end := End(s, lost, steps);
    forall step: Step | step.Claim? && Enabled(s, end, step) && f in step.chosen
      ensures GateOpen(s, w.rows[f], w.jobs[j].claimedAt, end.clock)
    {
      assert Claimable(s, end.rows, end.clock, step.locked, f);
    }
  }

  // ---- Bounded waiting ----

  /** The rows that `ORDER BY next_fetch_at` may put ahead of `f`, whose key is `x`. */
  ghost function RowsAhead(w: World, f: FeedId, x: Time): set<FeedId> {
    set g | g in w.rows && g != f && w.rows[g].nextFetchAt <= x
  }

  /** The jobs whose rescheduling may still land at or before `x`. */
  ghost function OldJobs(w: World, x: Time): set<nat> {
    set j | j in w.jobs && w.jobs[j].claimedAt < x
  }

  ghost function Ahead(w: World, f: FeedId, x: Time): nat {
    |RowsAhead(w, f, x)| + |OldJobs(w, x)|
  }

  /** A claim that could have taken `f`. */
  predicate Passes(step: Step, f: FeedId) {
    step.Claim? && f !in step.locked
  }

  /** A row made due at the very instant `f` became due. */
  predicate IsLate(w: World, step: Step, x: Time) {
    (step.Register? || step.Reactivate?) && w.clock <= x
  }

  ghost function Members(ids: seq<FeedId>): set<FeedId> {
    set f | f in ids
  }

  lemma {:induction false} DistinctCount(ids: seq<FeedId>)
    requires Distinct(ids)
    ensures |Members(ids)| == |ids|
  {
    if ids != [] {
      var n := |ids| - 1;
      DistinctCount(ids[..n]);
      assert Members(ids) == Members(ids[..n]) + {ids[n]};
      assert ids[n] !in Members(ids[..n]);
    }
  }

  /** The leases a claim takes land after `x`, so the chosen rows leave the queue ahead. */
  lemma {:induction false} ChosenLeave(s: Settings, w: World, step: Step, f: FeedId, x: Time)
    requires Runnable(s) && s.claimTtl > 0.0 && step.Claim? && Enabled(s, w, step) && x <= w.clock
    ensures |RowsAhead(Next(s, w, step), f, x)| <= |RowsAhead(w, f, x) - Members(step.chosen)|
    ensures |OldJobs(Next(s, w, step), x)| <= |OldJobs(w, x)|
  {
    var w' := Next(s, w, step);
    SubsetCount(OldJobs(w', x), OldJobs(w, x));
    SubsetCount(RowsAhead(w', f, x), RowsAhead(w, f, x) - Members(step.chosen));
  }

  /** The feed can be claimed, and its key is not in the future; unless it is DEAD, these are one. */
  predicate IsWaiting(s: Settings, w: World, f: FeedId) {
    f in w.rows && Eligible(s, w.rows[f], w.clock) && w.rows[f].nextFetchAt <= w.clock
  }

  /** A claim that passes `f` by takes a full batch, all of it from ahead of `f`. */
  lemma {:induction false} FullBatchAhead(s: Settings, w: World, step: Step, f: FeedId)
    requires step.Claim? && Enabled(s, w, step) && Passes(step, f) && f !in step.chosen
    requires IsWaiting(s, w, f)
    ensures
      var ahead := RowsAhead(w, f, w.rows[f].nextFetchAt);
      |ahead - Members(step.chosen)| == |ahead| - s.claimBatch
  {
    var ahead := RowsAhead(w, f, w.rows[f].nextFetchAt);
    assert Claimable(s, w.rows, w.clock, step.locked, f);
    DistinctCount(step.chosen);
    assert forall g :: g in step.chosen ==> Claimable(s, w.rows, w.clock, step.locked, g);
    assert Members(step.chosen) <= ahead;
  }

  /** Every claim that passes `f` by uses up a whole batch of what is ahead of it. */
  lemma {:induction false} ClaimUsesUp(s: Settings, w: World, step: Step, f: FeedId)
    requires Runnable(s) && s.claimTtl > 0.0 && step.Claim? && Enabled(s, w, step)
    requires IsWaiting(s, w, f) && f !in step.chosen
    ensures
      var x := w.rows[f].nextFetchAt;
      Ahead(Next(s, w, step), f, x) + (if Passes(step, f) then s.claimBatch else 0) <= Ahead(w, f, x)
  {
    var x := w.rows[f].nextFetchAt;
    ChosenLeave(s, w, step, f, x);
    if Passes(step, f) {
      FullBatchAhead(s, w, step, f);
    } else {
      SubsetCount(RowsAhead(w, f, x) - Members(step.chosen), RowsAhead(w, f, x));
    }
  }

  /** A commit leaves the key alone or puts it strictly after its own claim, so at most an old job adds
      a row. */
  lemma {:induction false} FinishAddsNothing(s: Settings, w: World, step: Step, f: FeedId, x: Time)
    requires Runnable(s) && s.Positive() && step.Finish? && Enabled(s, w, step)
    ensures Ahead(Next(s, w, step), f, x) <= Ahead(w, f, x)
  {
    var w' := Next(s, w, step);
    var job := w.jobs[step.job];
    if job.sight.Seen? {
      PollReschedulesLater(s, job.sight.row, job.claimedAt, step.weekly, step.outcome, step.u);
    }
    if job.claimedAt < x {
      assert OldJobs(w, x) == OldJobs(w', x) + {step.job};
      SubsetCount(RowsAhead(w', f, x), RowsAhead(w, f, x) + {job.feed});
    } else {
      SubsetCount(OldJobs(w', x), OldJobs(w, x));
      SubsetCount(RowsAhead(w', f, x), RowsAhead(w, f, x));
    }
  }

  lemma {:induction false} StepAhead(s: Settings, w: World, step: Step, f: FeedId)
    requires Runnable(s) && s.Positive() && s.claimTtl > 0.0
    requires Enabled(s, w, step) && SparesFeed(step, f) && IsWaiting(s, w, f)
    ensures
      var x := w.rows[f].nextFetchAt;
      Ahead(Next(s, w, step), f, x) + (if Passes(step, f) then s.claimBatch else 0)
        <= Ahead(w, f, x) + (if IsLate(w, step, x) then 1 else 0)
  {
    var x := w.rows[f].nextFetchAt;
    var w' := Next(s, w, step);
    match step {
      case Claim(_, _, _, _) =>
        ClaimUsesUp(s, w, step, f);
      case Finish(_, _, _, _) => FinishAddsNothing(s, w, step, f, x);
      case Load(j) => assert OldJobs(w', x) == OldJobs(w, x);
      case Tick(_) => assert w'.rows == w.rows && w'.jobs == w.jobs;
      case Register(_) => OneMoreRow(w, w', w.nextId, f, x);
      case Reactivate(g) => OneMoreRow(w, w', g, f, x);
      case Delete(_) => SubsetCount(RowsAhead(w', f, x), RowsAhead(w, f, x));
      case Abort(_) => SubsetCount(OldJobs(w', x), OldJobs(w, x));
      case Crash(_) => SubsetCount(OldJobs(w', x), OldJobs(w, x));
    }
  }

  lemma {:induction false} OneMoreRow(w: World, w': World, g: FeedId, f: FeedId, x: Time)
    requires w'.jobs == w.jobs
    requires forall h :: h in w'.rows && h != g ==> h in w.rows && w'.rows[h] == w.rows[h]
    requires g in w'.rows ==> w'.rows[g].nextFetchAt == w.clock || (g in w.rows && w'.rows[g] == w.rows[g])
    requires x <= w.clock
    ensures Ahead(w', f, x) <= Ahead(w, f, x) + (if w.clock <= x then 1 else 0)
  {
    if w.clock <= x {
      SubsetCount(RowsAhead(w', f, x), RowsAhead(w, f, x) + {g});
    } else {
      SubsetCount(RowsAhead(w', f, x), RowsAhead(w, f, x));
    }
  }

  ghost function PassCount(steps: seq<Step>, f: FeedId): nat {
    if steps == [] then 0 else (if Passes(steps[0], f) then 1 else 0) + PassCount(steps[1..], f)
  }

  /** `PassCount(steps, f) * batch`. */
  ghost function PassTotal(steps: seq<Step>, f: FeedId, batch: nat): nat {
    if steps == [] then 0 else (if Passes(steps[0], f) then batch else 0) + PassTotal(steps[1..], f, batch)
  }

  lemma {:induction false} PassTotalIsProduct(steps: seq<Step>, f: FeedId, batch: nat)
    ensures PassTotal(steps, f, batch) == PassCount(steps, f) * batch
  {
    if steps != [] {
      PassTotalIsProduct(steps[1..], f, batch);
      var n := PassCount(steps[1..], f);
      assert (n + 1) * batch == n * batch + batch;
    }
  }

  ghost function LateCount(s: Settings, w: World, steps: seq<Step>, x: Time): nat
    requires Runnable(s) && IsRun(s, w, steps)
    decreases |steps|
  {
    if steps == [] then 0
    else (if IsLate(w, steps[0], x) then 1 else 0) + LateCount(s, Next(s, w, steps[0]), steps[1..], x)
  }

  /** While a due feed waits, every claim that could take it uses up a batch of what was ahead. */
  lemma {:induction false} WaitingUsesUp(s: Settings, w: World, steps: seq<Step>, f: FeedId)
    requires Runnable(s) && s.Positive() && s.claimTtl > 0.0
    requires Tidy(w) && IsRun(s, w, steps) && Spares(steps, f)
    requires IsWaiting(s, w, f) && !Held(w, f)
    ensures
      var x := w.rows[f].nextFetchAt;
      PassTotal(steps, f, s.claimBatch) <= Ahead(w, f, x) + LateCount(s, w, steps, x)
    decreases |steps|
  {
    if steps != [] {
      StepAhead(s, w, steps[0], f);
      UnheldRowStays(s, w, steps[0], f);
      ClockAdvances(s, w, steps[0]);
      WaitingUsesUp(s, Next(s, w, steps[0]), steps[1..], f);
    }
  }

  lemma {:induction false} ClockAdvances(s: Settings, w: World, step: Step)
    requires Runnable(s) && Enabled(s, w, step)
    ensures w.clock <= Next(s, w, step).clock
  {
  }

  function ClaimsNeeded(total: nat, batch: nat): nat
    requires batch >= 1
  {
    total / batch + 1
  }

  lemma {:induction false} Exceeds(total: nat, batch: nat, count: nat)
    requires batch >= 1 && count >= total / batch + 1
    ensures count * batch > total
  {
    var q := total / batch;
    assert total == q * batch + total % batch;
    assert (q + 1) * batch == q * batch + batch;
    Grow(q + 1, count, batch);
  }

  /** Bounded waiting: a feed that is due, or dead and due for a probe, and that nobody holds, is taken
      by one of the next `floor((A + R) / batch) + 1` claims that do not find it locked, where `A`
      counts the rows that may go first and the jobs claimed before it fell due, and `R` the rows made
      due at that very instant (none, once the clock has passed it). */
  lemma {:induction false} BoundedWaiting(s: Settings, w: World, steps: seq<Step>, f: FeedId)
    requires Runnable(s) && s.Positive() && s.claimTtl > 0.0 && s.claimBatch >= 1
    requires Tidy(w) && IsRun(s, w, steps) && IsWaiting(s, w, f) && !Held(w, f)
    requires forall i :: 0 <= i < |steps| ==> steps[i] != Delete(f) && steps[i] != Reactivate(f)
    requires
      var x := w.rows[f].nextFetchAt;
      PassCount(steps, f) >= ClaimsNeeded(Ahead(w, f, x) + LateCount(s, w, steps, x), s.claimBatch)
    ensures exists i :: 0 <= i < |steps| && steps[i].Claim? && f in steps[i].chosen
  {
    var total := Ahead(w, f, w.rows[f].nextFetchAt) + LateCount(s, w, steps, w.rows[f].nextFetchAt);
    EnoughPasses(steps, f, s.claimBatch, total);
    CannotBeSpared(s, w, steps, f);
    SomeClaim(steps, f);
  }

  lemma {:induction false} EnoughPasses(steps: seq<Step>, f: FeedId, batch: nat, total: nat)
    requires batch >= 1 && PassCount(steps, f) >= ClaimsNeeded(total, batch)
    ensures PassTotal(steps, f, batch) > total
  {
    PassTotalIsProduct(steps, f, batch);
    Exceeds(total, batch, PassCount(steps, f));
  }

  lemma {:induction false} CannotBeSpared(s: Settings, w: World, steps: seq<Step>, f: FeedId)
    requires Runnable(s) && s.Positive() && s.claimTtl > 0.0
    requires Tidy(w) && IsRun(s, w, steps) && IsWaiting(s, w, f) && !Held(w, f)
    requires
      var x := w.rows[f].nextFetchAt;
      PassTotal(steps, f, s.claimBatch) > Ahead(w, f, x) + LateCount(s, w, steps, x)
    ensures !Spares(steps, f)
  {
    if Spares(steps, f) {
      WaitingUsesUp(s, w, steps, f);
    }
  }

  lemma {:induction false} SomeClaim(steps: seq<Step>, f: FeedId)
    requires !Spares(steps, f)
    requires forall i :: 0 <= i < |steps| ==> steps[i] != Delete(f) && steps[i] != Reactivate(f)
    ensures exists i :: 0 <= i < |steps| && steps[i].Claim? && f in steps[i].chosen
  {
    var i :| 0 <= i < |steps| && !SparesFeed(steps[i], f);
  }

  lemma {:induction false} NothingLate(s: Settings, w: World, steps: seq<Step>, x: Time)
    requires Runnable(s) && IsRun(s, w, steps) && w.clock > x
    ensures LateCount(s, w, steps, x) == 0
    decreases |steps|
  {
    if steps != [] {
      NothingLate(s, Next(s, w, steps[0]), steps[1..], x);
    }
  }

  /** A feed lost to a crash is claimed again within the waiting bound of its gate, dead or not. */
  lemma {:induction false} LostFeedIsReclaimed(s: Settings, w: World, j: nat, loss: Step,
                                               steps: seq<Step>, more: seq<Step>)
    requires Runnable(s) && s.Positive() && s.claimTtl > 0.0 && s.claimBatch >= 1
    requires Good(s, w) && Enabled(s, w, loss)
    requires j in w.jobs && w.jobs[j].feed in w.rows && LosesJob(w, j, loss)
    requires IsRun(s, Next(s, w, loss), steps) && Spares(steps, w.jobs[j].feed)
    requires
      var f := w.jobs[j].feed;
      var key := w.jobs[j].claimedAt + s.claimTtl;
      var end := End(s, Next(s, w, loss), steps);
      && GateOpen(s, w.rows[f], w.jobs[j].claimedAt, end.clock) && end.clock > key
      && IsRun(s, end, more)
      && (forall i :: 0 <= i < |more| ==> more[i] != Delete(f) && more[i] != Reactivate(f))
      && PassCount(more, f) >= ClaimsNeeded(Ahead(end, f, key), s.claimBatch)
    ensures exists i :: 0 <= i < |more| && more[i].Claim? && w.jobs[j].feed in more[i].chosen
  {
    var end := End(s, Next(s, w, loss), steps);
    assert JobFine(s, w, w.jobs[j]);
    CrashRecovery(s, w, j, loss, steps);
    NothingLate(s, end, more, w.jobs[j].claimedAt + s.claimTtl);
    BoundedWaiting(s, end, more, w.jobs[j].feed);
  }
}
