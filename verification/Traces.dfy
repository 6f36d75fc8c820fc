/** What a run of the whole fleet is to one feed, and how long a failing feed lives in it. */
module Traces {
  import opened Common
  import opened Models
  import opened Policy
  import opened FeedState
  import opened Lifecycle
  import opened Dying
  import opened Semaphore
  import opened Scheduler
  import opened Fleet

  /** What a step is in the history of `f`, if anything. */
  function Happening(s: Settings, w: World, step: Step, f: FeedId): History {
    if f in w.rows && Touches(w, step, f) then [EventOf(s, w, step)] else []
  }

  /** The history that a run gives `f`. */
  ghost function Trace(s: Settings, w: World, steps: seq<Step>, f: FeedId): History
    requires Runnable(s) && IsRun(s, w, steps)
    decreases |steps|
  {
    if steps == [] then []
    else Happening(s, w, steps[0], f) + Trace(s, Next(s, w, steps[0]), steps[1..], f)
  }

  /** A step does to the row of `f` what it is in the history of `f`. */
  lemma {:induction false} HappeningIsRun(s: Settings, row: FeedRow, h: History, w: World, step: Step, f: FeedId)
    requires Runnable(s) && Good(s, w) && Enabled(s, w, step) && step != Delete(f)
    requires f in w.rows && w.rows[f] == Run(s, row, h)
    ensures
      var w' := Next(s, w, step);
      f in w'.rows && w'.rows[f] == Run(s, row, h + Happening(s, w, step, f))
  {
    StepIsEvent(s, w, step, f);
    if Touches(w, step, f) {
      var e := EventOf(s, w, step);
      assert (h + [e])[..|h|] == h;
    } else {
      assert h + [] == h;
    }
  }

  lemma {:induction false} TraceAfter(s: Settings, row: FeedRow, h: History, w: World, steps: seq<Step>, f: FeedId)
    requires Safe(s) && Good(s, w) && IsRun(s, w, steps) && Tame(s, w, steps) && Delete(f) !in steps
    requires f in w.rows && w.rows[f] == Run(s, row, h)
    ensures
      var end := End(s, w, steps);
      f in end.rows && end.rows[f] == Run(s, row, h + Trace(s, w, steps, f))
    decreases |steps|
  {
    if steps == [] {
      assert h + [] == h;
    } else {
      var now := Happening(s, w, steps[0], f);
      HappeningIsRun(s, row, h, w, steps[0], f);
      StepKeepsGood(s, w, steps[0]);
      TraceAfter(s, row, h + now, Next(s, w, steps[0]), steps[1..], f);
      assert h + now + Trace(s, Next(s, w, steps[0]), steps[1..], f) == h + Trace(s, w, steps, f);
    }
  }

  /** In every run in which leases hold, the row of a feed is what its own trace makes of it: the steps
      about other feeds leave nothing in it, and no step of its own is lost. */
  lemma {:induction false} TraceIsHistory(s: Settings, w: World, steps: seq<Step>, f: FeedId)
    requires Safe(s) && Good(s, w) && IsRun(s, w, steps) && Tame(s, w, steps)
    requires Delete(f) !in steps && f in w.rows
    ensures
      var end := End(s, w, steps);
      f in end.rows && end.rows[f] == Run(s, w.rows[f], Trace(s, w, steps, f))
  {
    TraceAfter(s, w.rows[f], [], w, steps, f);
    assert [] + Trace(s, w, steps, f) == Trace(s, w, steps, f);
  }

  // ---- A feed that only fails ----

  ghost predicate OnlyFails(h: History) {
    forall i :: 0 <= i < |h| ==> h[i].Leased? || IsPlainFailure(h[i])
  }

  /** The history so far is a streak, and a job that holds the feed has just leased it. */
  ghost predicate Follows(s: Settings, row: FeedRow, h: History, w: World, f: FeedId)
    requires s.Defined()
  {
    && f in w.rows && w.rows[f] == Run(s, row, h)
    && Streak(s, row, h)
    && w.clock >= Reference(row)
    && (forall j :: j in w.jobs && w.jobs[j].feed == f ==>
          h != [] && h[|h| - 1].Leased? && h[|h| - 1].at == w.jobs[j].claimedAt)
  }

  lemma {:induction false} LeaseIsPositive(s: Settings)
    requires Safe(s)
    ensures s.claimTtl > 0.0
  {
    TimesGrows(0, CeilDiv(s.claimBatch, s.concurrency), s.fetchBound);
  }

  /** A claim is made through the gate, so it extends the streak. */
  lemma {:induction false} LeaseFollows(s: Settings, row: FeedRow, h: History, w: World, step: Step, f: FeedId)
    requires Safe(s) && Good(s, w) && Enabled(s, w, step) && step.Claim? && f in step.chosen
    requires Follows(s, row, h, w, f)
    ensures Streak(s, row, h + [EventOf(s, w, step)]) && !Held(w, f)
  {
    var h' := h + [EventOf(s, w, step)];
    assert h'[..|h|] == h && h'[|h|] == EventOf(s, w, step);
    assert Claimable(s, w.rows, w.clock, step.locked, f);
    LeaseIsPositive(s);
    if Held(w, f) {
      HeldIsIneligible(s, w, f);
    }
  }

  /** A finished job polls at the instant of its own lease. */
  lemma {:induction false} PollFollows(s: Settings, row: FeedRow, h: History, w: World, step: Step, f: FeedId)
    requires Runnable(s) && Enabled(s, w, step) && step.Finish? && w.jobs[step.job].feed == f
    requires Follows(s, row, h, w, f) && IsPlainFailure(EventOf(s, w, step))
    ensures Streak(s, row, h + [EventOf(s, w, step)])
  {
    var h' := h + [EventOf(s, w, step)];
    assert h'[..|h|] == h && h'[|h|] == EventOf(s, w, step);
    assert h'[|h| - 1] == h[|h| - 1];
  }

  lemma {:induction false} StepExtendsStreak(s: Settings, row: FeedRow, h: History, w: World, step: Step, f: FeedId)
    requires Safe(s) && Good(s, w) && Enabled(s, w, step) && Follows(s, row, h, w, f)
    requires OnlyFails(Happening(s, w, step, f))
    ensures Streak(s, row, h + Happening(s, w, step, f))
    ensures step.Claim? && f in step.chosen ==> !Held(w, f)
  {
    if Touches(w, step, f) {
      var e := EventOf(s, w, step);
      assert Happening(s, w, step, f)[0] == e;
      if step.Claim? {
        LeaseFollows(s, row, h, w, step, f);
      } else {
        PollFollows(s, row, h, w, step, f);
      }
    } else {
      assert h + [] == h;
    }
  }

  lemma {:induction false} ReactivationIsNoFailure(s: Settings, w: World, f: FeedId)
    requires f in w.rows
    ensures !OnlyFails(Happening(s, w, Reactivate(f), f))
  {
    assert Happening(s, w, Reactivate(f), f)[0] == Reactivated(w.clock);
  }

  /** After a step, a job that holds the feed has still just leased it. */
  lemma {:induction false} HolderLeasedLast(s: Settings, h: History, w: World, step: Step, f: FeedId, j: nat)
    requires Runnable(s) && Good(s, w) && Enabled(s, w, step) && f in w.rows
    requires forall i :: i in w.jobs && w.jobs[i].feed == f ==>
               h != [] && h[|h| - 1].Leased? && h[|h| - 1].at == w.jobs[i].claimedAt
    requires step != Reactivate(f) && (step.Claim? && f in step.chosen ==> !Held(w, f))
    requires j in Next(s, w, step).jobs && Next(s, w, step).jobs[j].feed == f
    ensures
      var h' := h + Happening(s, w, step, f);
      h' != [] && h'[|h'| - 1].Leased? && h'[|h'| - 1].at == Next(s, w, step).jobs[j].claimedAt
  {
    var now := Happening(s, w, step, f);
    if j in w.jobs && j < w.nextJob {
      assert Held(w, f);
      assert now == [];
      assert h + now == h;
    } else {
      assert step.chosen[j - w.nextJob] == f;
      assert now == [EventOf(s, w, step)];
      assert (h + now)[|h + now| - 1] == EventOf(s, w, step);
    }
  }

  lemma {:induction false} StepFollows(s: Settings, row: FeedRow, h: History, w: World, step: Step, f: FeedId)
    requires Safe(s) && Good(s, w) && Enabled(s, w, step) && step != Delete(f)
    requires Follows(s, row, h, w, f) && OnlyFails(Happening(s, w, step, f))
    ensures Follows(s, row, h + Happening(s, w, step, f), Next(s, w, step), f)
  {
    var w' := Next(s, w, step);
    HappeningIsRun(s, row, h, w, step, f);
    ReactivationIsNoFailure(s, w, f);
    StepExtendsStreak(s, row, h, w, step, f);
    forall j | j in w'.jobs && w'.jobs[j].feed == f
      ensures
        var h' := h + Happening(s, w, step, f);
        h' != [] && h'[|h'| - 1].Leased? && h'[|h'| - 1].at == w'.jobs[j].claimedAt
    {
      HolderLeasedLast(s, h, w, step, f, j);
    }
  }

  lemma {:induction false} StreakAfter(s: Settings, row: FeedRow, h: History, w: World, steps: seq<Step>, f: FeedId,
                                       all: History)
    requires Safe(s) && Good(s, w) && IsRun(s, w, steps) && Tame(s, w, steps) && Delete(f) !in steps
    requires Follows(s, row, h, w, f) && OnlyFails(Trace(s, w, steps, f))
    requires all == h + Trace(s, w, steps, f)
    ensures Streak(s, row, all)
    decreases |steps|
  {
    if steps == [] {
      assert h + [] == h;
    } else {
      var now, rest := Happening(s, w, steps[0], f), Trace(s, Next(s, w, steps[0]), steps[1..], f);
      FirstFollows(s, row, h, w, steps, f);
      assert all == h + now + rest;
      StreakAfter(s, row, h + now, Next(s, w, steps[0]), steps[1..], f, all);
    }
  }

  lemma {:induction false} FirstFollows(s: Settings, row: FeedRow, h: History, w: World, steps: seq<Step>, f: FeedId)
    requires Safe(s) && Good(s, w) && steps != [] && IsRun(s, w, steps) && !StealsLease(w, steps[0])
    requires steps[0] != Delete(f) && Follows(s, row, h, w, f) && OnlyFails(Trace(s, w, steps, f))
    ensures
      var w' := Next(s, w, steps[0]);
      && Good(s, w') && Follows(s, row, h + Happening(s, w, steps[0], f), w', f)
      && OnlyFails(Trace(s, w', steps[1..], f))
  {
    SplitFails(Happening(s, w, steps[0], f), Trace(s, Next(s, w, steps[0]), steps[1..], f));
    StepFollows(s, row, h, w, steps[0], f);
    StepKeepsGood(s, w, steps[0]);
  }

  lemma {:induction false} SplitFails(a: History, b: History)
    requires OnlyFails(a + b)
    ensures OnlyFails(a) && OnlyFails(b)
  {
    assert forall i :: 0 <= i < |a| ==> (a + b)[i] == a[i];
    assert forall i :: 0 <= i < |b| ==> (a + b)[|a| + i] == b[i];
  }

  /** A feed at the start of a run in which all its polls fail. */
  ghost predicate Declines(s: Settings, w: World, steps: seq<Step>, f: FeedId)
    requires Runnable(s)
  {
    && Good(s, w) && IsRun(s, w, steps) && Tame(s, w, steps) && Delete(f) !in steps
    && f in w.rows && !Held(w, f) && Lifecycle.Consistent(s, w.rows[f]) && w.clock >= Reference(w.rows[f])
    && OnlyFails(Trace(s, w, steps, f))
  }

  /** The claim gate makes the trace of a failing feed a streak. */
  lemma {:induction false} TraceIsStreak(s: Settings, w: World, steps: seq<Step>, f: FeedId)
    requires Safe(s) && Declines(s, w, steps, f)
    ensures Streak(s, w.rows[f], Trace(s, w, steps, f))
  {
    var row := w.rows[f];
    assert Follows(s, row, [], w, f);
    assert [] + Trace(s, w, steps, f) == Trace(s, w, steps, f);
    StreakAfter(s, row, [], w, steps, f, Trace(s, w, steps, f));
  }

  /** Bounded dying in every run of the fleet, in polls. */
  lemma {:induction false} FailingFeedIsBounded(s: Settings, w: World, steps: seq<Step>, f: FeedId, k: nat)
    requires Safe(s) && s.Positive() && s.brokenThreshold >= 1 && IsCapStep(s, k)
    requires Declines(s, w, steps, f)
    ensures GapsFit(s, BrokenPolls(s, w.rows[f], Trace(s, w, steps, f)), k)
  {
    TraceIsStreak(s, w, steps, f);
    BrokenPollsAreBounded(s, w.rows[f], Trace(s, w, steps, f), k);
  }

  /** Bounded dying in every run of the fleet, in time: with the threshold met, and until it is DEAD no
      poll more than `latency` overdue, the feed is DEAD from the bound on. */
  lemma {:induction false} FailingFeedDies(s: Settings, w: World, steps: seq<Step>, f: FeedId, latency: Time)
    requires Safe(s) && s.Positive() && s.brokenThreshold >= 1 && Declines(s, w, steps, f)
    requires
      var h := Trace(s, w, steps, f);
      var end := End(s, w, steps);
      && Polls(h) != [] && Run(s, w.rows[f], h).failures >= s.brokenThreshold
      && (Run(s, w.rows[f], h).status != Dead ==> end.clock <= Due(s, w.rows[f], Polls(h)) + latency)
      && end.clock >= Reference(w.rows[f]) + s.deadDuration + MaxGap(s) + latency
    ensures f in End(s, w, steps).rows && End(s, w, steps).rows[f].status == Dead
  {
    TraceIsStreak(s, w, steps, f);
    TraceIsHistory(s, w, steps, f);
    DeadInTime(s, w.rows[f], Trace(s, w, steps, f), latency, End(s, w, steps).clock);
  }
}
